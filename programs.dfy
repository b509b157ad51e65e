/**
 * The `Program` facade of interpreter/Program.kt: it owns one environment,
 * runs its statement list in order, and serves point requests against the
 * environment the run left.
 *
 * The functions give the meaning of each operation on the symbol table; the
 * class `Program` carries it out on its `Runtime.Environment` and is proved
 * to agree with them.
 */
module Programs {
  import opened Common
  import opened Values
  import opened Ast
  import opened Semantics
  import Runtime

  /** The interactive requests a program serves (the two printing ones are not modelled). */
  datatype Request =
    | EvalLine(lineNumber: int)
    | AssignVar(name: string, value: Expression)
    | InvokeFunction(name: string, args: seq<string>)

  /** `String.red()`: the text between the ANSI codes for red and for reset. */
  function Red(s: string): (r: string)
    ensures |r| == |s| + 9 && r[5..5 + |s|] == s
  {
    "\U{1B}[31m" + s + "\U{1B}[0m"
  }

  /** The value `evalLine` gives for a line number outside the program. */
  const OutOfRange: Value := StringValue(Red("Line number is out of range."))

  /**
   * One top-level statement: its value, or its failure. A `return` outside
   * any function escapes to the host.
   */
  function TopLevel(fuel: nat, s: Statement, t: Table): (r: EnvResult<Value>)
    ensures Evolves(t, r.table)
  {
    var c := Step(fuel, s, t);
    match c.result
    case Err(e) => EnvResult(Err(e), c.table)
    case Ok(Return(_)) => EnvResult(Err(UncaughtReturn), c.table)
    case Ok(Normal(v)) => EnvResult(Ok(v), c.table)
  }

  /**
   * `execute`: each statement stepped in order against the same table; the
   * first failure ends the run and the table keeps what the earlier
   * statements did.
   */
  function ExecuteAll(fuel: nat, stmts: seq<Statement>, t: Table): (r: EnvResult<()>)
    ensures Evolves(t, r.table)
    decreases |stmts|
  {
    if stmts == [] then EnvResult(Ok(()), t)
    else
      var s := TopLevel(fuel, stmts[0], t);
      if s.result.Err? then EnvResult(Err(s.result.error), s.table)
      else ExecuteAll(fuel, stmts[1..], s.table)
  }

  /** `evalLine`: the statement at a 1-based line number stepped again, or the out-of-range message. */
  function EvalLineOf(fuel: nat, stmts: seq<Statement>, n: int, t: Table): (r: EnvResult<Value>)
    ensures Evolves(t, r.table)
  {
    if n < 1 || n > |stmts| then EnvResult(Ok(OutOfRange), t)
    else TopLevel(fuel, stmts[n - 1], t)
  }

  /** `assignVariable` of the facade: the environment's assignment, answered with "ok". */
  function AssignRequest(fuel: nat, name: string, e: Expression, t: Table): (r: EnvResult<Value>)
    ensures Evolves(t, r.table)
  {
    var a := AssignVariable(fuel, name, e, t);
    if a.result.Err? then EnvResult(Err(a.result.error), a.table)
    else EnvResult(Ok(StringValue("ok")), a.table)
  }

  /** `invokeFunction` is a stub: it answers 4, whatever it is asked. */
  const InvokeAnswer: Value := IntValue(4)

  /** `executeRequest`. */
  function Serve(fuel: nat, stmts: seq<Statement>, req: Request, t: Table): (r: EnvResult<Value>)
    ensures Evolves(t, r.table)
  {
    match req
    case EvalLine(n) => EvalLineOf(fuel, stmts, n, t)
    case AssignVar(name, e) => AssignRequest(fuel, name, e, t)
    case InvokeFunction(_, _) => EnvResult(Ok(InvokeAnswer), t)
  }

  class Program {
    const stmts: seq<Statement>
    const env: Runtime.Environment

    constructor (stmts: seq<Statement>)
      ensures this.stmts == stmts && fresh(env) && env.table == map[]
    {
      this.stmts := stmts;
      env := new Runtime.Environment();
    }

    method Execute(fuel: nat) returns (r: Result<(), Error>)
      modifies env
      ensures EnvResult(r, env.table) == ExecuteAll(fuel, stmts, old(env.table))
    {
      var i := 0;
      while i < |stmts|
        invariant 0 <= i <= |stmts|
        invariant ExecuteAll(fuel, stmts, old(env.table)) == ExecuteAll(fuel, stmts[i..], env.table)
        decreases |stmts| - i
      {
        assert stmts[i..][0] == stmts[i] && stmts[i..][1..] == stmts[i + 1..];
        ghost var t := env.table;
        var c := TopLevelStep(fuel, stmts[i]);
        assert ExecuteAll(fuel, stmts[i..], t)
          == if c.Err? then EnvResult(Err(c.error), env.table) else ExecuteAll(fuel, stmts[i + 1..], env.table);
        if c.Err? {
          return Err(c.error);
        }
        i := i + 1;
      }
      assert stmts[i..] == [];
      return Ok(());
    }

    method EvalLine(fuel: nat, n: int) returns (r: Result<Value, Error>)
      modifies env
      ensures EnvResult(r, env.table) == EvalLineOf(fuel, stmts, n, old(env.table))
    {
      if n < 1 || n > |stmts| {
        return Ok(OutOfRange);
      }
      r := TopLevelStep(fuel, stmts[n - 1]);
    }

    /** `Statement.step` at the top level, where a `return` has nothing to return from. */
    method TopLevelStep(fuel: nat, s: Statement) returns (r: Result<Value, Error>)
      modifies env
      ensures EnvResult(r, env.table) == TopLevel(fuel, s, old(env.table))
    {
      var c := Runtime.Step(fuel, s, env);
      if c.Err? {
        return Err(c.error);
      }
      if c.value.Return? {
        return Err(UncaughtReturn);
      }
      return Ok(c.value.value);
    }

    method AssignVariable(fuel: nat, name: string, e: Expression) returns (r: Result<Value, Error>)
      modifies env
      ensures EnvResult(r, env.table) == AssignRequest(fuel, name, e, old(env.table))
    {
      var a := env.AssignVariable(fuel, name, e);
      if a.Err? {
        return Err(a.error);
      }
      return Ok(StringValue("ok"));
    }

    method InvokeFunction(name: string, args: seq<string>) returns (v: Value)
      ensures v == IntValue(4)
    {
      v := InvokeAnswer;
    }

    method ExecuteRequest(fuel: nat, req: Request) returns (r: Result<Value, Error>)
      modifies env
      ensures EnvResult(r, env.table) == Serve(fuel, stmts, req, old(env.table))
    {
      match req
      case EvalLine(n) =>
        r := EvalLine(fuel, n);
      case AssignVar(name, e) =>
        r := AssignVariable(fuel, name, e);
      case InvokeFunction(name, args) =>
        var v := InvokeFunction(name, args);
        r := Ok(v);
    }
  }
}
