/**
 * The interpreter as it runs: class `Environment` of
 * interpreter/Environment.kt, whose symbol table is updated in place, and
 * `Evaluate`/`Step` of interpreter/Expression.kt and
 * interpreter/Statement.kt, which update the environment they are given.
 * A function call builds a fresh `Environment`, binds the arguments in one
 * loop and runs the body in another.
 *
 * Each method is proved to leave the table, and to give the result, that
 * the matching function of `Semantics` computes from the old table.
 */
module Runtime {
  import opened Common
  import opened Values
  import opened Ast
  import opened Semantics

  class Environment {
    var table: Table

    constructor ()
      ensures table == map[]
    {
      table := map[];
    }

    method DeclareVariable(fuel: nat, name: string, init: Option<Expression>, modifier: Modifier) returns (r: Result<(), Error>)
      modifies this
      ensures EnvResult(r, table) == Semantics.DeclareVariable(fuel, name, init, modifier, old(table))
      decreases fuel, InitSize(init)
    {
      if name in table {
        return Err(AlreadyDeclared(name));
      }
      var value := DefaultValue;
      if init.Some? {
        var v := Evaluate(fuel, init.value, this);
        if v.Err? {
          return Err(v.error);
        }
        value := v.value;
      }
      table := table[name := Variable(name, Some(value), modifier, init)];
      return Ok(());
    }

    method DeclareFunction(name: string, params: seq<string>, body: seq<Statement>) returns (r: Result<(), Error>)
      modifies this
      ensures EnvResult(r, table) == Semantics.DeclareFunction(name, params, body, old(table))
    {
      if name in table {
        return Err(AlreadyDeclared(name));
      }
      table := table[name := Function(name, params, body)];
      return Ok(());
    }

    method AssignVariable(fuel: nat, name: string, e: Expression) returns (r: Result<(), Error>)
      modifies this
      ensures EnvResult(r, table) == Semantics.AssignVariable(fuel, name, e, old(table))
      decreases fuel, ExprSize(e) + 1
    {
      if name !in table {
        return Err(NotDefined(name));
      }
      var symbol := table[name];
      if symbol.Function? {
        return Err(NotAVariable(name));
      }
      if symbol.modifier == Const {
        return Err(ConstReassignment(name));
      }
      var v := Evaluate(fuel, e, this);
      if v.Err? {
        return Err(v.error);
      }
      table := table[name := Variable(name, Some(v.value), symbol.modifier, Some(e))];
      return Ok(());
    }

    method GetVariable(fuel: nat, name: string) returns (r: Result<Value, Error>)
      modifies this
      ensures EnvResult(r, table) == Semantics.GetVariable(fuel, name, old(table))
      decreases fuel, 0
    {
      if name !in table {
        return Err(NotDefined(name));
      }
      var symbol := table[name];
      if symbol.Function? {
        return Err(NotAVariable(name));
      }
      if symbol.expression.Some? {
        if fuel == 0 {
          return Err(StackExhausted);
        }
        r := Evaluate(fuel - 1, symbol.expression.value, this);
      } else {
        r := Ok(symbol.value.GetOr(DefaultValue));
      }
    }

    method GetFunction(name: string) returns (r: Result<Symbol, Error>)
      ensures r == Semantics.GetFunction(name, table)
    {
      if name !in table {
        return Err(NotDefined(name));
      }
      var symbol := table[name];
      if !symbol.Function? {
        return Err(NotAFunction(name));
      }
      return Ok(symbol);
    }

    method GetSymbols() returns (symbols: set<Symbol>)
      ensures symbols == Semantics.GetSymbols(table)
    {
      symbols := table.Values;
    }
  }

  /** `Expression.eval`. */
  method Evaluate(fuel: nat, e: Expression, env: Environment) returns (r: Result<Value, Error>)
    modifies env
    ensures EnvResult(r, env.table) == Eval(fuel, e, old(env.table))
    decreases fuel, ExprSize(e)
  {
    match e
    case Literal(v) =>
      r := Ok(v);
    case VariableReference(name) =>
      r := env.GetVariable(fuel, name);
    case Assignment(name, value) =>
      ghost var t0 := env.table;
      var exprVal := Evaluate(fuel, value, env);
      if exprVal.Err? {
        return exprVal;
      }
      ghost var t1 := env.table;
      var stored := env.AssignVariable(fuel, name, value);
      assert Eval(fuel, e, t0) == if stored.Err? then EnvResult(Err(stored.error), env.table)
        else EnvResult(exprVal, env.table);
      if stored.Err? {
        return Err(stored.error);
      }
      r := exprVal;
    case FunctionCall(name, args) =>
      r := CallFunction(fuel, name, args, env);
    case BNeg(x) =>
      ghost var t0 := env.table;
      var a := Evaluate(fuel, x, env);
      assert Eval(fuel, e, t0) == if a.Err? then EnvResult(a, env.table) else EnvResult(NegValue(a.value), env.table);
      if a.Err? {
        return a;
      }
      r := NegValue(a.value);
    case Add(lhs, rhs) => r := EvaluateBinary(fuel, Operator.Add, lhs, rhs, env);
    case Sub(lhs, rhs) => r := EvaluateBinary(fuel, Subtract, lhs, rhs, env);
    case Mul(lhs, rhs) => r := EvaluateBinary(fuel, Multiply, lhs, rhs, env);
    case Div(lhs, rhs) => r := EvaluateBinary(fuel, Divide, lhs, rhs, env);
    case BAnd(lhs, rhs) => r := EvaluateBinary(fuel, And, lhs, rhs, env);
    case BOr(lhs, rhs) => r := EvaluateBinary(fuel, Or, lhs, rhs, env);
    case GreaterThan(lhs, rhs) => r := EvaluateBinary(fuel, Operator.GreaterThan, lhs, rhs, env);
    case LessThan(lhs, rhs) => r := EvaluateBinary(fuel, Operator.LessThan, lhs, rhs, env);
    case GreaterThanOrEquals(lhs, rhs) => r := EvaluateBinary(fuel, GreaterThanOrEq, lhs, rhs, env);
    case LessThanOrEquals(lhs, rhs) => r := EvaluateBinary(fuel, LessThanOrEq, lhs, rhs, env);
    case Equals(lhs, rhs) => r := EvaluateBinary(fuel, Operator.Equals, lhs, rhs, env);
  }

  method EvaluateBinary(fuel: nat, op: Operator, lhs: Expression, rhs: Expression, env: Environment) returns (r: Result<Value, Error>)
    requires op != Neg
    modifies env
    ensures EnvResult(r, env.table) == EvalBinary(fuel, op, lhs, rhs, old(env.table))
    decreases fuel, ExprSize(lhs) + ExprSize(rhs) + 1
  {
    ghost var t0 := env.table;
    var a := Evaluate(fuel, lhs, env);
    assert EvalBinary(fuel, op, lhs, rhs, t0)
      == if a.Err? then EnvResult(a, env.table) else ApplyRight(fuel, op, a.value, rhs, env.table);
    if a.Err? {
      return a;
    }
    r := EvaluateRight(fuel, op, a.value, rhs, env);
  }

  /** The right operand of a binary node, once the left one has given `left`. */
  method EvaluateRight(fuel: nat, op: Operator, left: Value, rhs: Expression, env: Environment) returns (r: Result<Value, Error>)
    requires op != Neg
    modifies env
    ensures EnvResult(r, env.table) == ApplyRight(fuel, op, left, rhs, old(env.table))
    decreases fuel, ExprSize(rhs) + 1
  {
    ghost var t0 := env.table;
    var b := Evaluate(fuel, rhs, env);
    assert ApplyRight(fuel, op, left, rhs, t0)
      == if b.Err? then EnvResult(b, env.table) else EnvResult(Apply(op, left, b.value), env.table);
    if b.Err? {
      return b;
    }
    r := Apply(op, left, b.value);
  }

  /**
   * The `FunctionCall` branch of `Expression.eval`: look the function up,
   * check the argument count, bind the arguments in a fresh environment and
   * run the body there. The caller's table keeps what evaluating the
   * arguments did to it; the fresh environment is dropped.
   */
  method CallFunction(fuel: nat, name: string, args: seq<Expression>, env: Environment) returns (r: Result<Value, Error>)
    modifies env
    ensures EnvResult(r, env.table) == Semantics.CallFunction(fuel, name, args, old(env.table))
    decreases fuel, ExprsSize(args) + 2
  {
    var func := env.GetFunction(name);
    if func.Err? {
      return Err(func.error);
    }
    var f := func.value;
    if |args| != |f.params| {
      return Err(ArityMismatch(name, |args|, |f.params|));
    }
    ghost var t0 := env.table;
    var innerEnv := new Environment();
    var bound := BindArguments(fuel, f.params, args, env, innerEnv);
    if bound.Err? {
      return Err(bound.error);
    }
    if fuel == 0 {
      return Err(StackExhausted);
    }
    ghost var t1, start := env.table, innerEnv.table;
    assert Semantics.CallFunction(fuel, name, args, t0)
      == EnvResult(RunBody(fuel - 1, f.body, start).result, t1);
    r := RunFunctionBody(fuel - 1, f.body, innerEnv);
  }

  /**
   * The argument loop of a call: each argument is evaluated in the caller's
   * environment `env` and declared, as a mutable variable, in `inner`.
   */
  method BindArguments(fuel: nat, params: seq<string>, args: seq<Expression>, env: Environment, inner: Environment)
    returns (r: Result<(), Error>)
    requires |params| == |args| && env != inner
    modifies env, inner
    ensures BindArgs(fuel, params, args, old(env.table), old(inner.table))
      == EnvResult(if r.Ok? then Ok(inner.table) else Err(r.error), env.table)
    decreases fuel, ExprsSize(args) + 1
  {
    var i := 0;
    while i < |args|
      invariant 0 <= i <= |args|
      invariant BindArgs(fuel, params, args, old(env.table), old(inner.table))
        == BindArgs(fuel, params[i..], args[i..], env.table, inner.table)
      decreases |args| - i
    {
      ArgSmaller(args, i);
      assert args[i..][0] == args[i] && args[i..][1..] == args[i + 1..];
      assert params[i..][0] == params[i] && params[i..][1..] == params[i + 1..];
      ghost var outer0, inner0 := env.table, inner.table;
      var argval := Evaluate(fuel, args[i], env);
      if argval.Err? {
        return Err(argval.error);
      }
      var declared := inner.DeclareVariable(fuel, params[i], Some(Literal(argval.value)), Mutable);
      assert BindArgs(fuel, params[i..], args[i..], outer0, inner0)
        == if declared.Err? then EnvResult(Err(declared.error), env.table)
           else BindArgs(fuel, params[i + 1..], args[i + 1..], env.table, inner.table);
      if declared.Err? {
        return Err(declared.error);
      }
      i := i + 1;
    }
    assert params[i..] == [] && args[i..] == [];
    return Ok(());
  }

  /** A function body, run statement by statement until one returns. */
  method RunFunctionBody(fuel: nat, body: seq<Statement>, env: Environment) returns (r: Result<Value, Error>)
    modifies env
    ensures EnvResult(r, env.table) == RunBody(fuel, body, old(env.table))
    decreases fuel + 1, 0
  {
    var j := 0;
    while j < |body|
      invariant 0 <= j <= |body|
      invariant RunBody(fuel, body, old(env.table)) == RunBody(fuel, body[j..], env.table)
      decreases |body| - j
    {
      assert body[j..][0] == body[j] && body[j..][1..] == body[j + 1..];
      ghost var t := env.table;
      var completion := Step(fuel, body[j], env);
      assert RunBody(fuel, body[j..], t)
        == if completion.Err? then EnvResult(Err(completion.error), env.table)
           else if completion.value.Return? then EnvResult(Ok(completion.value.carried.GetOr(VoidResult)), env.table)
           else RunBody(fuel, body[j + 1..], env.table);
      if completion.Err? {
        return Err(completion.error);
      }
      if completion.value.Return? {
        return Ok(completion.value.carried.GetOr(VoidResult));
      }
      j := j + 1;
    }
    assert body[j..] == [];
    return Ok(VoidResult);
  }

  /** `Statement.step`. */
  method Step(fuel: nat, s: Statement, env: Environment) returns (r: Result<Completion, Error>)
    modifies env
    ensures EnvResult(r, env.table) == Semantics.Step(fuel, s, old(env.table))
    decreases fuel, StmtSize(s)
  {
    match s
    case Declaration(name, _, modifier, init) =>
      var d := env.DeclareVariable(fuel, name, init, modifier);
      if d.Err? {
        return Err(d.error);
      }
      r := Ok(Normal(StringValue("Declared variable " + name)));
    case ExpressionStmt(e) =>
      var v := Evaluate(fuel, e, env);
      if v.Err? {
        return Err(v.error);
      }
      r := Ok(Normal(v.value));
    case FunctionDeclaration(name, params, body) =>
      var d := env.DeclareFunction(name, params, body);
      if d.Err? {
        return Err(d.error);
      }
      r := Ok(Normal(StringValue("Declared function " + name)));
    case ReturnStmt(value) =>
      if value.None? {
        return Ok(Return(None));
      }
      var v := Evaluate(fuel, value.value, env);
      if v.Err? {
        return Err(v.error);
      }
      r := Ok(Return(Some(v.value)));
  }
}
