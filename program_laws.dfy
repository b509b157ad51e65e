/**
 * Laws of the `Program` facade: how runs compose, what a finished run
 * leaves declared, and the scenarios of the interpreter's own tests.
 */
module ProgramLaws {
  import opened Common
  import opened Values
  import opened Ast
  import opened Semantics
  import opened Programs
  import CallLaws
  import EvalLaws

  /**
   * Running `p + q` is running `p`, then, if it did not fail, running `q`
   * against the table `p` left: a failure stops the run and keeps the
   * effects of the statements before it.
   */
  lemma {:induction false} ExecuteAppend(fuel: nat, p: seq<Statement>, q: seq<Statement>, t: Table)
    ensures var a := ExecuteAll(fuel, p, t);
      ExecuteAll(fuel, p + q, t) == if a.result.Err? then a else ExecuteAll(fuel, q, a.table)
    decreases |p|
  {
    if p == [] {
      assert p + q == q;
    } else {
      assert (p + q)[0] == p[0] && (p + q)[1..] == p[1..] + q;
      var s := TopLevel(fuel, p[0], t);
      if s.result.Ok? {
        ExecuteAppend(fuel, p[1..], q, s.table);
      }
    }
  }

  /** The names a statement declares, at the top level. */
  function DeclaredName(s: Statement): (r: Option<string>)
    ensures r.Some? <==> s.Declaration? || s.FunctionDeclaration?
  {
    match s
    case Declaration(name, _, _, _) => Some(name)
    case FunctionDeclaration(name, _, _) => Some(name)
    case _ => None
  }

  /** After a run that succeeds, every name the program declares is in the table. */
  lemma {:induction false} ExecuteDeclares(fuel: nat, stmts: seq<Statement>, t: Table)
    ensures var r := ExecuteAll(fuel, stmts, t);
      r.result.Ok? ==> forall i :: 0 <= i < |stmts| && DeclaredName(stmts[i]).Some? ==> DeclaredName(stmts[i]).value in r.table
    decreases |stmts|
  {
    var r := ExecuteAll(fuel, stmts, t);
    if stmts != [] && r.result.Ok? {
      var s := TopLevel(fuel, stmts[0], t);
      ExecuteDeclares(fuel, stmts[1..], s.table);
      forall i | 0 <= i < |stmts| && DeclaredName(stmts[i]).Some?
        ensures DeclaredName(stmts[i]).value in r.table
      {
        if i == 0 {
          assert DeclaredName(stmts[0]).value in s.table;
        } else {
          assert stmts[i] == stmts[1..][i - 1];
        }
      }
    }
  }

  /**
   * Once a program has run, evaluating one of its declaration lines again
   * fails, since the name is already declared, and changes nothing.
   */
  lemma {:induction false} EvalLineRedeclares(fuel: nat, stmts: seq<Statement>, t: Table, n: int)
    requires ExecuteAll(fuel, stmts, t).result.Ok?
    requires 1 <= n <= |stmts| && DeclaredName(stmts[n - 1]).Some?
    ensures var u := ExecuteAll(fuel, stmts, t).table;
      EvalLineOf(fuel, stmts, n, u) == EnvResult(Err(AlreadyDeclared(DeclaredName(stmts[n - 1]).value)), u)
  {
    ExecuteDeclares(fuel, stmts, t);
    var u := ExecuteAll(fuel, stmts, t).table;
    var name := DeclaredName(stmts[n - 1]).value;
    assert name in u;
    assert Step(fuel, stmts[n - 1], u) == EnvResult(Err(AlreadyDeclared(name)), u);
  }

  /** A line number outside the program is answered with a message, and nothing changes. */
  lemma {:induction false} OutOfRangeLine(fuel: nat, stmts: seq<Statement>, t: Table, n: int)
    requires n < 1 || n > |stmts|
    ensures Serve(fuel, stmts, EvalLine(n), t) == EnvResult(Ok(OutOfRange), t)
  {
  }

  /* ---------- The scenario `let a = 1; const b = 2; let c = 3; let d = a + b; c + d;` ---------- */

  function Lit(n: I32): Expression {
    Literal(IntValue(n))
  }

  function Ref(name: string): Expression {
    VariableReference(name)
  }

  /** A variable declared with the literal `n` as initializer. */
  function Bound(x: string, m: Modifier, n: I32): Symbol {
    Variable(x, Some(IntValue(n)), m, Some(Lit(n)))
  }

  const DeclareA: Statement := Declaration("a", None, Mutable, Some(Lit(1)))
  const DeclareB: Statement := Declaration("b", None, Const, Some(Lit(2)))
  const DeclareC: Statement := Declaration("c", None, Mutable, Some(Lit(3)))
  const DeclareD: Statement := Declaration("d", None, Mutable, Some(Expression.Add(Ref("a"), Ref("b"))))

  /** The declarations of the scenario. */
  const Declarations: seq<Statement> := [DeclareA, DeclareB, DeclareC, DeclareD]

  const Scenario: seq<Statement> := Declarations + [ExpressionStmt(Expression.Add(Ref("c"), Ref("d")))]

  /** The tables the declarations leave one after the other. */
  const T1: Table := map["a" := Bound("a", Mutable, 1)]
  const T2: Table := T1["b" := Bound("b", Const, 2)]
  const T3: Table := T2["c" := Bound("c", Mutable, 3)]
  const Declared: Table := T3["d" := Variable("d", Some(IntValue(3)), Mutable, Some(Expression.Add(Ref("a"), Ref("b"))))]

  /** A variable bound to a literal reads that literal's value. */
  lemma {:induction false} ReadLiteral(fuel: nat, t: Table, x: string, n: I32)
    requires fuel >= 1 && x in t && t[x].Variable? && t[x].expression == Some(Lit(n))
    ensures Eval(fuel, Ref(x), t) == EnvResult(Ok(IntValue(n)), t)
  {
    assert Eval(fuel - 1, Lit(n), t) == EnvResult(Ok(IntValue(n)), t);
  }

  /** `x + y` over two variables that read `m` and `n`. */
  lemma {:induction false} AddReads(fuel: nat, t: Table, x: string, y: string, m: I32, n: I32)
    requires Eval(fuel, Ref(x), t) == EnvResult(Ok(IntValue(m)), t)
    requires Eval(fuel, Ref(y), t) == EnvResult(Ok(IntValue(n)), t)
    ensures Eval(fuel, Expression.Add(Ref(x), Ref(y)), t) == EnvResult(Ok(IntValue(Wrap32(m + n))), t)
  {
    var sum := EnvResult(Ok(IntValue(Wrap32(m + n))), t);
    assert ApplyRight(fuel, Operator.Add, IntValue(m), Ref(y), t) == sum;
    assert EvalBinary(fuel, Operator.Add, Ref(x), Ref(y), t) == sum;
  }

  /** A run is its first statement, then the rest. */
  lemma {:induction false} ExecuteCons(fuel: nat, s: Statement, rest: seq<Statement>, t: Table)
    ensures var r := TopLevel(fuel, s, t);
      ExecuteAll(fuel, [s] + rest, t) == if r.result.Err? then EnvResult(Err(r.result.error), r.table) else ExecuteAll(fuel, rest, r.table)
  {
    assert ([s] + rest)[0] == s && ([s] + rest)[1..] == rest;
  }

  /** `let`/`const x = n` of a new name. */
  lemma {:induction false} DeclareLiteral(fuel: nat, t: Table, x: string, m: Modifier, n: I32)
    requires x !in t
    ensures TopLevel(fuel, Declaration(x, None, m, Some(Lit(n))), t)
      == EnvResult(Ok(StringValue("Declared variable " + x)), t[x := Bound(x, m, n)])
  {
    assert Eval(fuel, Lit(n), t) == EnvResult(Ok(IntValue(n)), t);
    assert DeclareVariable(fuel, x, Some(Lit(n)), m, t) == EnvResult(Ok(()), t[x := Bound(x, m, n)]);
    assert Step(fuel, Declaration(x, None, m, Some(Lit(n))), t)
      == EnvResult(Ok(Normal(StringValue("Declared variable " + x))), t[x := Bound(x, m, n)]);
  }

  lemma {:induction false} DeclareSum(fuel: nat)
    requires fuel >= 1
    ensures ExecuteAll(fuel, [DeclareD], T3) == EnvResult(Ok(()), Declared)
  {
    ReadLiteral(fuel, T3, "a", 1);
    ReadLiteral(fuel, T3, "b", 2);
    AddReads(fuel, T3, "a", "b", 1, 2);
    assert Wrap32(3) == 3;
    assert DeclareVariable(fuel, "d", DeclareD.initializer, Mutable, T3) == EnvResult(Ok(()), Declared);
    ExecuteCons(fuel, DeclareD, [], T3);
  }

  lemma {:induction false} DeclareRest(fuel: nat)
    requires fuel >= 1
    ensures ExecuteAll(fuel, [DeclareB, DeclareC, DeclareD], T1) == EnvResult(Ok(()), Declared)
  {
    DeclareSum(fuel);
    DeclareLiteral(fuel, T2, "c", Mutable, 3);
    ExecuteCons(fuel, DeclareC, [DeclareD], T2);
    DeclareLiteral(fuel, T1, "b", Const, 2);
    ExecuteCons(fuel, DeclareB, [DeclareC, DeclareD], T1);
  }

  /** The four declarations, run from an empty table, leave `Declared`. */
  lemma {:induction false} RunDeclarations(fuel: nat)
    requires fuel >= 1
    ensures ExecuteAll(fuel, Declarations, map[]) == EnvResult(Ok(()), Declared)
  {
    DeclareRest(fuel);
    DeclareLiteral(fuel, map[], "a", Mutable, 1);
    ExecuteCons(fuel, DeclareA, [DeclareB, DeclareC, DeclareD], map[]);
    assert Declarations == [DeclareA] + [DeclareB, DeclareC, DeclareD];
  }

  /** What the variables of `Declared` read. */
  lemma {:induction false} DeclaredReads(fuel: nat)
    requires fuel >= 2
    ensures Eval(fuel, Ref("a"), Declared) == EnvResult(Ok(IntValue(1)), Declared)
    ensures Eval(fuel, Ref("b"), Declared) == EnvResult(Ok(IntValue(2)), Declared)
    ensures Eval(fuel, Ref("c"), Declared) == EnvResult(Ok(IntValue(3)), Declared)
    ensures Eval(fuel, Ref("d"), Declared) == EnvResult(Ok(IntValue(3)), Declared)
  {
    ReadLiteral(fuel, Declared, "a", 1);
    ReadLiteral(fuel, Declared, "b", 2);
    ReadLiteral(fuel, Declared, "c", 3);
    EvalLaws.ReadSum(fuel, Declared, "a", "b", "d", 1, 2);
    Wrap32Congruent(3);
  }

  /** `c + d` after the declarations gives 6 and changes nothing. */
  lemma {:induction false} SumOfCAndD(fuel: nat)
    requires fuel >= 2
    ensures Eval(fuel, Expression.Add(Ref("c"), Ref("d")), Declared) == EnvResult(Ok(IntValue(6)), Declared)
  {
    DeclaredReads(fuel);
    AddReads(fuel, Declared, "c", "d", 3, 3);
    assert Wrap32(6) == 6;
  }

  /**
   * The scenario runs to the end and leaves a = 1, b = 2, c = 3, d = 3.
   */
  lemma {:induction false} ScenarioRun(fuel: nat)
    requires fuel >= 2
    ensures ExecuteAll(fuel, Scenario, map[]) == EnvResult(Ok(()), Declared)
    ensures GetVariable(fuel, "a", Declared).result == Ok(IntValue(1))
    ensures GetVariable(fuel, "b", Declared).result == Ok(IntValue(2))
    ensures GetVariable(fuel, "c", Declared).result == Ok(IntValue(3))
    ensures GetVariable(fuel, "d", Declared).result == Ok(IntValue(3))
  {
    var last := ExpressionStmt(Expression.Add(Ref("c"), Ref("d")));
    RunDeclarations(fuel);
    ExecuteAppend(fuel, Declarations, [last], map[]);
    SumOfCAndD(fuel);
    ExecuteCons(fuel, last, [], Declared);
    DeclaredReads(fuel);
  }

  /** After the scenario, assigning `a = 2` by request answers "ok", and `d` then reads 4. */
  lemma {:induction false} ScenarioReactive(fuel: nat)
    requires fuel >= 2
    ensures var u := Serve(fuel, Scenario, AssignVar("a", Lit(2)), Declared);
      u.result == Ok(StringValue("ok")) && GetVariable(fuel, "d", u.table).result == Ok(IntValue(4))
  {
    var u := Declared["a" := Bound("a", Mutable, 2)];
    assert Eval(fuel, Lit(2), Declared) == EnvResult(Ok(IntValue(2)), Declared);
    assert AssignVariable(fuel, "a", Lit(2), Declared) == EnvResult(Ok(()), u);
    EvalLaws.ReadSum(fuel, u, "a", "b", "d", 2, 2);
    Wrap32Congruent(4);
  }

  /** `b = 10` as a request, after the scenario, fails since `b` is a constant, and changes nothing. */
  lemma {:induction false} ConstRequestFails(fuel: nat)
    ensures Serve(fuel, Scenario, AssignVar("b", Lit(10)), Declared) == EnvResult(Err(ConstReassignment("b")), Declared)
  {
  }

  /**
   * `b = c + d` as the scenario's last statement makes the run fail: the
   * right side is evaluated first, then the store is refused.
   */
  lemma {:induction false} ConstReassignmentInProgram(fuel: nat)
    requires fuel >= 2
    ensures ExecuteAll(fuel, Declarations + [ExpressionStmt(Assignment("b", Expression.Add(Ref("c"), Ref("d"))))], map[]).result
      == Err(ConstReassignment("b"))
  {
    var sum := Expression.Add(Ref("c"), Ref("d"));
    var last := ExpressionStmt(Assignment("b", sum));
    RunDeclarations(fuel);
    ExecuteAppend(fuel, Declarations, [last], map[]);
    SumOfCAndD(fuel);
    assert AssignVariable(fuel, "b", sum, Declared) == EnvResult(Err(ConstReassignment("b")), Declared);
    assert Eval(fuel, Assignment("b", sum), Declared).result == Err(ConstReassignment("b"));
    ExecuteCons(fuel, last, [], Declared);
  }

  /** `let a = 1; const b = 2; const a = -1000;` fails on the second `a`. */
  lemma {:induction false} DuplicateNameFails(fuel: nat)
    ensures ExecuteAll(fuel, [DeclareA, DeclareB, Declaration("a", None, Const, Some(Lit(-1000)))], map[]).result
      == Err(AlreadyDeclared("a"))
  {
    var again := Declaration("a", None, Const, Some(Lit(-1000)));
    DeclareLiteral(fuel, map[], "a", Mutable, 1);
    DeclareLiteral(fuel, T1, "b", Const, 2);
    assert "a" in T2;
    assert DeclareVariable(fuel, "a", again.initializer, Const, T2) == EnvResult(Err(AlreadyDeclared("a")), T2);
    assert Step(fuel, again, T2) == EnvResult(Err(AlreadyDeclared("a")), T2);
    ExecuteCons(fuel, again, [], T2);
    ExecuteCons(fuel, DeclareB, [again], T1);
    ExecuteCons(fuel, DeclareA, [DeclareB, again], map[]);
  }

  /** `function add(a, b) { return a + b; } let result = add(5, 7);` */
  const AddProgram: seq<Statement> := [
    FunctionDeclaration("add", ["a", "b"], CallLaws.AddFunction.body),
    Declaration("result", None, Mutable, Some(FunctionCall("add", [Lit(5), Lit(7)])))
  ]

  /** The table `AddProgram` leaves: `add`, and `result` bound to the call. */
  const AddDeclared: Table := map[
    "add" := CallLaws.AddFunction,
    "result" := Variable("result", Some(IntValue(12)), Mutable, Some(FunctionCall("add", [Lit(5), Lit(7)])))
  ]

  lemma {:induction false} RunAddProgram(fuel: nat)
    requires fuel >= 2
    ensures ExecuteAll(fuel, AddProgram, map[]) == EnvResult(Ok(()), AddDeclared)
  {
    var call := FunctionCall("add", [Lit(5), Lit(7)]);
    var t := map["add" := CallLaws.AddFunction];
    assert AddDeclared == t["result" := Variable("result", Some(IntValue(12)), Mutable, Some(call))];
    assert Step(fuel, AddProgram[0], map[]).table == t;
    CallLaws.AddFiveSeven(fuel, t);
    assert DeclareVariable(fuel, "result", Some(call), Mutable, t) == EnvResult(Ok(()), AddDeclared);
    ExecuteCons(fuel, AddProgram[1], [], t);
    ExecuteCons(fuel, AddProgram[0], [AddProgram[1]], map[]);
    assert AddProgram == [AddProgram[0]] + [AddProgram[1]];
  }

  /** After the program runs, `result` reads 12, and so it does at every later read. */
  lemma {:induction false} AddProgramResult(fuel: nat)
    requires fuel >= 3
    ensures var r := ExecuteAll(fuel, AddProgram, map[]);
      r.result.Ok? && GetVariable(fuel, "result", r.table).result == Ok(IntValue(12))
  {
    RunAddProgram(fuel);
    CallLaws.AddFiveSeven(fuel - 1, AddDeclared);
  }
}
