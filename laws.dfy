/**
 * Laws of the evaluator in `Semantics`: what the environment rules promise
 * (declarations, assignment, const protection), the reactive re-evaluation
 * of variables, the non-terminating self-read, and the call protocol.
 */
module EvalLaws {
  import opened Common
  import opened Values
  import opened Ast
  import opened Semantics

  /* ---------- Expressions without assignments leave the table alone ---------- */

  /** No `Assignment` node anywhere in `e`, arguments of calls included. */
  predicate NoAssign(e: Expression) {
    match e
    case VariableReference(_) => true
    case Literal(_) => true
    case Assignment(_, _) => false
    case FunctionCall(_, args) => forall i :: 0 <= i < |args| ==> NoAssign(args[i])
    case BNeg(x) => NoAssign(x)
    case Add(l, r) => NoAssign(l) && NoAssign(r)
    case Sub(l, r) => NoAssign(l) && NoAssign(r)
    case Mul(l, r) => NoAssign(l) && NoAssign(r)
    case Div(l, r) => NoAssign(l) && NoAssign(r)
    case BAnd(l, r) => NoAssign(l) && NoAssign(r)
    case BOr(l, r) => NoAssign(l) && NoAssign(r)
    case GreaterThan(l, r) => NoAssign(l) && NoAssign(r)
    case LessThan(l, r) => NoAssign(l) && NoAssign(r)
    case GreaterThanOrEquals(l, r) => NoAssign(l) && NoAssign(r)
    case LessThanOrEquals(l, r) => NoAssign(l) && NoAssign(r)
    case Equals(l, r) => NoAssign(l) && NoAssign(r)
  }

  /** Every expression a variable of `t` is bound to is free of assignments. */
  ghost predicate PureTable(t: Table) {
    forall k :: k in t && t[k].Variable? && t[k].expression.Some? ==> NoAssign(t[k].expression.value)
  }

  /**
   * Evaluating an expression without assignments, against a table whose
   * bound expressions have none either, changes nothing in the table: reads
   * only compute, and a call changes only the callee's own fresh table.
   */
  lemma {:induction false} EvalKeepsPureTable(fuel: nat, e: Expression, t: Table)
    requires NoAssign(e) && PureTable(t)
    ensures Eval(fuel, e, t).table == t
    decreases fuel, ExprSize(e)
  {
    match e
    case VariableReference(name) => GetVariableKeepsPureTable(fuel, name, t);
    case Literal(_) =>
    case FunctionCall(name, args) => CallKeepsPureTable(fuel, name, args, t);
    case BNeg(x) => EvalKeepsPureTable(fuel, x, t);
    case Add(l, r) => BinaryKeepsPureTable(fuel, Operator.Add, l, r, t);
    case Sub(l, r) => BinaryKeepsPureTable(fuel, Subtract, l, r, t);
    case Mul(l, r) => BinaryKeepsPureTable(fuel, Multiply, l, r, t);
    case Div(l, r) => BinaryKeepsPureTable(fuel, Divide, l, r, t);
    case BAnd(l, r) => BinaryKeepsPureTable(fuel, And, l, r, t);
    case BOr(l, r) => BinaryKeepsPureTable(fuel, Or, l, r, t);
    case GreaterThan(l, r) => BinaryKeepsPureTable(fuel, Operator.GreaterThan, l, r, t);
    case LessThan(l, r) => BinaryKeepsPureTable(fuel, Operator.LessThan, l, r, t);
    case GreaterThanOrEquals(l, r) => BinaryKeepsPureTable(fuel, GreaterThanOrEq, l, r, t);
    case LessThanOrEquals(l, r) => BinaryKeepsPureTable(fuel, LessThanOrEq, l, r, t);
    case Equals(l, r) => BinaryKeepsPureTable(fuel, Operator.Equals, l, r, t);
  }

  lemma {:induction false} BinaryKeepsPureTable(fuel: nat, op: Operator, l: Expression, r: Expression, t: Table)
    requires op != Neg && NoAssign(l) && NoAssign(r) && PureTable(t)
    ensures EvalBinary(fuel, op, l, r, t).table == t
    decreases fuel, ExprSize(l) + ExprSize(r) + 1
  {
    EvalKeepsPureTable(fuel, l, t);
    var a := Eval(fuel, l, t);
    if a.result.Ok? {
      EvalKeepsPureTable(fuel, r, t);
    }
  }

  lemma {:induction false} GetVariableKeepsPureTable(fuel: nat, name: string, t: Table)
    requires PureTable(t)
    ensures GetVariable(fuel, name, t).table == t
    decreases fuel, 0
  {
    if name in t && t[name].Variable? && t[name].expression.Some? && fuel > 0 {
      EvalKeepsPureTable(fuel - 1, t[name].expression.value, t);
    }
  }

  lemma {:induction false} CallKeepsPureTable(fuel: nat, name: string, args: seq<Expression>, t: Table)
    requires (forall i :: 0 <= i < |args| ==> NoAssign(args[i])) && PureTable(t)
    ensures CallFunction(fuel, name, args, t).table == t
    decreases fuel, ExprsSize(args) + 2
  {
    var f := GetFunction(name, t);
    if f.Ok? && |args| == |f.value.params| {
      BindKeepsPureTable(fuel, f.value.params, args, t, map[]);
    }
  }

  lemma {:induction false} BindKeepsPureTable(fuel: nat, params: seq<string>, args: seq<Expression>, outer: Table, inner: Table)
    requires |params| == |args|
    requires (forall i :: 0 <= i < |args| ==> NoAssign(args[i])) && PureTable(outer)
    ensures BindArgs(fuel, params, args, outer, inner).table == outer
    decreases fuel, ExprsSize(args) + 1
  {
    if args != [] {
      ArgSmaller(args, 0);
      EvalKeepsPureTable(fuel, args[0], outer);
      var a := Eval(fuel, args[0], outer);
      if a.result.Ok? {
        var d := DeclareVariable(fuel, params[0], Some(Literal(a.result.value)), Mutable, inner);
        if d.result.Ok? {
          assert forall i :: 0 <= i < |args[1..]| ==> args[1..][i] == args[i + 1];
          BindKeepsPureTable(fuel, params[1..], args[1..], outer, d.table);
        }
      }
    }
  }

  /* ---------- The environment rules ---------- */

  /**
   * `getVariable`: an undeclared name and a function are errors; a variable
   * without a bound expression reads its stored value, or the default; a
   * variable bound to an expression reads that expression evaluated again,
   * one level deeper, against the current table.
   */
  lemma {:induction false} ReadRules(fuel: nat, name: string, t: Table)
    ensures name !in t ==> GetVariable(fuel, name, t) == EnvResult(Err(NotDefined(name)), t)
    ensures name in t && t[name].Function? ==> GetVariable(fuel, name, t) == EnvResult(Err(NotAVariable(name)), t)
    ensures name in t && t[name].Variable? && t[name].expression.None? ==>
      GetVariable(fuel, name, t) == EnvResult(Ok(t[name].value.GetOr(DefaultValue)), t)
    ensures name in t && t[name].Variable? && t[name].expression.Some? ==>
      GetVariable(fuel, name, t) == if fuel == 0 then EnvResult(Err(StackExhausted), t) else Eval(fuel - 1, t[name].expression.value, t)
  {
  }

  /**
   * `assignVariable` refuses an undeclared name, a function and a constant,
   * before evaluating anything, and leaves the table as it was.
   */
  lemma {:induction false} AssignFailures(fuel: nat, name: string, e: Expression, t: Table)
    ensures var r := AssignVariable(fuel, name, e, t);
      && (name !in t ==> r == EnvResult(Err(NotDefined(name)), t))
      && (name in t && t[name].Function? ==> r == EnvResult(Err(NotAVariable(name)), t))
      && (name in t && t[name].Variable? && t[name].modifier == Const ==> r == EnvResult(Err(ConstReassignment(name)), t))
  {
  }

  /**
   * `assignVariable` on a mutable variable, for an expression without
   * assignments: an evaluation error leaves the table as it was; otherwise
   * only that entry is replaced, by a variable of the same name and modifier
   * holding the expression's value and bound to the expression.
   */
  lemma {:induction false} AssignReplacesOnlyThatEntry(fuel: nat, name: string, e: Expression, t: Table)
    requires NoAssign(e) && PureTable(t)
    ensures name in t && t[name].Variable? && t[name].modifier == Mutable ==>
      var v := Eval(fuel, e, t).result;
      AssignVariable(fuel, name, e, t)
        == if v.Err? then EnvResult(Err(v.error), t)
           else EnvResult(Ok(()), t[name := Variable(name, Some(v.value), Mutable, Some(e))])
  {
    EvalKeepsPureTable(fuel, e, t);
  }

  /**
   * `declareVariable` of a new name with an initializer without assignments:
   * an evaluation error leaves the table as it was; otherwise the name gets a
   * variable holding the initializer's value and bound to the initializer.
   */
  lemma {:induction false} DeclareStoresValue(fuel: nat, name: string, init: Expression, m: Modifier, t: Table)
    requires NoAssign(init) && PureTable(t)
    ensures name !in t ==>
      var v := Eval(fuel, init, t).result;
      DeclareVariable(fuel, name, Some(init), m, t)
        == if v.Err? then EnvResult(Err(v.error), t)
           else EnvResult(Ok(()), t[name := Variable(name, Some(v.value), m, Some(init))])
  {
    EvalKeepsPureTable(fuel, init, t);
  }

  /**
   * An assignment expression gives the value its right side had before the
   * store, and leaves the name bound to that right side.
   */
  lemma {:induction false} AssignmentGivesValueAndBinds(fuel: nat, name: string, e: Expression, t: Table)
    requires NoAssign(e) && PureTable(t)
    requires name in t && t[name].Variable? && t[name].modifier == Mutable
    ensures var v := Eval(fuel, e, t).result;
      Eval(fuel, Assignment(name, e), t)
        == if v.Err? then EnvResult(Err(v.error), t)
           else EnvResult(Ok(v.value), t[name := Variable(name, Some(v.value), Mutable, Some(e))])
  {
    AssignReplacesOnlyThatEntry(fuel, name, e, t);
    EvalKeepsPureTable(fuel, e, t);
  }

  /** Functions and constants are never changed by evaluating an expression. */
  lemma {:induction false} ConstantsStay(fuel: nat, e: Expression, t: Table, k: string)
    requires k in t && (t[k].Function? || t[k].modifier == Const)
    ensures k in Eval(fuel, e, t).table && Eval(fuel, e, t).table[k] == t[k]
  {
  }

  /**
   * Declaring a name twice fails the second time, whether the second is a
   * variable or a function, and the failed declaration leaves the table as
   * it was.
   */
  lemma {:induction false} DeclaringTwiceFails(fuel: nat, name: string, init: Option<Expression>, m: Modifier, t: Table,
                            init': Option<Expression>, m': Modifier, params: seq<string>, body: seq<Statement>)
    requires DeclareVariable(fuel, name, init, m, t).result.Ok?
    ensures var u := DeclareVariable(fuel, name, init, m, t).table;
      && DeclareVariable(fuel, name, init', m', u) == EnvResult(Err(AlreadyDeclared(name)), u)
      && DeclareFunction(name, params, body, u) == EnvResult(Err(AlreadyDeclared(name)), u)
  {
  }

  /* ---------- Reactive reads ---------- */

  /**
   * Every read re-evaluates the bound expression: with `d` bound to `a + b`
   * and `a`, `b` bound to literals, `d` reads their sum, and after `a` is
   * assigned a new literal, `d` reads the new sum.
   */
  lemma {:induction false} ReadsFollowAssignments(fuel: nat, t: Table, a: string, b: string, d: string, x: I32, y: I32, x': I32)
    requires fuel >= 2 && a != d && b != d && a != b
    requires a in t && t[a].Variable? && t[a].modifier == Mutable && t[a].expression == Some(Literal(IntValue(x)))
    requires b in t && t[b].Variable? && t[b].expression == Some(Literal(IntValue(y)))
    requires d in t && t[d].Variable? && t[d].expression == Some(Expression.Add(VariableReference(a), VariableReference(b)))
    ensures GetVariable(fuel, d, t).result == Ok(IntValue(Wrap32(x + y)))
    ensures var u := AssignVariable(fuel, a, Literal(IntValue(x')), t);
      u.result.Ok? && GetVariable(fuel, d, u.table).result == Ok(IntValue(Wrap32(x' + y)))
  {
    var u := AssignVariable(fuel, a, Literal(IntValue(x')), t).table;
    assert Eval(fuel, Literal(IntValue(x')), t) == EnvResult(Ok(IntValue(x')), t);
    assert u == t[a := Variable(a, Some(IntValue(x')), Mutable, Some(Literal(IntValue(x'))))];
    ReadSum(fuel, t, a, b, d, x, y);
    ReadSum(fuel, u, a, b, d, x', y);
  }

  /** `d` bound to `a + b`, with `a` and `b` bound to literals, reads their sum. */
  lemma {:induction false} ReadSum(fuel: nat, t: Table, a: string, b: string, d: string, x: I32, y: I32)
    requires fuel >= 2
    requires a in t && t[a].Variable? && t[a].expression == Some(Literal(IntValue(x)))
    requires b in t && t[b].Variable? && t[b].expression == Some(Literal(IntValue(y)))
    requires d in t && t[d].Variable? && t[d].expression == Some(Expression.Add(VariableReference(a), VariableReference(b)))
    ensures GetVariable(fuel, d, t) == EnvResult(Ok(IntValue(Wrap32(x + y))), t)
  {
    var f := fuel - 1;
    var sum := Expression.Add(VariableReference(a), VariableReference(b));
    var total := EnvResult(Ok(IntValue(Wrap32(x + y))), t);
    assert Eval(f, VariableReference(a), t) == EnvResult(Ok(IntValue(x)), t) by {
      assert Eval(f - 1, Literal(IntValue(x)), t) == EnvResult(Ok(IntValue(x)), t);
    }
    assert Eval(f, VariableReference(b), t) == EnvResult(Ok(IntValue(y)), t) by {
      assert Eval(f - 1, Literal(IntValue(y)), t) == EnvResult(Ok(IntValue(y)), t);
    }
    assert ApplyRight(f, Operator.Add, IntValue(x), VariableReference(b), t) == total;
    assert EvalBinary(f, Operator.Add, VariableReference(a), VariableReference(b), t) == total;
    assert Eval(f, sum, t) == total;
  }

  /* ---------- A read that reaches its own variable never finishes ---------- */

  /** Evaluating `e` reads `x` before anything else can fail or change the table. */
  predicate ReadsFirst(e: Expression, x: string) {
    match e
    case VariableReference(y) => y == x
    case Literal(_) => false
    case Assignment(_, v) => ReadsFirst(v, x)
    case FunctionCall(_, _) => false
    case BNeg(o) => ReadsFirst(o, x)
    case Add(l, _) => ReadsFirst(l, x)
    case Sub(l, _) => ReadsFirst(l, x)
    case Mul(l, _) => ReadsFirst(l, x)
    case Div(l, _) => ReadsFirst(l, x)
    case BAnd(l, _) => ReadsFirst(l, x)
    case BOr(l, _) => ReadsFirst(l, x)
    case GreaterThan(l, _) => ReadsFirst(l, x)
    case LessThan(l, _) => ReadsFirst(l, x)
    case GreaterThanOrEquals(l, _) => ReadsFirst(l, x)
    case LessThanOrEquals(l, _) => ReadsFirst(l, x)
    case Equals(l, _) => ReadsFirst(l, x)
  }

  /**
   * When the variable `x` is bound to an expression that reads `x` first,
   * any expression that reads `x` first exhausts every amount of fuel: the
   * host's stack overflows, and nothing in the table has changed.
   */
  lemma {:induction false} SelfReadExhausts(fuel: nat, e: Expression, x: string, t: Table)
    requires x in t && t[x].Variable? && t[x].expression.Some? && ReadsFirst(t[x].expression.value, x)
    requires ReadsFirst(e, x)
    ensures Eval(fuel, e, t) == EnvResult(Err(StackExhausted), t)
    decreases fuel, ExprSize(e)
  {
    match e
    case VariableReference(_) =>
      if fuel > 0 {
        SelfReadExhausts(fuel - 1, t[x].expression.value, x, t);
      }
    case Assignment(_, v) => SelfReadExhausts(fuel, v, x, t);
    case BNeg(o) => SelfReadExhausts(fuel, o, x, t);
    case Add(l, _) => SelfReadExhausts(fuel, l, x, t);
    case Sub(l, _) => SelfReadExhausts(fuel, l, x, t);
    case Mul(l, _) => SelfReadExhausts(fuel, l, x, t);
    case Div(l, _) => SelfReadExhausts(fuel, l, x, t);
    case BAnd(l, _) => SelfReadExhausts(fuel, l, x, t);
    case BOr(l, _) => SelfReadExhausts(fuel, l, x, t);
    case GreaterThan(l, _) => SelfReadExhausts(fuel, l, x, t);
    case LessThan(l, _) => SelfReadExhausts(fuel, l, x, t);
    case GreaterThanOrEquals(l, _) => SelfReadExhausts(fuel, l, x, t);
    case LessThanOrEquals(l, _) => SelfReadExhausts(fuel, l, x, t);
    case Equals(l, _) => SelfReadExhausts(fuel, l, x, t);
  }

  /**
   * `x = x + 1` on a variable bound to a literal succeeds once, and leaves
   * `x` bound to `x + 1`, so that every later read of `x` exhausts the stack.
   */
  lemma {:induction false} IncrementMakesReadsLoop(fuel: nat, x: string, t: Table, n: I32)
    requires fuel >= 1
    requires x in t && t[x].Variable? && t[x].modifier == Mutable && t[x].expression == Some(Literal(IntValue(n)))
    ensures var inc := Expression.Add(VariableReference(x), Literal(IntValue(1)));
      var r := Eval(fuel, Assignment(x, inc), t);
      && r.result == Ok(IntValue(Wrap32(n + 1)))
      && x in r.table && r.table[x].expression == Some(inc)
      && forall fuel' :: Eval(fuel', VariableReference(x), r.table).result == Err(StackExhausted)
  {
    var inc := Expression.Add(VariableReference(x), Literal(IntValue(1)));
    var one := EnvResult(Ok(IntValue(Wrap32(n + 1))), t);
    assert Eval(fuel, VariableReference(x), t) == EnvResult(Ok(IntValue(n)), t) by {
      assert Eval(fuel - 1, Literal(IntValue(n)), t) == EnvResult(Ok(IntValue(n)), t);
    }
    assert ApplyRight(fuel, Operator.Add, IntValue(n), Literal(IntValue(1)), t) == one;
    assert EvalBinary(fuel, Operator.Add, VariableReference(x), Literal(IntValue(1)), t) == one;
    assert Eval(fuel, inc, t) == one;
    var u := t[x := Variable(x, Some(IntValue(Wrap32(n + 1))), Mutable, Some(inc))];
    assert AssignVariable(fuel, x, inc, t) == EnvResult(Ok(()), u);
    forall fuel': nat ensures Eval(fuel', VariableReference(x), u).result == Err(StackExhausted) {
      SelfReadExhausts(fuel', VariableReference(x), x, u);
    }
  }
}
