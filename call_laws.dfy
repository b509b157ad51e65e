/**
 * Laws of the function-call protocol of `Semantics.CallFunction`: the
 * arity check comes first, arguments become the only names the body can
 * see, duplicate parameters fail, and the call's value is that of the first
 * `return` or `VoidResult`.
 */
module CallLaws {
  import opened Common
  import opened Values
  import opened Ast
  import opened Semantics

  /** A call with the wrong number of arguments fails before any argument is evaluated. */
  lemma {:induction false} ArityMismatchFailsFirst(fuel: nat, name: string, args: seq<Expression>, t: Table)
    requires name in t && t[name].Function? && |args| != |t[name].params|
    ensures CallFunction(fuel, name, args, t) == EnvResult(Err(ArityMismatch(name, |args|, |t[name].params|)), t)
  {
  }

  /** The parameters, as a set. */
  function ParamSet(params: seq<string>): (r: set<string>)
    ensures forall p :: p in r <==> p in params
  {
    set p | p in params
  }

  /**
   * One step of binding: when binding succeeds, the first argument's value
   * was computed in the caller's table and declared, under the first
   * parameter, as a new mutable variable bound to it as a literal.
   */
  lemma {:induction false} BindStep(fuel: nat, params: seq<string>, args: seq<Expression>, outer: Table, inner: Table)
    requires |params| == |args| && args != []
    requires BindArgs(fuel, params, args, outer, inner).result.Ok?
    ensures var a := Eval(fuel, args[0], outer);
      && a.result.Ok? && params[0] !in inner
      && BindArgs(fuel, params, args, outer, inner)
         == BindArgs(fuel, params[1..], args[1..], a.table,
                     inner[params[0] := Variable(params[0], Some(a.result.value), Mutable, Some(Literal(a.result.value)))])
  {
    var a := Eval(fuel, args[0], outer);
    var v := a.result.value;
    assert Eval(fuel, Literal(v), inner) == EnvResult(Ok(v), inner);
  }

  /**
   * When binding succeeds, the callee's table is `inner`, whose entries are
   * kept, plus one mutable variable per parameter bound to the argument's
   * value as a literal.
   */
  lemma {:induction false} BindArgsTable(fuel: nat, params: seq<string>, args: seq<Expression>, outer: Table, inner: Table)
    requires |params| == |args|
    ensures var r := BindArgs(fuel, params, args, outer, inner);
      r.result.Ok? ==>
        && r.result.value.Keys == inner.Keys + ParamSet(params)
        && (forall k :: k in inner ==> r.result.value[k] == inner[k])
        && (forall p :: p in params ==> BoundToLiteral(r.result.value[p]))
    decreases |args|
  {
    var r := BindArgs(fuel, params, args, outer, inner);
    if args != [] && r.result.Ok? {
      BindStep(fuel, params, args, outer, inner);
      var a := Eval(fuel, args[0], outer);
      var v := a.result.value;
      var d := inner[params[0] := Variable(params[0], Some(v), Mutable, Some(Literal(v)))];
      BindArgsTable(fuel, params[1..], args[1..], a.table, d);
      assert ParamSet(params) == {params[0]} + ParamSet(params[1..]);
      forall p | p in params ensures BoundToLiteral(r.result.value[p]) {
        if p != params[0] {
          assert p in params[1..];
        }
      }
    }
  }

  /**
   * When binding succeeds, the parameters were pairwise distinct and none
   * was already in `inner`: a repeated parameter is declared twice.
   */
  lemma {:induction false} BindArgsFreshParams(fuel: nat, params: seq<string>, args: seq<Expression>, outer: Table, inner: Table)
    requires |params| == |args|
    ensures BindArgs(fuel, params, args, outer, inner).result.Ok? ==>
      && (forall i :: 0 <= i < |params| ==> params[i] !in inner)
      && (forall i, j :: 0 <= i < j < |params| ==> params[i] != params[j])
    decreases |args|
  {
    if args != [] && BindArgs(fuel, params, args, outer, inner).result.Ok? {
      BindStep(fuel, params, args, outer, inner);
      var a := Eval(fuel, args[0], outer);
      var v := a.result.value;
      var d := inner[params[0] := Variable(params[0], Some(v), Mutable, Some(Literal(v)))];
      BindArgsFreshParams(fuel, params[1..], args[1..], a.table, d);
      forall i | 0 < i < |params| ensures params[i] !in d {
        assert params[i] == params[1..][i - 1];
      }
    }
  }

  /** A mutable variable bound to a literal, as a bound argument is. */
  predicate BoundToLiteral(s: Symbol) {
    s.Variable? && s.modifier == Mutable && s.expression.Some? && s.expression.value.Literal?
  }

  /** A function whose parameter list names the same parameter twice cannot be called successfully. */
  lemma {:induction false} DuplicateParamsFail(fuel: nat, name: string, args: seq<Expression>, t: Table, i: nat, j: nat)
    requires name in t && t[name].Function? && |args| == |t[name].params|
    requires i < j < |t[name].params| && t[name].params[i] == t[name].params[j]
    ensures CallFunction(fuel, name, args, t).result.Err?
  {
    BindArgsFreshParams(fuel, t[name].params, args, t, map[]);
  }

  /**
   * The body runs in a table holding the parameters only: a body that
   * returns a name that is not a parameter fails with `NotDefined`, even
   * when the caller has a variable of that name.
   */
  lemma {:induction false} CalleeSeesOnlyParams(fuel: nat, name: string, args: seq<Expression>, t: Table, y: string)
    requires name in t && t[name].Function? && |args| == |t[name].params|
    requires y !in t[name].params && t[name].body != [] && t[name].body[0] == ReturnStmt(Some(VariableReference(y)))
    requires fuel > 0 && BindArgs(fuel, t[name].params, args, t, map[]).result.Ok?
    ensures CallFunction(fuel, name, args, t).result == Err(NotDefined(y))
  {
    var f := t[name];
    var bound := BindArgs(fuel, f.params, args, t, map[]);
    BindArgsTable(fuel, f.params, args, t, map[]);
    var inner := bound.result.value;
    assert y !in inner;
    assert Eval(fuel - 1, VariableReference(y), inner) == EnvResult(Err(NotDefined(y)), inner);
    assert Step(fuel - 1, f.body[0], inner) == EnvResult(Err(NotDefined(y)), inner);
    assert RunBody(fuel - 1, f.body, inner).result == Err(NotDefined(y));
  }

  /** Statements after the first one that returns are never run. */
  lemma {:induction false} ReturnStopsBody(fuel: nat, body: seq<Statement>, rest: seq<Statement>, t: Table)
    requires body != [] && Step(fuel, body[0], t).result.Ok? && Step(fuel, body[0], t).result.value.Return?
    ensures var s := Step(fuel, body[0], t);
      RunBody(fuel, body + rest, t) == EnvResult(Ok(s.result.value.carried.GetOr(VoidResult)), s.table)
  {
    assert (body + rest)[0] == body[0];
  }

  /** A body without `return` statements gives `VoidResult` when it does not fail. */
  lemma {:induction false} NoReturnGivesVoid(fuel: nat, body: seq<Statement>, t: Table)
    requires forall i :: 0 <= i < |body| ==> !body[i].ReturnStmt?
    ensures RunBody(fuel, body, t).result.Ok? ==> RunBody(fuel, body, t).result.value == VoidResult
    decreases |body|
  {
    if body != [] {
      var s := Step(fuel, body[0], t);
      assert !body[0].ReturnStmt?;
      if s.result.Ok? {
        assert s.result.value.Normal?;
        assert forall i :: 0 <= i < |body[1..]| ==> body[1..][i] == body[i + 1];
        NoReturnGivesVoid(fuel, body[1..], s.table);
      }
    }
  }

  /** `function add(a, b) { return a + b; }`. */
  const AddFunction: Symbol :=
    Function("add", ["a", "b"], [ReturnStmt(Some(Expression.Add(VariableReference("a"), VariableReference("b"))))])

  /** `add(5, 7)` gives 12, and the caller's table is left as it was. */
  lemma {:induction false} AddFiveSeven(fuel: nat, t: Table)
    requires fuel >= 2 && "add" in t && t["add"] == AddFunction
    ensures CallFunction(fuel, "add", [Literal(IntValue(5)), Literal(IntValue(7))], t) == EnvResult(Ok(IntValue(12)), t)
  {
    AddBodyGivesTwelve(fuel - 1);
    AddCallOfBody(fuel, t);
  }

  /** `add(5, 7)` gives what the body of `add` gives in the table binding its arguments. */
  lemma {:induction false} AddCallOfBody(fuel: nat, t: Table)
    requires fuel >= 2 && "add" in t && t["add"] == AddFunction
    requires RunBody(fuel - 1, AddFunction.body, AddArguments()).result == Ok(IntValue(12))
    ensures CallFunction(fuel, "add", [Literal(IntValue(5)), Literal(IntValue(7))], t) == EnvResult(Ok(IntValue(12)), t)
  {
    BindFiveSeven(fuel, t);
    CallGives(fuel, "add", [Literal(IntValue(5)), Literal(IntValue(7))], t, AddArguments(), IntValue(12));
  }

  /**
   * A call whose arguments bind to `inner` without touching the caller's
   * table, and whose body gives `v` there, gives `v` and leaves that table.
   */
  lemma {:induction false} CallGives(fuel: nat, name: string, args: seq<Expression>, t: Table, inner: Table, v: Value)
    requires fuel >= 1 && name in t && t[name].Function? && |args| == |t[name].params|
    requires BindArgs(fuel, t[name].params, args, t, map[]) == EnvResult(Ok(inner), t)
    requires RunBody(fuel - 1, t[name].body, inner).result == Ok(v)
    ensures CallFunction(fuel, name, args, t) == EnvResult(Ok(v), t)
  {
  }

  /** The body of `add`, run in the table that binds `a` to 5 and `b` to 7, returns 12. */
  lemma {:induction false} AddBodyGivesTwelve(f: nat)
    requires f >= 1
    ensures RunBody(f, AddFunction.body, AddArguments()).result == Ok(IntValue(12))
  {
    var inner := AddArguments();
    var sum := EnvResult(Ok(IntValue(12)), inner);
    ReadArguments(f);
    assert Wrap32(12) == 12;
    assert ApplyRight(f, Operator.Add, IntValue(5), VariableReference("b"), inner) == sum;
    assert EvalBinary(f, Operator.Add, VariableReference("a"), VariableReference("b"), inner) == sum;
    assert Step(f, AddFunction.body[0], inner) == EnvResult(Ok(Return(Some(IntValue(12)))), inner);
  }

  lemma {:induction false} ReadArguments(f: nat)
    requires f >= 1
    ensures Eval(f, VariableReference("a"), AddArguments()) == EnvResult(Ok(IntValue(5)), AddArguments())
    ensures Eval(f, VariableReference("b"), AddArguments()) == EnvResult(Ok(IntValue(7)), AddArguments())
  {
    var inner := AddArguments();
    assert Eval(f - 1, Literal(IntValue(5)), inner) == EnvResult(Ok(IntValue(5)), inner);
    assert Eval(f - 1, Literal(IntValue(7)), inner) == EnvResult(Ok(IntValue(7)), inner);
  }

  /** The callee's table of `add(5, 7)`. */
  function AddArguments(): Table {
    map["a" := Variable("a", Some(IntValue(5)), Mutable, Some(Literal(IntValue(5)))),
        "b" := Variable("b", Some(IntValue(7)), Mutable, Some(Literal(IntValue(7))))]
  }

  lemma {:induction false} BindFiveSeven(fuel: nat, t: Table)
    ensures BindArgs(fuel, ["a", "b"], [Literal(IntValue(5)), Literal(IntValue(7))], t, map[]) == EnvResult(Ok(AddArguments()), t)
  {
    var args := [Literal(IntValue(5)), Literal(IntValue(7))];
    var a := Variable("a", Some(IntValue(5)), Mutable, Some(Literal(IntValue(5))));
    var inner := AddArguments();
    assert Eval(fuel, Literal(IntValue(5)), t) == EnvResult(Ok(IntValue(5)), t);
    assert Eval(fuel, Literal(IntValue(5)), map[]) == EnvResult(Ok(IntValue(5)), map[]);
    assert DeclareVariable(fuel, "a", Some(Literal(IntValue(5))), Mutable, map[]) == EnvResult(Ok(()), map["a" := a]);
    assert Eval(fuel, Literal(IntValue(7)), t) == EnvResult(Ok(IntValue(7)), t);
    assert Eval(fuel, Literal(IntValue(7)), map["a" := a]) == EnvResult(Ok(IntValue(7)), map["a" := a]);
    assert DeclareVariable(fuel, "b", Some(Literal(IntValue(7))), Mutable, map["a" := a]) == EnvResult(Ok(()), inner);
    assert args[1..][1..] == [];
    assert BindArgs(fuel, ["a", "b"][1..][1..], args[1..][1..], t, inner) == EnvResult(Ok(inner), t);
    assert BindArgs(fuel, ["a", "b"][1..], args[1..], t, map["a" := a]) == EnvResult(Ok(inner), t);
  }
}
