/**
 * The evaluator of interpreter/Expression.kt, interpreter/Statement.kt and
 * interpreter/Environment.kt as functions over the symbol table.
 *
 * Every operation takes the table it runs against and gives back the table
 * it leaves, together with its result or the error it raised; effects made
 * before an error stay, as they do in the interpreter. A `fuel` argument
 * stands for the depth of the host's call stack: it is spent by each read
 * that re-evaluates a bound expression and by each function body run, and
 * running out of it is the `StackExhausted` error.
 */
module Semantics {
  import opened Common
  import opened Values
  import opened Ast

  /** `symbolTable`: symbols by name. */
  type Table = map<string, Symbol>

  /** What an operation leaves behind: its result or error, and the table. */
  datatype EnvResult<+T> = EnvResult(result: Result<T, Error>, table: Table)

  /** How a statement finishes: with a value, or by returning from the enclosing function. */
  datatype Completion = Normal(value: Value) | Return(carried: Option<Value>)

  /** `DEFAULT_VAL`: the value of a variable declared without initializer. */
  const DefaultValue: Value := IntValue(0)

  /** The result of a call whose body returns nothing. */
  const VoidResult: Value := IntValue(-999)

  /** Every symbol is stored under its own name. */
  ghost predicate WellKeyed(t: Table) {
    forall k :: k in t ==> t[k].name == k
  }

  /**
   * What a later table keeps of an earlier symbol: functions and constants
   * stay exactly as they were, and a mutable variable stays a mutable
   * variable.
   */
  ghost predicate Preserved(s: Symbol, s': Symbol) {
    if s.Function? || s.modifier == Const then s' == s
    else s'.Variable? && s'.modifier == s.modifier
  }

  /** The table `u` only grows `t`, and keeps every symbol of it as `Preserved` says. */
  ghost predicate Evolves(t: Table, u: Table) {
    t.Keys <= u.Keys && forall k :: k in t ==> Preserved(t[k], u[k])
  }

  lemma {:induction false} EvolvesTransitive(t: Table, u: Table, v: Table)
    requires Evolves(t, u) && Evolves(u, v)
    ensures Evolves(t, v)
  {
  }

  /** `Expression.eval`. */
  function Eval(fuel: nat, e: Expression, t: Table): (r: EnvResult<Value>)
    ensures r.table.Keys == t.Keys && Evolves(t, r.table)
    ensures WellKeyed(t) ==> WellKeyed(r.table)
    decreases fuel, ExprSize(e)
  {
    match e
    case Literal(v) => EnvResult(Ok(v), t)
    case VariableReference(name) => GetVariable(fuel, name, t)
    case Assignment(name, value) =>
      var first := Eval(fuel, value, t);
      if first.result.Err? then first
      else
        var stored := AssignVariable(fuel, name, value, first.table);
        EvolvesTransitive(t, first.table, stored.table);
        if stored.result.Err? then EnvResult(Err(stored.result.error), stored.table)
        else EnvResult(Ok(first.result.value), stored.table)
    case FunctionCall(name, args) => CallFunction(fuel, name, args, t)
    case BNeg(x) =>
      var a := Eval(fuel, x, t);
      if a.result.Err? then a else EnvResult(NegValue(a.result.value), a.table)
    case Add(l, r) => EvalBinary(fuel, Operator.Add, l, r, t)
    case Sub(l, r) => EvalBinary(fuel, Subtract, l, r, t)
    case Mul(l, r) => EvalBinary(fuel, Multiply, l, r, t)
    case Div(l, r) => EvalBinary(fuel, Divide, l, r, t)
    case BAnd(l, r) => EvalBinary(fuel, And, l, r, t)
    case BOr(l, r) => EvalBinary(fuel, Or, l, r, t)
    case GreaterThan(l, r) => EvalBinary(fuel, Operator.GreaterThan, l, r, t)
    case LessThan(l, r) => EvalBinary(fuel, Operator.LessThan, l, r, t)
    case GreaterThanOrEquals(l, r) => EvalBinary(fuel, GreaterThanOrEq, l, r, t)
    case LessThanOrEquals(l, r) => EvalBinary(fuel, LessThanOrEq, l, r, t)
    case Equals(l, r) => EvalBinary(fuel, Operator.Equals, l, r, t)
  }

  /** A binary node: the left operand, then the right one against the table it left, then the operator. */
  function EvalBinary(fuel: nat, op: Operator, l: Expression, r: Expression, t: Table): (res: EnvResult<Value>)
    requires op != Neg
    ensures res.table.Keys == t.Keys && Evolves(t, res.table)
    ensures WellKeyed(t) ==> WellKeyed(res.table)
    decreases fuel, ExprSize(l) + ExprSize(r) + 1
  {
    var a := Eval(fuel, l, t);
    if a.result.Err? then a else ApplyRight(fuel, op, a.result.value, r, a.table)
  }

  /** The right operand of a binary node evaluated, and the operator applied to both values. */
  function ApplyRight(fuel: nat, op: Operator, left: Value, r: Expression, t: Table): (res: EnvResult<Value>)
    requires op != Neg
    ensures res.table.Keys == t.Keys && Evolves(t, res.table)
    ensures WellKeyed(t) ==> WellKeyed(res.table)
    decreases fuel, ExprSize(r) + 1
  {
    var b := Eval(fuel, r, t);
    if b.result.Err? then b else EnvResult(Apply(op, left, b.result.value), b.table)
  }

  /**
   * `getVariable`: a bound expression is evaluated again against the
   * current table; otherwise the stored value, or the default.
   */
  function GetVariable(fuel: nat, name: string, t: Table): (r: EnvResult<Value>)
    ensures r.table.Keys == t.Keys && Evolves(t, r.table)
    ensures WellKeyed(t) ==> WellKeyed(r.table)
    decreases fuel, 0
  {
    if name !in t then EnvResult(Err(NotDefined(name)), t)
    else
      match t[name]
      case Function(_, _, _) => EnvResult(Err(NotAVariable(name)), t)
      case Variable(_, value, _, None) => EnvResult(Ok(value.GetOr(DefaultValue)), t)
      case Variable(_, _, _, Some(bound)) =>
        if fuel == 0 then EnvResult(Err(StackExhausted), t) else Eval(fuel - 1, bound, t)
  }

  /**
   * `assignVariable`: only a declared, mutable variable can be assigned; its
   * new value is computed and the entry is replaced by a variable of the
   * same name and modifier bound to `e`.
   */
  function AssignVariable(fuel: nat, name: string, e: Expression, t: Table): (r: EnvResult<()>)
    ensures r.table.Keys == t.Keys && Evolves(t, r.table)
    ensures WellKeyed(t) ==> WellKeyed(r.table)
    decreases fuel, ExprSize(e) + 1
  {
    if name !in t then EnvResult(Err(NotDefined(name)), t)
    else
      var symbol := t[name];
      if symbol.Function? then EnvResult(Err(NotAVariable(name)), t)
      else if symbol.modifier == Const then EnvResult(Err(ConstReassignment(name)), t)
      else
        var v := Eval(fuel, e, t);
        if v.result.Err? then EnvResult(Err(v.result.error), v.table)
        else EnvResult(Ok(()), v.table[name := Variable(name, Some(v.result.value), symbol.modifier, Some(e))])
  }

  /**
   * `declareVariable`: a new name gets a variable holding the initializer's
   * value (the default when there is none) and bound to the initializer.
   */
  function DeclareVariable(fuel: nat, name: string, init: Option<Expression>, modifier: Modifier, t: Table): (r: EnvResult<()>)
    ensures Evolves(t, r.table)
    ensures r.result.Ok? ==> r.table.Keys == t.Keys + {name}
    ensures r.result.Err? ==> r.table.Keys == t.Keys
    ensures WellKeyed(t) ==> WellKeyed(r.table)
    ensures name in t ==> r == EnvResult(Err(AlreadyDeclared(name)), t)
    ensures name !in t && init.None? ==> r == EnvResult(Ok(()), t[name := Variable(name, Some(DefaultValue), modifier, None)])
    decreases fuel, InitSize(init)
  {
    if name in t then EnvResult(Err(AlreadyDeclared(name)), t)
    else
      match init
      case None => EnvResult(Ok(()), t[name := Variable(name, Some(DefaultValue), modifier, None)])
      case Some(e) =>
        var v := Eval(fuel, e, t);
        if v.result.Err? then EnvResult(Err(v.result.error), v.table)
        else EnvResult(Ok(()), v.table[name := Variable(name, Some(v.result.value), modifier, init)])
  }

  /** `declareFunction`. */
  function DeclareFunction(name: string, params: seq<string>, body: seq<Statement>, t: Table): (r: EnvResult<()>)
    ensures r.result.Ok? <==> name !in t
    ensures r.result.Err? ==> r == EnvResult(Err(AlreadyDeclared(name)), t)
    ensures r.result.Ok? ==> r.table == t[name := Function(name, params, body)]
  {
    if name in t then EnvResult(Err(AlreadyDeclared(name)), t)
    else EnvResult(Ok(()), t[name := Function(name, params, body)])
  }

  /** `getFunction`. */
  function GetFunction(name: string, t: Table): (r: Result<Symbol, Error>)
    ensures r.Ok? <==> name in t && t[name].Function?
    ensures r.Ok? ==> r.value == t[name]
    ensures r.Err? ==> r.error == (if name in t then NotAFunction(name) else NotDefined(name))
  {
    if name !in t then Err(NotDefined(name))
    else if t[name].Function? then Ok(t[name])
    else Err(NotAFunction(name))
  }

  /** `getSymbols`: the stored symbols (their insertion order is not kept). */
  function GetSymbols(t: Table): (r: set<Symbol>)
    ensures WellKeyed(t) ==> forall s :: s in r ==> s.name in t && t[s.name] == s
    ensures forall k :: k in t ==> t[k] in r
  {
    t.Values
  }

  /**
   * The call protocol: look the function up, check the argument count, bind
   * the arguments in a fresh empty table, run the body there; the call's
   * value is the first `return`'s, or `VoidResult`.
   */
  function CallFunction(fuel: nat, name: string, args: seq<Expression>, t: Table): (r: EnvResult<Value>)
    ensures r.table.Keys == t.Keys && Evolves(t, r.table)
    ensures WellKeyed(t) ==> WellKeyed(r.table)
    decreases fuel, ExprsSize(args) + 2
  {
    match GetFunction(name, t)
    case Err(e) => EnvResult(Err(e), t)
    case Ok(f) =>
      if |args| != |f.params| then EnvResult(Err(ArityMismatch(name, |args|, |f.params|)), t)
      else
        var bound := BindArgs(fuel, f.params, args, t, map[]);
        if bound.result.Err? then EnvResult(Err(bound.result.error), bound.table)
        else if fuel == 0 then EnvResult(Err(StackExhausted), bound.table)
        else
          var run := RunBody(fuel - 1, f.body, bound.result.value);
          EnvResult(run.result, bound.table)
  }

  /**
   * Arguments left to right: each is evaluated against the caller's table
   * and declared, as a mutable variable bound to its value as a literal, in
   * the callee's table, which is the result.
   */
  function BindArgs(fuel: nat, params: seq<string>, args: seq<Expression>, outer: Table, inner: Table): (r: EnvResult<Table>)
    requires |params| == |args|
    ensures r.table.Keys == outer.Keys && Evolves(outer, r.table)
    ensures WellKeyed(outer) ==> WellKeyed(r.table)
    decreases fuel, ExprsSize(args) + 1
  {
    if args == [] then EnvResult(Ok(inner), outer)
    else
      var a := Eval(fuel, args[0], outer);
      if a.result.Err? then EnvResult(Err(a.result.error), a.table)
      else
        var d := DeclareVariable(fuel, params[0], Some(Literal(a.result.value)), Mutable, inner);
        if d.result.Err? then EnvResult(Err(d.result.error), a.table)
        else BindArgs(fuel, params[1..], args[1..], a.table, d.table)
  }

  /** A function body: statements in order until one returns; the call's value. */
  function RunBody(fuel: nat, body: seq<Statement>, t: Table): (r: EnvResult<Value>)
    ensures Evolves(t, r.table)
    ensures WellKeyed(t) ==> WellKeyed(r.table)
    decreases fuel, StmtsSize(body)
  {
    if body == [] then EnvResult(Ok(VoidResult), t)
    else
      var s := Step(fuel, body[0], t);
      match s.result
      case Err(e) => EnvResult(Err(e), s.table)
      case Ok(Return(carried)) => EnvResult(Ok(carried.GetOr(VoidResult)), s.table)
      case Ok(Normal(_)) => RunBody(fuel, body[1..], s.table)
  }

  /** `Statement.step`. */
  function Step(fuel: nat, s: Statement, t: Table): (r: EnvResult<Completion>)
    ensures Evolves(t, r.table)
    ensures WellKeyed(t) ==> WellKeyed(r.table)
    decreases fuel, StmtSize(s)
  {
    match s
    case Declaration(name, _, modifier, init) =>
      var d := DeclareVariable(fuel, name, init, modifier, t);
      if d.result.Err? then EnvResult(Err(d.result.error), d.table)
      else EnvResult(Ok(Normal(StringValue("Declared variable " + name))), d.table)
    case ExpressionStmt(e) =>
      var v := Eval(fuel, e, t);
      if v.result.Err? then EnvResult(Err(v.result.error), v.table)
      else EnvResult(Ok(Normal(v.result.value)), v.table)
    case FunctionDeclaration(name, params, body) =>
      var d := DeclareFunction(name, params, body, t);
      if d.result.Err? then EnvResult(Err(d.result.error), d.table)
      else EnvResult(Ok(Normal(StringValue("Declared function " + name))), d.table)
    case ReturnStmt(None) => EnvResult(Ok(Return(None)), t)
    case ReturnStmt(Some(e)) =>
      var v := Eval(fuel, e, t);
      if v.result.Err? then EnvResult(Err(v.result.error), v.table)
      else EnvResult(Ok(Return(Some(v.result.value))), v.table)
  }
}
