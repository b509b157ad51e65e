/**
 * The syntax trees of interpreter/Expression.kt and interpreter/Statement.kt,
 * and the symbols of interpreter/Symbol.kt that the environment stores.
 */
module Ast {
  import opened Common
  import opened Values

  /** `VariableModifier`: `let` gives a mutable variable, `const` a constant one. */
  datatype Modifier = Mutable | Const

  datatype Expression =
    | VariableReference(name: string)
    | Literal(value: Value)
    | Assignment(target: string, expr: Expression)
    | FunctionCall(callee: string, args: seq<Expression>)
    | Add(lhs: Expression, rhs: Expression)
    | Sub(lhs: Expression, rhs: Expression)
    | Mul(lhs: Expression, rhs: Expression)
    | Div(lhs: Expression, rhs: Expression)
    | BAnd(lhs: Expression, rhs: Expression)
    | BOr(lhs: Expression, rhs: Expression)
    | BNeg(operand: Expression)
    | GreaterThan(lhs: Expression, rhs: Expression)
    | LessThan(lhs: Expression, rhs: Expression)
    | GreaterThanOrEquals(lhs: Expression, rhs: Expression)
    | LessThanOrEquals(lhs: Expression, rhs: Expression)
    | Equals(lhs: Expression, rhs: Expression)

  /**
   * A declaration carries the fields of the `Symbol.Variable` it wraps: the
   * name, a stored value (the parser leaves it null), the modifier and the
   * initializer that becomes the variable's bound expression.
   */
  datatype Statement =
    | Declaration(name: string, value: Option<Value>, modifier: Modifier, initializer: Option<Expression>)
    | ExpressionStmt(expr: Expression)
    | FunctionDeclaration(name: string, params: seq<string>, body: seq<Statement>)
    | ReturnStmt(returned: Option<Expression>)

  /**
   * A stored symbol: a variable with its last value and the expression it
   * was last bound to, or a function with its parameters and body.
   */
  datatype Symbol =
    | Variable(name: string, value: Option<Value>, modifier: Modifier, expression: Option<Expression>)
    | Function(name: string, params: seq<string>, body: seq<Statement>)

  /* Size measures, used to show that evaluation terminates for a given fuel. */

  function ExprSize(e: Expression): (n: nat)
    ensures n >= 1
  {
    match e
    case VariableReference(_) => 1
    case Literal(_) => 1
    case Assignment(_, v) => ExprSize(v) + 2
    case FunctionCall(_, args) => ExprsSize(args) + 3
    case BNeg(x) => ExprSize(x) + 1
    case Add(l, r) => ExprSize(l) + ExprSize(r) + 2
    case Sub(l, r) => ExprSize(l) + ExprSize(r) + 2
    case Mul(l, r) => ExprSize(l) + ExprSize(r) + 2
    case Div(l, r) => ExprSize(l) + ExprSize(r) + 2
    case BAnd(l, r) => ExprSize(l) + ExprSize(r) + 2
    case BOr(l, r) => ExprSize(l) + ExprSize(r) + 2
    case GreaterThan(l, r) => ExprSize(l) + ExprSize(r) + 2
    case LessThan(l, r) => ExprSize(l) + ExprSize(r) + 2
    case GreaterThanOrEquals(l, r) => ExprSize(l) + ExprSize(r) + 2
    case LessThanOrEquals(l, r) => ExprSize(l) + ExprSize(r) + 2
    case Equals(l, r) => ExprSize(l) + ExprSize(r) + 2
  }

  function ExprsSize(es: seq<Expression>): (n: nat)
    ensures es != [] ==> n >= 2
  {
    if es == [] then 0 else ExprSize(es[0]) + ExprsSize(es[1..]) + 1
  }

  /** Every argument is smaller than the whole argument list. */
  lemma {:induction false} ArgSmaller(es: seq<Expression>, i: nat)
    requires i < |es|
    ensures ExprSize(es[i]) < ExprsSize(es)
    ensures ExprsSize(es[i + 1..]) < ExprsSize(es)
  {
    if i > 0 {
      ArgSmaller(es[1..], i - 1);
      assert es[1..][i - 1] == es[i];
      assert es[1..][i..] == es[i + 1..];
    }
  }

  function InitSize(init: Option<Expression>): (n: nat)
    ensures n >= 1
  {
    match init
    case None => 1
    case Some(e) => ExprSize(e) + 1
  }

  function StmtSize(s: Statement): (n: nat)
    ensures n >= 1
  {
    match s
    case Declaration(_, _, _, init) => InitSize(init) + 1
    case ExpressionStmt(e) => ExprSize(e) + 1
    case FunctionDeclaration(_, _, _) => 1
    case ReturnStmt(None) => 1
    case ReturnStmt(Some(e)) => ExprSize(e) + 1
  }

  function StmtsSize(ss: seq<Statement>): nat {
    if ss == [] then 0 else StmtSize(ss[0]) + StmtsSize(ss[1..]) + 1
  }
}
