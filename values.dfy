/**
 * Runtime values of interpreter/Value.kt and the operator table applied to
 * them: JavaScript-style coercion of booleans to 0/1, string concatenation,
 * string repetition, Kotlin 32-bit integer arithmetic and the exceptions the
 * interpreter raises, which become the `Error` side of a `Result`.
 */
module Values {
  import opened Common

  datatype Value = IntValue(i: I32) | StringValue(s: string) | BoolValue(b: bool)

  /** The operators of the table, named as in interpreter/Value.kt. */
  datatype Operator = Add | Multiply | Subtract | Divide | And | Or | Neg
                    | LessThan | GreaterThan | GreaterThanOrEq | LessThanOrEq | Equals

  /**
   * Everything evaluation can fail with: the interpreter's own exceptions
   * (undefined behaviour, unknown or duplicate symbols) and the JVM ones it
   * lets escape (integer division by zero, a negative repeat count, a stack
   * overflow, a return outside any function).
   */
  datatype Error =
    | ExpectedInt(got: Value)
    | CannotConvertToString(got: Value)
    | ExpectedBool(got: Value)
    | Unsupported(op: Operator, left: Value, right: Option<Value>)
    | DivisionByZero
    | ArithmeticFault
    | NegativeRepeatCount(count: int)
    | NotDefined(name: string)
    | AlreadyDeclared(name: string)
    | NotAVariable(name: string)
    | NotAFunction(name: string)
    | ConstReassignment(name: string)
    | ArityMismatch(name: string, given: nat, expected: nat)
    | StackExhausted
    | UncaughtReturn

  type Outcome = Result<Value, Error>

  /** `asInt()`: integers as they are, booleans as 1 and 0, strings refused. */
  function AsInt(v: Value): (r: Result<I32, Error>)
    ensures r.Ok? <==> !v.StringValue?
    ensures r.Err? ==> r.error == ExpectedInt(v)
  {
    match v
    case IntValue(i) => Ok(i)
    case BoolValue(b) => Ok(if b then 1 else 0)
    case StringValue(_) => Err(ExpectedInt(v))
  }

  /** `asString()`: strings as they are, integers in decimal, booleans refused. */
  function AsString(v: Value): (r: Result<string, Error>)
    ensures r.Ok? <==> !v.BoolValue?
    ensures r.Err? ==> r.error == CannotConvertToString(v)
  {
    match v
    case StringValue(s) => Ok(s)
    case IntValue(i) => Ok(IntToString(i))
    case BoolValue(_) => Err(CannotConvertToString(v))
  }

  /** `asBool()`: booleans as they are, an integer is true only when positive. */
  function AsBool(v: Value): (r: Result<bool, Error>)
    ensures r.Ok? <==> !v.StringValue?
    ensures r.Err? ==> r.error == ExpectedBool(v)
  {
    match v
    case BoolValue(b) => Ok(b)
    case IntValue(i) => Ok(i > 0)
    case StringValue(_) => Err(ExpectedBool(v))
  }

  /**
   * Both operands through `asInt()`, left first, then `f`; the shape of every
   * boolean-coercion branch of the table.
   */
  function BothInts(l: Value, r: Value): Result<(I32, I32), Error> {
    match AsInt(l)
    case Err(e) => Err(e)
    case Ok(a) =>
      match AsInt(r)
      case Err(e) => Err(e)
      case Ok(b) => Ok((a, b))
  }

  /** `s.repeat(n)` for a non-negative count. */
  function Repeat(s: string, n: nat): string {
    if n == 0 then [] else Repeat(s, n - 1) + s
  }

  function AddValues(l: Value, r: Value): Outcome {
    if l.BoolValue? || r.BoolValue? then
      match BothInts(l, r)
      case Err(e) => Err(e)
      case Ok((a, b)) => Ok(IntValue(Wrap32(a + b)))
    else if l.StringValue? || r.StringValue? then
      match (AsString(l), AsString(r))
      case (Ok(a), Ok(b)) => Ok(StringValue(a + b))
      case _ => assert false; Err(Unsupported(Add, l, Some(r)))
    else Ok(IntValue(Wrap32(l.i + r.i)))
  }

  function MultiplyValues(l: Value, r: Value): Outcome {
    if l.BoolValue? || r.BoolValue? then
      match BothInts(l, r)
      case Err(e) => Err(e)
      case Ok((a, b)) => Ok(IntValue(Wrap32(a * b)))
    else if l.IntValue? && r.IntValue? then Ok(IntValue(Wrap32(l.i * r.i)))
    else if l.StringValue? && r.IntValue? then
      if r.i < 0 then Err(NegativeRepeatCount(r.i)) else Ok(StringValue(Repeat(l.s, r.i)))
    else Err(Unsupported(Multiply, l, Some(r)))
  }

  function SubtractValues(l: Value, r: Value): Outcome {
    if l.BoolValue? || r.BoolValue? then
      match BothInts(l, r)
      case Err(e) => Err(e)
      case Ok((a, b)) => Ok(IntValue(Wrap32(a - b)))
    else if l.IntValue? && r.IntValue? then Ok(IntValue(Wrap32(l.i - r.i)))
    else Err(Unsupported(Subtract, l, Some(r)))
  }

  /**
   * Division: the coercion branch divides with no zero check of its own (the
   * JVM raises on a zero divisor), the integer branch reports division by
   * zero itself; the quotient truncates and `MinInt / -1` wraps to `MinInt`.
   */
  function DivideValues(l: Value, r: Value): Outcome {
    if l.BoolValue? || r.BoolValue? then
      match BothInts(l, r)
      case Err(e) => Err(e)
      case Ok((a, b)) => if b == 0 then Err(ArithmeticFault) else Ok(IntValue(Wrap32(TruncDiv(a, b))))
    else if l.IntValue? && r.IntValue? then
      if r.i == 0 then Err(DivisionByZero) else Ok(IntValue(Wrap32(TruncDiv(l.i, r.i))))
    else Err(Unsupported(Divide, l, Some(r)))
  }

  /** `&&` on `asBool()` of both sides; the right side is not converted once the left is false. */
  function AndValues(l: Value, r: Value): Outcome {
    if l.IntValue? || r.IntValue? then
      match AsBool(l)
      case Err(e) => Err(e)
      case Ok(false) => Ok(BoolValue(false))
      case Ok(true) =>
        match AsBool(r)
        case Err(e) => Err(e)
        case Ok(b) => Ok(BoolValue(b))
    else if l.BoolValue? && r.BoolValue? then Ok(BoolValue(l.b && r.b))
    else Err(Unsupported(And, l, Some(r)))
  }

  /** `||` on `asBool()` of both sides; the right side is not converted once the left is true. */
  function OrValues(l: Value, r: Value): Outcome {
    if l.IntValue? || r.IntValue? then
      match AsBool(l)
      case Err(e) => Err(e)
      case Ok(true) => Ok(BoolValue(true))
      case Ok(false) =>
        match AsBool(r)
        case Err(e) => Err(e)
        case Ok(b) => Ok(BoolValue(b))
    else if l.BoolValue? && r.BoolValue? then Ok(BoolValue(l.b || r.b))
    else Err(Unsupported(Or, l, Some(r)))
  }

  function NegValue(v: Value): Outcome {
    match v
    case IntValue(i) => Ok(BoolValue(!(i > 0)))
    case BoolValue(b) => Ok(BoolValue(!b))
    case StringValue(_) => Err(Unsupported(Neg, v, None))
  }

  /** The comparison operators, which only differ in the integer relation they test. */
  function Compare(op: Operator, l: Value, r: Value): Outcome
    requires op in {LessThan, GreaterThan, GreaterThanOrEq, LessThanOrEq, Equals}
  {
    if l.BoolValue? || r.BoolValue? then
      match BothInts(l, r)
      case Err(e) => Err(e)
      case Ok((a, b)) => Ok(BoolValue(Relation(op, a, b)))
    else if l.IntValue? && r.IntValue? then Ok(BoolValue(Relation(op, l.i, r.i)))
    else Err(Unsupported(op, l, Some(r)))
  }

  function Relation(op: Operator, a: int, b: int): bool
    requires op in {LessThan, GreaterThan, GreaterThanOrEq, LessThanOrEq, Equals}
  {
    match op
    case LessThan => a < b
    case GreaterThan => a > b
    case GreaterThanOrEq => a >= b
    case LessThanOrEq => a <= b
    case Equals => a == b
  }

  /** The binary half of the table, as the evaluator dispatches it. */
  function Apply(op: Operator, l: Value, r: Value): Outcome
    requires op != Neg
  {
    match op
    case Add => AddValues(l, r)
    case Multiply => MultiplyValues(l, r)
    case Subtract => SubtractValues(l, r)
    case Divide => DivideValues(l, r)
    case And => AndValues(l, r)
    case Or => OrValues(l, r)
    case LessThan => Compare(op, l, r)
    case GreaterThan => Compare(op, l, r)
    case GreaterThanOrEq => Compare(op, l, r)
    case LessThanOrEq => Compare(op, l, r)
    case Equals => Compare(op, l, r)
  }

  /* Laws of the table. */

  /** Truthiness of a value that `asBool()` accepts. */
  predicate Truthy(v: Value)
    requires !v.StringValue?
  {
    if v.BoolValue? then v.b else v.i > 0
  }

  /** Whenever addition involves no boolean, integers add and anything else concatenates. */
  lemma {:induction false} AddMeaning(l: Value, r: Value)
    requires !l.BoolValue? && !r.BoolValue?
    ensures l.IntValue? && r.IntValue? ==> AddValues(l, r) == Ok(IntValue(Wrap32(l.i + r.i)))
    ensures l.StringValue? || r.StringValue? ==>
      AddValues(l, r) == Ok(StringValue(AsString(l).value + AsString(r).value))
  {
  }

  /** Addition fails exactly when a boolean meets a string. */
  lemma {:induction false} AddTotal(l: Value, r: Value)
    ensures AddValues(l, r).Ok? <==> (l.BoolValue? || r.BoolValue? ==> !l.StringValue? && !r.StringValue?)
  {
  }

  /** Integer addition commutes, wrap-around included. */
  lemma {:induction false} AddIntsCommute(a: I32, b: I32)
    ensures AddValues(IntValue(a), IntValue(b)) == AddValues(IntValue(b), IntValue(a))
  {
  }

  /** `asBool()` and `asInt()` accept the same values and agree: true exactly when positive. */
  lemma {:induction false} CoercionsAgree(v: Value)
    ensures AsBool(v).Ok? <==> AsInt(v).Ok?
    ensures AsBool(v).Ok? ==> AsBool(v).value == (AsInt(v).value > 0)
  {
  }

  /** Subtraction is integer subtraction of the coerced operands, and refuses any string. */
  lemma {:induction false} SubtractMeaning(l: Value, r: Value)
    ensures SubtractValues(l, r).Ok? <==> !l.StringValue? && !r.StringValue?
    ensures SubtractValues(l, r).Ok? ==>
      SubtractValues(l, r) == Ok(IntValue(Wrap32(AsInt(l).value - AsInt(r).value)))
  {
  }

  /** Multiplication of numbers is integer multiplication; a string may only stand on the left of an integer. */
  lemma {:induction false} MultiplyMeaning(l: Value, r: Value)
    ensures !l.StringValue? && !r.StringValue? ==>
      MultiplyValues(l, r) == Ok(IntValue(Wrap32(AsInt(l).value * AsInt(r).value)))
    ensures r.StringValue? ==> MultiplyValues(l, r).Err?
    ensures l.StringValue? && r.BoolValue? ==> MultiplyValues(l, r) == Err(ExpectedInt(l))
  {
  }

  /** Every comparison yields a boolean: the relation between the coerced operands, strings refused. */
  lemma {:induction false} CompareMeaning(op: Operator, l: Value, r: Value)
    requires op in {LessThan, GreaterThan, GreaterThanOrEq, LessThanOrEq, Equals}
    ensures Compare(op, l, r).Ok? <==> !l.StringValue? && !r.StringValue?
    ensures Compare(op, l, r).Ok? ==>
      Compare(op, l, r) == Ok(BoolValue(Relation(op, AsInt(l).value, AsInt(r).value)))
  {
  }

  /** The remainder of `m * c + j` by `m` is `j` when `j` is below `m`. */
  lemma {:induction false} ModOffset(m: int, c: int, j: int)
    requires m > 0 && c >= 0 && 0 <= j < m
    ensures (m * c + j) % m == j
  {
    var k := m * c + j;
    var q := k / m;
    var r := k % m;
    assert k == m * q + r;
    assert m * (q - c) == j - r;
    if q - c >= 1 {
      MulMonotone(q - c, 1, m);
    } else if q - c <= -1 {
      MulMonotone(c - q, 1, m);
    }
  }

  lemma {:induction false} MulMonotone(x: int, y: int, z: int)
    requires x >= y && z >= 0
    ensures x * z >= y * z
  {
    assert x * z - y * z == (x - y) * z;
  }

  /** A repeated string has `n` times the length of `s` and cycles through `s`. */
  lemma {:induction false} RepeatContents(s: string, n: nat)
    ensures |Repeat(s, n)| == |s| * n
    ensures forall k :: 0 <= k < |Repeat(s, n)| ==> Repeat(s, n)[k] == s[k % |s|]
  {
    if n > 0 {
      RepeatContents(s, n - 1);
      var prev := Repeat(s, n - 1);
      var whole := Repeat(s, n);
      assert whole == prev + s;
      assert |prev| == |s| * (n - 1);
      assert |whole| == |s| * n;
      forall k | 0 <= k < |whole|
        ensures whole[k] == s[k % |s|]
      {
        if k >= |prev| {
          ModOffset(|s|, n - 1, k - |prev|);
        }
      }
    }
  }

  /** `s * n` repeats `s` exactly when `n` is not negative. */
  lemma {:induction false} MultiplyStringRepeats(s: string, n: I32)
    ensures n >= 0 ==> MultiplyValues(StringValue(s), IntValue(n)) == Ok(StringValue(Repeat(s, n)))
    ensures n >= 0 ==> |Repeat(s, n)| == |s| * n
    ensures n < 0 ==> MultiplyValues(StringValue(s), IntValue(n)) == Err(NegativeRepeatCount(n))
  {
    if n >= 0 {
      RepeatContents(s, n);
    }
  }

  /** Dividing by at least two halves a natural number at least. */
  lemma {:induction false} QuotientHalves(n: nat, d: nat)
    requires d >= 2
    ensures 0 <= n / d && 2 * (n / d) <= n
  {
    var m := n / d;
    assert n == d * m + n % d;
    MulMonotone(d, 2, m);
  }

  /** The truncated quotient of two 32-bit integers fits in 32 bits, except `MinInt / -1`. */
  lemma {:induction false} TruncDivInRange(a: I32, b: I32)
    requires b != 0 && !(a == MinInt && b == -1)
    ensures MinInt <= TruncDiv(a, b) <= MaxInt
  {
    var n: nat := if a < 0 then -(a as int) else a;
    var d: nat := if b < 0 then -(b as int) else b;
    assert TruncDiv(a, b) == (if (a < 0) == (b < 0) then n / d else -(n / d));
    if d >= 2 {
      QuotientHalves(n, d);
    } else {
      assert n / d == n;
    }
  }

  /**
   * Integer division: an error exactly on a zero divisor, otherwise the
   * truncated quotient, which wraps only for `MinInt / -1`.
   */
  lemma {:induction false} DivideInts(a: I32, b: I32)
    ensures DivideValues(IntValue(a), IntValue(b)).Err? <==> b == 0
    ensures b == 0 ==> DivideValues(IntValue(a), IntValue(b)) == Err(DivisionByZero)
    ensures b != 0 && (a != MinInt || b != -1) ==>
      DivideValues(IntValue(a), IntValue(b)).Ok? &&
      DivideValues(IntValue(a), IntValue(b)).value.IntValue? &&
      DivideValues(IntValue(a), IntValue(b)).value.i == TruncDiv(a, b)
    ensures a == MinInt && b == -1 ==> DivideValues(IntValue(a), IntValue(b)) == Ok(IntValue(MinInt))
  {
    if b == 0 {
    } else if a == MinInt && b == -1 {
      assert TruncDiv(a, b) == 0x8000_0000;
      assert Wrap32(0x8000_0000) == MinInt;
    } else {
      TruncDivInRange(a, b);
      Wrap32Congruent(TruncDiv(a, b));
    }
  }

  /** Division in the coercion branch fails with the JVM's fault on a zero divisor. */
  lemma {:induction false} DivideByFalse(v: Value)
    requires !v.StringValue?
    ensures DivideValues(v, BoolValue(false)) == Err(ArithmeticFault)
  {
  }

  /** Booleans and integers meet under `&&`, `||` and `!` as their truthiness does. */
  lemma {:induction false} LogicOnTruthiness(l: Value, r: Value)
    requires !l.StringValue? && !r.StringValue?
    ensures AndValues(l, r) == Ok(BoolValue(Truthy(l) && Truthy(r)))
    ensures OrValues(l, r) == Ok(BoolValue(Truthy(l) || Truthy(r)))
    ensures NegValue(l) == Ok(BoolValue(!Truthy(l)))
  {
  }

  /** De Morgan's law holds for the table's `&&`, `||` and `!` wherever they are defined. */
  lemma {:induction false} DeMorgan(l: Value, r: Value)
    requires !l.StringValue? && !r.StringValue?
    ensures NegValue(AndValues(l, r).value) == OrValues(NegValue(l).value, NegValue(r).value)
  {
    LogicOnTruthiness(l, r);
    LogicOnTruthiness(NegValue(l).value, NegValue(r).value);
  }

  /**
   * `&&` and `||` convert their right side only when the left does not decide:
   * a false left makes any right side, even a string, give false.
   */
  lemma {:induction false} ShortCircuit(l: I32, r: Value)
    ensures l <= 0 ==> AndValues(IntValue(l), r) == Ok(BoolValue(false))
    ensures l > 0 ==> OrValues(IntValue(l), r) == Ok(BoolValue(true))
    ensures l > 0 && r.StringValue? ==> AndValues(IntValue(l), r) == Err(ExpectedBool(r))
  {
  }

  /** Swapping the operands of `<` gives `>`, with the same failures. */
  lemma {:induction false} LessThanFlips(l: Value, r: Value)
    ensures Compare(LessThan, l, r).Ok? <==> Compare(GreaterThan, r, l).Ok?
    ensures Compare(LessThan, l, r).Ok? ==> Compare(LessThan, l, r) == Compare(GreaterThan, r, l)
  {
  }

  /** `<=` is the negation of `>`, and `>=` that of `<`, wherever they are defined. */
  lemma {:induction false} ComparisonDuality(l: Value, r: Value)
    ensures Compare(LessThanOrEq, l, r).Ok? <==> Compare(GreaterThan, l, r).Ok?
    ensures Compare(LessThanOrEq, l, r).Ok? ==>
      Compare(LessThanOrEq, l, r).value.b == !Compare(GreaterThan, l, r).value.b
    ensures Compare(GreaterThanOrEq, l, r).Ok? ==>
      Compare(GreaterThanOrEq, l, r).value.b == !Compare(LessThan, l, r).value.b
  {
  }

  /** `==` is reflexive on integers and booleans and refuses strings. */
  lemma {:induction false} EqualsBehaviour(v: Value)
    ensures !v.StringValue? ==> Compare(Equals, v, v) == Ok(BoolValue(true))
    ensures v.StringValue? ==> Compare(Equals, v, v) == Err(Unsupported(Equals, v, Some(v)))
  {
  }
}
