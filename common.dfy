/**
 * Small shared vocabulary: optional values, results with an error side,
 * Kotlin's 32-bit `Int`, and the decimal rendering and reading of integers
 * that `Int.toString()` and `String.toIntOrNull()` perform.
 */
module Common {

  datatype Option<+T> = None | Some(value: T) {
    function GetOr(default: T): T {
      match this
      case Some(v) => v
      case None => default
    }
  }

  datatype Result<+T, +E> = Ok(value: T) | Err(error: E)

  /** Kotlin `Int`: two's-complement 32-bit. */
  const MinInt: int := -0x8000_0000
  const MaxInt: int := 0x7FFF_FFFF
  type I32 = x: int | MinInt <= x <= MaxInt

  /** The 32-bit wrap-around that JVM `iadd`, `isub`, `imul` and `idiv` apply. */
  function Wrap32(x: int): (r: I32)
  {
    (x - MinInt) % 0x1_0000_0000 + MinInt
  }

  /** Wrapping keeps the value modulo 2^32 and leaves values already in range alone. */
  lemma {:induction false} Wrap32Congruent(x: int)
    ensures (Wrap32(x) - x) % 0x1_0000_0000 == 0
    ensures MinInt <= x <= MaxInt ==> Wrap32(x) == x
  {
    var k := (x - MinInt) / 0x1_0000_0000;
    assert x - MinInt == 0x1_0000_0000 * k + (x - MinInt) % 0x1_0000_0000;
    assert Wrap32(x) - x == -0x1_0000_0000 * k;
  }

  /** JVM integer division: the quotient of the magnitudes, negated when the signs differ. */
  function TruncDiv(a: int, b: int): int
    requires b != 0
  {
    var n := if a < 0 then -a else a;
    var d := if b < 0 then -b else b;
    if (a < 0) == (b < 0) then n / d else -(n / d)
  }

  /**
   * The quotient truncates toward zero: the remainder is smaller than the
   * divisor in magnitude and has the sign of the dividend.
   */
  lemma {:induction false} TruncDivRemainder(a: int, b: int)
    requires b != 0
    ensures var rem := a - b * TruncDiv(a, b);
      (if rem < 0 then -rem else rem) < (if b < 0 then -b else b) &&
      (rem == 0 || (rem < 0 <==> a < 0))
  {
    var n := if a < 0 then -a else a;
    var d := if b < 0 then -b else b;
    var m := n / d;
    assert n == d * m + n % d;
  }

  predicate IsDigit(c: char) {
    '0' <= c <= '9'
  }

  function DigitChar(d: nat): (c: char)
    requires d < 10
    ensures IsDigit(c) && c as int - '0' as int == d
  {
    ('0' as int + d) as char
  }

  function DigitValue(c: char): (d: nat)
    requires IsDigit(c)
    ensures d < 10
  {
    c as int - '0' as int
  }

  predicate AllDigits(s: string) {
    forall i :: 0 <= i < |s| ==> IsDigit(s[i])
  }

  /** The value of a run of decimal digits, most significant first. */
  function DigitsValue(s: string): nat
    requires AllDigits(s)
  {
    if s == [] then 0
    else DigitsValue(s[..|s| - 1]) * 10 + DigitValue(s[|s| - 1])
  }

  /** `n.toString()` for a non-negative `n`: no sign, no leading zeros. */
  function NatToString(n: nat): (s: string)
    ensures 1 <= |s| && AllDigits(s)
    ensures |s| > 1 ==> s[0] != '0'
  {
    if n < 10 then [DigitChar(n)] else NatToString(n / 10) + [DigitChar(n % 10)]
  }

  /** `Int.toString()`: a leading `-` for negative values. */
  function IntToString(n: int): (s: string)
    ensures 1 <= |s|
    ensures n < 0 <==> s[0] == '-'
  {
    if n < 0 then "-" + NatToString(-(n as int)) else NatToString(n)
  }

  /** Reading back what NatToString writes gives the number again. */
  lemma {:induction false} NatToStringRoundTrip(n: nat)
    ensures DigitsValue(NatToString(n)) == n
  {
    if n >= 10 {
      var s := NatToString(n);
      assert s[..|s| - 1] == NatToString(n / 10);
      NatToStringRoundTrip(n / 10);
    }
  }

  /**
   * Kotlin `String.toIntOrNull()` (radix 10, ASCII digits): an optional
   * sign followed by at least one digit, and a value that fits in 32 bits;
   * anything else is null.
   */
  function ToIntOrNull(s: string): (r: Option<I32>)
    ensures r.Some? ==> 1 <= |s|
  {
    if s == [] then None
    else
      var neg := s[0] == '-';
      var body := if s[0] == '-' || s[0] == '+' then s[1..] else s;
      if body == [] || !AllDigits(body) then None
      else
        var magnitude: int := DigitsValue(body);
        var v := if neg then -magnitude else magnitude;
        if MinInt <= v <= MaxInt then Some(v) else None
  }

  /** Every 32-bit integer survives the trip through its decimal text. */
  lemma {:induction false} IntToStringRoundTrip(n: I32)
    ensures ToIntOrNull(IntToString(n)) == Some(n)
  {
    var s := IntToString(n);
    if n < 0 {
      var m: nat := -(n as int);
      var digits := NatToString(m);
      NatToStringRoundTrip(m);
      assert s[0] == '-' && s[1..] == digits;
      assert DigitsValue(digits) == m;
    } else {
      var digits := NatToString(n);
      NatToStringRoundTrip(n);
      assert s == digits && IsDigit(s[0]);
      assert DigitsValue(digits) == n;
    }
  }
}
