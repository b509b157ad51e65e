/**
 * The scanner cursor of parser/Tokenizer.kt: an integer position over the
 * source text and the lexical reads that advance it.
 *
 * Each read is first given as a function from (text, position) to what it
 * returns and where the cursor ends (a `Scan`), and the class `Tokenizer`
 * then performs the same reads with loops over its mutable `position`,
 * proved equal to those functions.
 */
module Scanner {
  import opened Common

  /* Character classes, restricted to ASCII. */

  /** Kotlin `Char.isWhitespace()` on ASCII: TAB..CR, FS..US and space. */
  predicate IsWhitespace(c: char) {
    9 <= c as int <= 13 || 28 <= c as int <= 32
  }

  predicate IsLetter(c: char) {
    'a' <= c <= 'z' || 'A' <= c <= 'Z'
  }

  /** `isJavaScriptIdentifierStart`: a letter, `_` or `$`. */
  predicate IsIdentStart(c: char) {
    IsLetter(c) || c == '_' || c == '$'
  }

  /** `isJavaScriptIdentifierPart`: an identifier start or a digit. */
  predicate IsIdentPart(c: char) {
    IsIdentStart(c) || IsDigit(c)
  }

  predicate IsIdentifier(name: string) {
    |name| >= 1 && IsIdentStart(name[0]) && forall i :: 1 <= i < |name| ==> IsIdentPart(name[i])
  }

  /** What a read returned (null is `None`) and where the cursor is afterwards. */
  datatype Scan<T> = Scan(value: Option<T>, pos: nat)

  /** `hasMore()`. */
  predicate HasMoreAt(s: string, p: nat) {
    p < |s|
  }

  /** `skipWhitespace()`: the first position at or after `p` that is not whitespace. */
  function SkipWs(s: string, p: nat): (q: nat)
    ensures p <= q
    ensures q > p ==> q <= |s|
    ensures forall i :: p <= i < q ==> IsWhitespace(s[i])
    ensures q < |s| ==> !IsWhitespace(s[q])
    decreases |s| - p
  {
    if p < |s| && IsWhitespace(s[p]) then SkipWs(s, p + 1) else p
  }

  /** `match(lit)`: the position after `lit` when the text at `p` starts with it. */
  function MatchAt(s: string, p: nat, lit: string): (r: Option<nat>)
  {
    if p + |lit| <= |s| && s[p..p + |lit|] == lit then Some(p + |lit|) else None
  }

  /** `peek()`. */
  function PeekAt(s: string, p: nat): Option<char> {
    if p < |s| then Some(s[p]) else None
  }

  /** End of the run of identifier characters that starts at `i`. */
  function IdentEnd(s: string, i: nat): (e: nat)
    ensures i <= e && (e > i ==> e <= |s|)
    ensures forall k :: i <= k < e ==> IsIdentPart(s[k])
    ensures e < |s| ==> !IsIdentPart(s[e])
    decreases |s| - i
  {
    if i < |s| && IsIdentPart(s[i]) then IdentEnd(s, i + 1) else i
  }

  /** `identifier()`. */
  function IdentifierAt(s: string, p: nat): Scan<string> {
    if p >= |s| || !IsIdentStart(s[p]) then Scan(None, p)
    else
      var e := IdentEnd(s, p + 1);
      Scan(Some(s[p..e]), e)
  }

  /** End of the run of digits that starts at `i`. */
  function DigitEnd(s: string, i: nat): (e: nat)
    ensures i <= e && (e > i ==> e <= |s|)
    ensures forall k :: i <= k < e ==> IsDigit(s[k])
    ensures e < |s| ==> !IsDigit(s[e])
    decreases |s| - i
  {
    if i < |s| && IsDigit(s[i]) then DigitEnd(s, i + 1) else i
  }

  /**
   * `number()`: an optional `-` and a maximal run of digits. A `-` with no
   * digit after it is given back; a literal that does not fit in 32 bits
   * reads as null with the cursor left after its digits.
   */
  function NumberAt(s: string, p: nat): Scan<I32> {
    if p >= |s| then Scan(None, p)
    else
      var start := if s[p] == '-' then p + 1 else p;
      if start >= |s| || !IsDigit(s[start]) then Scan(None, p)
      else
        var e := DigitEnd(s, start);
        Scan(ToIntOrNull(s[p..e]), e)
  }

  /**
   * Index of the closing `quote` at or after `i`, or the end of the text;
   * a backslash and the character after it are stepped over together.
   */
  function QuoteEnd(s: string, quote: char, i: nat): (e: nat)
    ensures i <= e && (e > i ==> e <= |s|)
    ensures e < |s| ==> s[e] == quote
    decreases |s| - i
  {
    if i < |s| && s[i] != quote then
      if s[i] == '\\' && i + 1 < |s| then QuoteEnd(s, quote, i + 2) else QuoteEnd(s, quote, i + 1)
    else i
  }

  predicate IsQuote(c: char) {
    c == '"' || c == '\''
  }

  /**
   * `string()`: the raw text between matching quotes (escapes are skipped,
   * not decoded); an unterminated literal reads as null with the cursor at
   * the end of the text.
   */
  function StringRaw(s: string, p: nat): Scan<string> {
    if p >= |s| || !IsQuote(s[p]) then Scan(None, p)
    else
      var e := QuoteEnd(s, s[p], p + 1);
      if e >= |s| then Scan(None, e) else Scan(Some(s[p + 1..e]), e + 1)
  }

  /** `boolean()`: `true` or `false` as a plain prefix. */
  function BooleanAt(s: string, p: nat): Scan<bool> {
    if p + 4 <= |s| && s[p..p + 4] == "true" then Scan(Some(true), p + 4)
    else if p + 5 <= |s| && s[p..p + 5] == "false" then Scan(Some(false), p + 5)
    else Scan(None, p)
  }

  /* Reading back what is written: each read recovers the token it is given. */

  /** The decimal text of every 32-bit integer reads back as that integer. */
  lemma {:induction false} NumberReadsIntToString(n: I32, rest: string)
    requires rest == [] || !IsDigit(rest[0])
    ensures NumberAt(IntToString(n) + rest, 0) == Scan(Some(n), |IntToString(n)|)
  {
    var t := IntToString(n);
    var s := t + rest;
    var start := if n < 0 then 1 else 0;
    IntToStringDigits(n);
    IntToStringRoundTrip(n);
    assert forall k :: start <= k < |t| ==> IsDigit(s[k]) by {
      forall k | start <= k < |t| ensures IsDigit(s[k]) {
        assert s[k] == t[k];
      }
    }
    assert |t| < |s| ==> s[|t|] == rest[0];
    assert DigitEnd(s, start) == |t|;
    assert s[0..|t|] == t;
  }

  /** After an optional minus sign, the decimal form of an integer is all digits. */
  lemma {:induction false} IntToStringDigits(n: I32)
    ensures n < 0 ==> 2 <= |IntToString(n)|
    ensures forall k :: (if n < 0 then 1 else 0) <= k < |IntToString(n)| ==> IsDigit(IntToString(n)[k])
  {
    var t := IntToString(n);
    var digits := if n < 0 then NatToString(-(n as int)) else NatToString(n);
    assert t == (if n < 0 then "-" else "") + digits;
    if n < 0 {
      assert forall k :: 1 <= k < |t| ==> t[k] == digits[k - 1];
    }
  }

  /** IdentEnd stops exactly where the run of identifier characters stops. */
  lemma {:induction false} IdentEndOfRun(s: string, i: nat, j: nat)
    requires i <= j <= |s|
    requires forall k :: i <= k < j ==> IsIdentPart(s[k])
    requires j < |s| ==> !IsIdentPart(s[j])
    ensures IdentEnd(s, i) == j
    decreases j - i
  {
    if i < j {
      IdentEndOfRun(s, i + 1, j);
    }
  }

  /** A well-formed identifier reads back whole when no identifier character follows it. */
  lemma {:induction false} IdentifierReadsName(name: string, rest: string)
    requires IsIdentifier(name)
    requires rest == [] || !IsIdentPart(rest[0])
    ensures IdentifierAt(name + rest, 0) == Scan(Some(name), |name|)
  {
    var s := name + rest;
    assert forall k :: 1 <= k < |name| ==> s[k] == name[k];
    if |name| < |s| {
      assert s[|name|] == rest[0];
    }
    IdentEndOfRun(s, 1, |name|);
    assert s[0..|name|] == name;
  }

  /** QuoteEnd stops at the first closing quote of a run free of quotes and backslashes. */
  lemma {:induction false} QuoteEndOfPlainRun(s: string, quote: char, i: nat, j: nat)
    requires i <= j < |s| && s[j] == quote
    requires forall k :: i <= k < j ==> s[k] != quote && s[k] != '\\'
    ensures QuoteEnd(s, quote, i) == j
    decreases j - i
  {
    if i < j {
      QuoteEndOfPlainRun(s, quote, i + 1, j);
    }
  }

  /** Text without quotes or backslashes, written between quotes, reads back unchanged. */
  lemma {:induction false} StringRawReadsQuoted(quote: char, text: string, rest: string)
    requires IsQuote(quote)
    requires forall k :: 0 <= k < |text| ==> text[k] != quote && text[k] != '\\'
    ensures StringRaw([quote] + text + [quote] + rest, 0) == Scan(Some(text), |text| + 2)
  {
    var s := [quote] + text + [quote] + rest;
    assert forall k :: 1 <= k < |text| + 1 ==> s[k] == text[k - 1];
    QuoteEndOfPlainRun(s, quote, 1, |text| + 1);
    assert s[1..|text| + 1] == text;
  }

  /** `match(lit)` succeeds exactly when the characters at `p` are those of `lit`, and then steps over them. */
  lemma {:induction false} MatchReadsLiteral(s: string, p: nat, lit: string)
    ensures MatchAt(s, p, lit).Some? <==>
      p + |lit| <= |s| && forall i :: 0 <= i < |lit| ==> s[p + i] == lit[i]
    ensures MatchAt(s, p, lit).Some? ==> MatchAt(s, p, lit).value == p + |lit|
  {
    if p + |lit| <= |s| && forall i :: 0 <= i < |lit| ==> s[p + i] == lit[i] {
      assert s[p..p + |lit|] == lit;
    }
  }

  /**
   * The boolean read takes `true` or `false` with no word boundary after it,
   * so a name such as `truthy` reads as the literal `true` followed by `thy`.
   */
  lemma {:induction false} BooleanReadsPrefix(b: bool, rest: string)
    ensures var lit := if b then "true" else "false";
      BooleanAt(lit + rest, 0) == Scan(Some(b), |lit|)
  {
    var lit := if b then "true" else "false";
    var s := lit + rest;
    assert s[0..|lit|] == lit;
    if !b {
      assert s[0..4] != "true" by { assert s[0] == 'f'; }
    }
  }

  /** The mutable cursor of parser/Tokenizer.kt. */
  class Tokenizer {
    const input: string
    var position: nat

    constructor (input: string)
      ensures this.input == input && position == 0
    {
      this.input := input;
      position := 0;
    }

    method HasMore() returns (b: bool)
      ensures b == HasMoreAt(input, position)
    {
      b := position < |input|;
    }

    method SkipWhitespace()
      modifies this
      ensures position == SkipWs(input, old(position))
    {
      while position < |input| && IsWhitespace(input[position])
        invariant SkipWs(input, position) == SkipWs(input, old(position))
        decreases |input| - position
      {
        position := position + 1;
      }
    }

    method Match(lit: string) returns (b: bool)
      modifies this
      ensures b == MatchAt(input, old(position), lit).Some?
      ensures position == MatchAt(input, old(position), lit).GetOr(old(position))
    {
      if position + |lit| > |input| {
        return false;
      }
      if input[position..position + |lit|] != lit {
        return false;
      }
      position := position + |lit|;
      return true;
    }

    method Peek() returns (c: Option<char>)
      ensures c == PeekAt(input, position)
    {
      c := if position < |input| then Some(input[position]) else None;
    }

    method Identifier() returns (name: Option<string>)
      modifies this
      ensures IdentifierAt(input, old(position)) == Scan(name, position)
    {
      if position >= |input| {
        return None;
      }
      if !IsIdentStart(input[position]) {
        return None;
      }
      var start := position;
      position := position + 1;
      while position < |input| && IsIdentPart(input[position])
        invariant start < position
        invariant IdentEnd(input, position) == IdentEnd(input, start + 1)
        decreases |input| - position
      {
        position := position + 1;
      }
      name := Some(input[start..position]);
    }

    method Number() returns (n: Option<I32>)
      modifies this
      ensures NumberAt(input, old(position)) == Scan(n, position)
    {
      if position >= |input| {
        return None;
      }
      var isNegative := input[position] == '-';
      if isNegative {
        position := position + 1;
      }
      if position >= |input| || !IsDigit(input[position]) {
        if isNegative {
          position := position - 1;
        }
        return None;
      }
      var start := position;
      while position < |input| && IsDigit(input[position])
        invariant start <= position
        invariant DigitEnd(input, position) == DigitEnd(input, start)
        decreases |input| - position
      {
        position := position + 1;
      }
      var numStr := input[if isNegative then start - 1 else start..position];
      n := ToIntOrNull(numStr);
    }

    method String() returns (text: Option<string>)
      modifies this
      ensures StringRaw(input, old(position)) == Scan(text, position)
    {
      if position >= |input| {
        return None;
      }
      var quote := input[position];
      if quote != '"' && quote != '\'' {
        return None;
      }
      position := position + 1;
      var start := position;
      while position < |input| && input[position] != quote
        invariant start <= position
        invariant QuoteEnd(input, quote, position) == QuoteEnd(input, quote, start)
        decreases |input| - position
      {
        if input[position] == '\\' && position + 1 < |input| {
          position := position + 2;
        } else {
          position := position + 1;
        }
      }
      if position >= |input| {
        return None;
      }
      text := Some(input[start..position]);
      position := position + 1;
    }

    method Boolean() returns (b: Option<bool>)
      modifies this
      ensures BooleanAt(input, old(position)) == Scan(b, position)
    {
      if position + 4 <= |input| && input[position..position + 4] == "true" {
        position := position + 4;
        return Some(true);
      }
      if position + 5 <= |input| && input[position..position + 5] == "false" {
        position := position + 5;
        return Some(false);
      }
      return None;
    }
  }
}
