/**
 * The combinator parser of parser/ParserC.kt. A `ParserC<T>` reads a value
 * of type `T` from a text at a position and gives the value with the
 * position after it, or nothing when it does not apply. Parsers are built
 * from `map`, `and` and `or` and the ready-made parsers of `Parsers`.
 *
 * Each ready-made parser agrees with the `Tokenizer` operation that reads
 * the same token, except that `stringLiteral` decodes the escapes that
 * `Tokenizer.string` leaves in place.
 */
module Combinators {
  import opened Common
  import opened Scanner

  /** `ParseResult`: the value read and the position just after it. */
  datatype ParseResult<+T> = ParseResult(value: T, position: nat)

  /** `ParserC<T>`: its `parse(input, position)`, with `null` as `None`. */
  type ParserC<!T> = (string, nat) -> Option<ParseResult<T>>

  /** `map`: the value transformed, the end position kept. */
  function Map<T, R>(p: ParserC<T>, transform: T -> R): ParserC<R> {
    (input: string, position: nat) =>
      var result := p(input, position);
      if result.None? then None
      else Some(ParseResult(transform(result.value.value), result.value.position))
  }

  /** `and`: the second parser runs from where the first one ended; the values are paired. */
  function And<T, R>(p: ParserC<T>, other: ParserC<R>): ParserC<(T, R)> {
    (input: string, position: nat) =>
      var first := p(input, position);
      if first.None? then None
      else
        var second := other(input, first.value.position);
        if second.None? then None
        else Some(ParseResult((first.value.value, second.value.value), second.value.position))
  }

  /** `or`: the second parser runs, from the same position, only when the first fails. */
  function Or<T>(p: ParserC<T>, other: ParserC<T>): ParserC<T> {
    (input: string, position: nat) =>
      var first := p(input, position);
      if first.Some? then first else other(input, position)
  }

  /** The parser that never applies. */
  function Fail<T>(): ParserC<T> {
    (input: string, position: nat) => None
  }

  /* The laws the combinators obey. */

  /** `map` fails exactly when its parser fails, keeps the end position and transforms only the value. */
  lemma {:induction false} MapKeepsPosition<T, R>(p: ParserC<T>, f: T -> R, input: string, position: nat)
    ensures Map(p, f)(input, position).Some? <==> p(input, position).Some?
    ensures p(input, position).Some? ==>
      Map(p, f)(input, position).value.position == p(input, position).value.position
      && Map(p, f)(input, position).value.value == f(p(input, position).value.value)
  {
  }

  /** Mapping the identity changes nothing. */
  lemma {:induction false} MapIdentity<T>(p: ParserC<T>, input: string, position: nat)
    ensures Map(p, (x: T) => x)(input, position) == p(input, position)
  {
  }

  /** Two maps in a row are one map of the composed transformation. */
  lemma {:induction false} MapFusion<T, R, U>(p: ParserC<T>, f: T -> R, g: R -> U, input: string, position: nat)
    ensures Map(Map(p, f), g)(input, position) == Map(p, (x: T) => g(f(x)))(input, position)
  {
  }

  /**
   * `and` succeeds exactly when the first parser succeeds and the second
   * succeeds from its end; it then ends where the second ended.
   */
  lemma {:induction false} AndThreadsPosition<T, R>(p: ParserC<T>, q: ParserC<R>, input: string, position: nat)
    ensures And(p, q)(input, position).Some? <==>
      p(input, position).Some? && q(input, p(input, position).value.position).Some?
    ensures And(p, q)(input, position).Some? ==>
      And(p, q)(input, position).value
        == ParseResult((p(input, position).value.value, q(input, p(input, position).value.position).value.value),
                       q(input, p(input, position).value.position).value.position)
  {
  }

  /** Regrouping a sequence of three parsers regroups the values and nothing else. */
  lemma {:induction false} AndAssociative<T, R, U>(p: ParserC<T>, q: ParserC<R>, r: ParserC<U>, input: string, position: nat)
    ensures Map(And(And(p, q), r), (x: ((T, R), U)) => (x.0.0, (x.0.1, x.1)))(input, position)
      == And(p, And(q, r))(input, position)
  {
  }

  /** `or` gives the first parser's result when there is one, else the second's from the same position. */
  lemma {:induction false} OrPrefersFirst<T>(p: ParserC<T>, q: ParserC<T>, input: string, position: nat)
    ensures p(input, position).Some? ==> Or(p, q)(input, position) == p(input, position)
    ensures p(input, position).None? ==> Or(p, q)(input, position) == q(input, position)
  {
  }

  /** Alternatives can be grouped either way. */
  lemma {:induction false} OrAssociative<T>(p: ParserC<T>, q: ParserC<T>, r: ParserC<T>, input: string, position: nat)
    ensures Or(Or(p, q), r)(input, position) == Or(p, Or(q, r))(input, position)
  {
  }

  /** A parser that never applies is a neutral alternative on either side. */
  lemma {:induction false} OrFailNeutral<T>(p: ParserC<T>, input: string, position: nat)
    ensures Or(Fail(), p)(input, position) == p(input, position)
    ensures Or(p, Fail())(input, position) == p(input, position)
  {
  }

  /** Transforming the alternatives is transforming their choice. */
  lemma {:induction false} MapOverOr<T, R>(p: ParserC<T>, q: ParserC<T>, f: T -> R, input: string, position: nat)
    ensures Map(Or(p, q), f)(input, position) == Or(Map(p, f), Map(q, f))(input, position)
  {
  }

  /* `Parsers`. */

  /** `Parsers.whitespace`: always applies, and ends at the first non-whitespace character. */
  function Whitespace(): ParserC<()> {
    (input: string, position: nat) => Some(ParseResult((), SkipWs(input, position)))
  }

  /** The loop of `Parsers.whitespace`. */
  method ParseWhitespace(input: string, position: nat) returns (r: Option<ParseResult<()>>)
    ensures r == Whitespace()(input, position)
    ensures r.Some? && position <= r.value.position
    ensures r.value.position < |input| ==> !IsWhitespace(input[r.value.position])
    ensures forall i :: position <= i < r.value.position ==> IsWhitespace(input[i])
  {
    var pos := position;
    while pos < |input| && IsWhitespace(input[pos])
      invariant position <= pos && SkipWs(input, position) == SkipWs(input, pos)
      decreases |input| - pos
    {
      pos := pos + 1;
    }
    r := Some(ParseResult((), pos));
  }

  /** `Parsers.string(s)`: `s` itself, when the input at the position starts with it. */
  function StringP(s: string): ParserC<string> {
    (input: string, position: nat) =>
      if position + |s| > |input| then None
      else if input[position..position + |s|] == s then Some(ParseResult(s, position + |s|))
      else None
  }

  /** `string(s)` applies exactly where `Tokenizer.match(s)` does, and ends at the same place. */
  lemma {:induction false} StringAgreesWithMatch(s: string, input: string, position: nat)
    ensures StringP(s)(input, position).Some? <==> MatchAt(input, position, s).Some?
    ensures StringP(s)(input, position).Some? ==>
      StringP(s)(input, position).value == ParseResult(s, MatchAt(input, position, s).value)
  {
  }

  /** `String.toBoolean()` on the two texts `boolean` can see. */
  function ToBoolean(t: string): bool {
    t == "true"
  }

  /** `Parsers.boolean`: `true` or `false` as a plain prefix. */
  function Boolean(): ParserC<bool> {
    Map(Or(StringP("true"), StringP("false")), ToBoolean)
  }

  /** `boolean` reads what `Tokenizer.boolean` reads, and stops where it stops. */
  lemma {:induction false} BooleanAgreesWithTokenizer(input: string, position: nat)
    ensures Boolean()(input, position).Some? <==> BooleanAt(input, position).value.Some?
    ensures Boolean()(input, position).Some? ==>
      Boolean()(input, position).value
        == ParseResult(BooleanAt(input, position).value.value, BooleanAt(input, position).pos)
  {
    StringAgreesWithMatch("true", input, position);
    StringAgreesWithMatch("false", input, position);
    var either := Or(StringP("true"), StringP("false"))(input, position);
    if either.Some? {
      assert "false" != "true" by {
        assert "false"[0] != "true"[0];
      }
      assert Boolean()(input, position).value == ParseResult(ToBoolean(either.value.value), either.value.position);
    }
  }

  /** The character a backslash escape stands for: `\n`, `\t` and `\r` are decoded, any other is itself. */
  function Escape(c: char): char {
    if c == 'n' then '\n' else if c == 't' then '\t' else if c == 'r' then '\r' else c
  }

  /**
   * The decoded characters of a literal from `i` up to its closing `quote`:
   * a backslash with a character after it stands for `Escape` of that
   * character.
   */
  function Decoded(s: string, quote: char, i: nat): string
    decreases |s| - i
  {
    if i < |s| && s[i] != quote then
      if s[i] == '\\' && i + 1 < |s| then [Escape(s[i + 1])] + Decoded(s, quote, i + 2)
      else [s[i]] + Decoded(s, quote, i + 1)
    else []
  }

  /** `Parsers.stringLiteral` at a position. */
  function StringLiteralAt(input: string, position: nat): Option<ParseResult<string>> {
    if position >= |input| || !IsQuote(input[position]) then None
    else
      var quote := input[position];
      var e := QuoteEnd(input, quote, position + 1);
      if e < |input| then Some(ParseResult(Decoded(input, quote, position + 1), e + 1)) else None
  }

  /** `Parsers.stringLiteral`. */
  function StringLiteral(): ParserC<string> {
    (input: string, position: nat) => StringLiteralAt(input, position)
  }

  /** The loop of `Parsers.stringLiteral`, building the decoded text. */
  method ParseStringLiteral(input: string, position: nat) returns (r: Option<ParseResult<string>>)
    ensures r == StringLiteralAt(input, position)
  {
    if position >= |input| {
      return None;
    }
    var quote := input[position];
    if quote != '"' && quote != '\'' {
      return None;
    }
    var pos := position + 1;
    var sb := "";
    while pos < |input| && input[pos] != quote
      invariant position + 1 <= pos <= |input|
      invariant QuoteEnd(input, quote, position + 1) == QuoteEnd(input, quote, pos)
      invariant Decoded(input, quote, position + 1) == sb + Decoded(input, quote, pos)
      decreases |input| - pos
    {
      DecodedStep(input, quote, pos);
      ghost var before := sb;
      ghost var after := if input[pos] == '\\' && pos + 1 < |input| then pos + 2 else pos + 1;
      if input[pos] == '\\' && pos + 1 < |input| {
        pos := pos + 1;
        sb := sb + [Escape(input[pos])];
      } else {
        sb := sb + [input[pos]];
      }
      pos := pos + 1;
      AppendAssociative(before, [sb[|sb| - 1]], Decoded(input, quote, after));
      assert sb == before + [sb[|sb| - 1]];
    }
    assert QuoteEnd(input, quote, pos) == pos && Decoded(input, quote, pos) == [];
    assert sb + [] == sb;
    if pos < |input| && input[pos] == quote {
      r := Some(ParseResult(sb, pos + 1));
    } else {
      r := None;
    }
  }

  lemma {:induction false} AppendAssociative<T>(a: seq<T>, b: seq<T>, c: seq<T>)
    ensures (a + b) + c == a + (b + c)
  {
  }

  /** One step of decoding: one character, or a backslash and the character after it. */
  lemma {:induction false} DecodedStep(s: string, quote: char, i: nat)
    requires i < |s| && s[i] != quote
    ensures var escaped := s[i] == '\\' && i + 1 < |s|;
      var next := if escaped then i + 2 else i + 1;
      Decoded(s, quote, i) == [if escaped then Escape(s[i + 1]) else s[i]] + Decoded(s, quote, next)
      && QuoteEnd(s, quote, i) == QuoteEnd(s, quote, next)
  {
  }

  /** Decoding of the raw text of a literal, read on its own. */
  function Unescape(t: string): string
    decreases |t|
  {
    if t == [] then []
    else if t[0] == '\\' && |t| > 1 then [Escape(t[1])] + Unescape(t[2..])
    else [t[0]] + Unescape(t[1..])
  }

  /** Up to a closing quote, decoding at the cursor is decoding the raw text between. */
  lemma {:induction false} DecodedIsUnescape(s: string, quote: char, i: nat)
    requires i <= QuoteEnd(s, quote, i) < |s|
    ensures Decoded(s, quote, i) == Unescape(s[i..QuoteEnd(s, quote, i)])
    decreases |s| - i
  {
    var e := QuoteEnd(s, quote, i);
    var t := s[i..e];
    if i < |s| && s[i] != quote {
      if s[i] == '\\' && i + 1 < |s| {
        DecodedIsUnescape(s, quote, i + 2);
        assert t[2..] == s[i + 2..e];
      } else {
        DecodedIsUnescape(s, quote, i + 1);
        assert t[1..] == s[i + 1..e];
      }
    }
  }

  /**
   * `stringLiteral` applies exactly where `Tokenizer.string` does, ends at
   * the same place (one past the closing quote) and gives the decoded form
   * of the raw text `Tokenizer.string` returns. Both fail on a literal that
   * is not closed.
   */
  lemma {:induction false} StringLiteralAgreesWithTokenizer(input: string, position: nat)
    ensures StringLiteralAt(input, position).Some? <==> StringRaw(input, position).value.Some?
    ensures StringLiteralAt(input, position).Some? ==>
      StringLiteralAt(input, position).value
        == ParseResult(Unescape(StringRaw(input, position).value.value), StringRaw(input, position).pos)
  {
    if position < |input| && IsQuote(input[position]) && QuoteEnd(input, input[position], position + 1) < |input| {
      DecodedIsUnescape(input, input[position], position + 1);
    }
  }

  /** How a character is written inside a literal closed by `quote`. */
  function EncodeChar(c: char, quote: char): string {
    if c == '\n' then "\\n"
    else if c == '\t' then "\\t"
    else if c == '\r' then "\\r"
    else if c == '\\' || c == quote then ['\\', c]
    else [c]
  }

  /** A text written as the body of a literal closed by `quote`. */
  function Encode(t: string, quote: char): string {
    if t == [] then [] else EncodeChar(t[0], quote) + Encode(t[1..], quote)
  }

  /** An encoded character is read back as that character. */
  lemma {:induction false} EncodedCharStep(s: string, quote: char, i: nat, c: char)
    requires IsQuote(quote)
    requires i + |EncodeChar(c, quote)| < |s| && s[i..i + |EncodeChar(c, quote)|] == EncodeChar(c, quote)
    ensures var n := i + |EncodeChar(c, quote)|;
      QuoteEnd(s, quote, i) == QuoteEnd(s, quote, n) && Decoded(s, quote, i) == [c] + Decoded(s, quote, n)
  {
    var e := EncodeChar(c, quote);
    assert s[i] == e[0];
    if |e| == 2 {
      assert s[i + 1] == e[1];
    }
    DecodedStep(s, quote, i);
  }

  /** The two halves of a slice that spells a concatenation. */
  lemma {:induction false} SliceOfAppend(s: string, i: nat, a: string, b: string)
    requires i + |a| + |b| <= |s| && s[i..i + |a| + |b|] == a + b
    ensures s[i..i + |a|] == a && s[i + |a|..i + |a| + |b|] == b
  {
    assert s[i..i + |a|] == s[i..i + |a| + |b|][..|a|];
    assert s[i + |a|..i + |a| + |b|] == s[i..i + |a| + |b|][|a|..];
  }

  /** An encoded body as it sits in `s` from `i`, with the closing `quote` after it. */
  predicate EncodedAt(s: string, quote: char, i: nat, t: string) {
    i + |Encode(t, quote)| < |s| && s[i..i + |Encode(t, quote)|] == Encode(t, quote)
    && s[i + |Encode(t, quote)|] == quote
  }

  /** An encoded body that is not empty is its first character's encoding, then the rest's. */
  lemma {:induction false} EncodedAtStep(s: string, quote: char, i: nat, t: string)
    requires t != [] && EncodedAt(s, quote, i, t)
    ensures var e := EncodeChar(t[0], quote);
      i + |e| < |s| && s[i..i + |e|] == e && EncodedAt(s, quote, i + |e|, t[1..])
  {
    var e := EncodeChar(t[0], quote);
    var more := Encode(t[1..], quote);
    assert Encode(t, quote) == e + more;
    SliceOfAppend(s, i, e, more);
  }

  /** Reading an encoded body stops at the quote after it... */
  lemma {:induction false} QuoteEndOfEncoded(s: string, quote: char, i: nat, t: string)
    requires IsQuote(quote) && EncodedAt(s, quote, i, t)
    ensures QuoteEnd(s, quote, i) == i + |Encode(t, quote)|
    decreases t
  {
    if t != [] {
      var e := EncodeChar(t[0], quote);
      EncodedAtStep(s, quote, i, t);
      EncodedCharStep(s, quote, i, t[0]);
      QuoteEndOfEncoded(s, quote, i + |e|, t[1..]);
      assert Encode(t, quote) == e + Encode(t[1..], quote);
    }
  }

  /** ...and decodes the text back. */
  lemma {:induction false} DecodesEncoded(s: string, quote: char, i: nat, t: string)
    requires IsQuote(quote) && EncodedAt(s, quote, i, t)
    ensures Decoded(s, quote, i) == t
    decreases t
  {
    if t != [] {
      var e := EncodeChar(t[0], quote);
      EncodedAtStep(s, quote, i, t);
      EncodedCharStep(s, quote, i, t[0]);
      DecodesEncoded(s, quote, i + |e|, t[1..]);
      calc {
        Decoded(s, quote, i);
        [t[0]] + Decoded(s, quote, i + |e|);
        [t[0]] + t[1..];
        t;
      }
    } else {
      assert s[i] == quote;
    }
  }

  /** `stringLiteral` reads back every text written as a literal, in either kind of quote. */
  lemma {:induction false} StringLiteralReadsEncoded(quote: char, t: string, rest: string)
    requires IsQuote(quote)
    ensures StringLiteralAt([quote] + Encode(t, quote) + [quote] + rest, 0)
      == Some(ParseResult(t, |Encode(t, quote)| + 2))
  {
    var s := [quote] + Encode(t, quote) + [quote] + rest;
    assert s[1..1 + |Encode(t, quote)|] == Encode(t, quote);
    QuoteEndOfEncoded(s, quote, 1, t);
    DecodesEncoded(s, quote, 1, t);
  }
}
