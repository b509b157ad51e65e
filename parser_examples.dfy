/**
 * The tree shapes and the errors parser/Parser.kt gives on small inputs:
 * operator precedence and left folding, parentheses, the rejected forms of
 * assignment, function bodies with and without `return`, the silent stop of
 * `parse` and the plain-prefix reading of keywords.
 *
 * Each example is proved for any text that spells it character by
 * character, through small lemmas that follow the parse one call at a time,
 * and then stated for the text itself.
 */
module ParserExamples {
  import opened Common
  import opened Values
  import opened Ast
  import opened Scanner
  import opened Grammar

  function Var(name: string): Expression {
    VariableReference(name)
  }

  /* Steps of a parse, each for any text. */

  /** Matching a one-character literal compares one character. */
  lemma {:induction false} MatchChar(s: string, q: nat, c: char)
    ensures MatchAt(s, q, [c]) == if q < |s| && s[q] == c then Some(q + 1) else None
  {
    if q < |s| && s[q] == c {
      assert s[q..q + 1] == [c];
    }
  }

  lemma {:induction false} CharMatches(s: string, q: nat, c: char)
    requires q < |s| && s[q] == c
    ensures MatchAt(s, q, [c]) == Some(q + 1)
  {
    assert s[q..q + 1] == [c];
  }

  lemma {:induction false} CharDiffers(s: string, q: nat, c: char)
    requires q < |s| && s[q] != c
    ensures MatchAt(s, q, [c]) == None
  {
    assert s[q..q + 1][0] != c;
  }

  /** A keyword does not match where its first letter is not. */
  lemma {:induction false} KeywordAbsent(s: string, q: nat, kw: string)
    requires kw != [] && (q >= |s| || s[q] != kw[0])
    ensures MatchAt(s, q, kw) == None
  {
    if q + |kw| <= |s| {
      assert s[q..q + |kw|][0] == s[q];
    }
  }

  /** A one-letter identifier. */
  lemma {:induction false} LetterAt(s: string, p: nat)
    requires p < |s| && IsLetter(s[p])
    requires p + 1 < |s| ==> !IsIdentPart(s[p + 1])
    ensures IdentifierAt(s, p) == Scan(Some(s[p..p + 1]), p + 1)
  {
    assert IdentEnd(s, p + 1) == p + 1;
  }

  /**
   * A one-letter variable that is neither `t` nor `f` (which could start a
   * boolean) and is not followed by an identifier character or `(`.
   */
  lemma {:induction false} VariableAt(s: string, p: nat)
    requires p < |s| && IsLetter(s[p]) && s[p] != 't' && s[p] != 'f'
    requires p + 1 < |s| ==> !IsIdentPart(s[p + 1]) && s[p + 1] != '('
    ensures ParsePrimary(s, p) == Parsed(Some(Var(s[p..p + 1])), p + 1)
  {
    assert SkipWs(s, p) == p;
    LetterAt(s, p);
    MatchChar(s, p + 1, '(');
    assert p + 4 <= |s| ==> s[p..p + 4][0] == s[p];
    assert p + 5 <= |s| ==> s[p..p + 5][0] == s[p];
  }

  /** A primary whose first character, after white space, starts no literal and no name. */
  lemma {:induction false} PrimaryNotLiteral(s: string, p: nat)
    requires p <= |s|
    requires var q := SkipWs(s, p);
      q < |s| ==> !IsDigit(s[q]) && s[q] != '-' && !IsQuote(s[q]) && !IsIdentStart(s[q])
    ensures ParsePrimary(s, p) == ParseParenthesised(s, SkipWs(s, p))
  {
    var q := SkipWs(s, p);
    assert NumberAt(s, q) == Scan(None, q);
    assert StringRaw(s, q) == Scan(None, q);
    assert q + 4 <= |s| ==> s[q..q + 4][0] == s[q];
    assert q + 5 <= |s| ==> s[q..q + 5][0] == s[q];
    assert BooleanAt(s, q) == Scan(None, q);
    assert IdentifierAt(s, q).value.None?;
  }

  lemma {:induction false} MultiplicativeOf(s: string, p: nat, e: Expression, q: nat)
    requires p <= |s| && ParsePrimary(s, p) == Parsed(Some(e), q)
    ensures ParseMultiplicative(s, p) == MultiplicativeRest(s, q, e)
  {
  }

  lemma {:induction false} AdditiveOf(s: string, p: nat, e: Expression, q: nat)
    requires p <= |s| && ParseMultiplicative(s, p) == Parsed(Some(e), q)
    ensures ParseAdditive(s, p) == AdditiveRest(s, q, e)
  {
  }

  /** The fold of `*` and `/` stops at the first character that is neither. */
  lemma {:induction false} MultiplicativeEnds(s: string, p: nat, left: Expression)
    requires p <= |s|
    requires var q := SkipWs(s, p); q >= |s| || (s[q] != '*' && s[q] != '/')
    ensures MultiplicativeRest(s, p, left) == Parsed(Some(left), SkipWs(s, p))
  {
    MatchChar(s, SkipWs(s, p), '*');
    MatchChar(s, SkipWs(s, p), '/');
  }

  /** A `*` leads the fold on to its right operand. */
  lemma {:induction false} ProductOperator(s: string, p: nat, left: Expression)
    requires p <= |s| && SkipWs(s, p) < |s| && s[SkipWs(s, p)] == '*'
    ensures MultiplicativeRest(s, p, left) == MultiplicativeOperand(s, SkipWs(s, SkipWs(s, p) + 1), true, left)
  {
    CharMatches(s, SkipWs(s, p), '*');
  }

  /** A `/` leads the fold on to its right operand. */
  lemma {:induction false} QuotientOperator(s: string, p: nat, left: Expression)
    requires p <= |s| && SkipWs(s, p) < |s| && s[SkipWs(s, p)] == '/'
    ensures MultiplicativeRest(s, p, left) == MultiplicativeOperand(s, SkipWs(s, SkipWs(s, p) + 1), false, left)
  {
    CharDiffers(s, SkipWs(s, p), '*');
    CharMatches(s, SkipWs(s, p), '/');
  }

  /** A right operand that parses continues the fold with the combined tree. */
  lemma {:induction false} MultiplicativeOperandStep(s: string, p: nat, isStar: bool, left: Expression, right: Expression, r: nat)
    requires p <= |s| && ParsePrimary(s, p) == Parsed(Some(right), r)
    ensures MultiplicativeOperand(s, p, isStar, left)
      == MultiplicativeRest(s, r, if isStar then Mul(left, right) else Div(left, right))
  {
  }

  /** The fold of `+` and `-` stops at the first character that is neither. */
  lemma {:induction false} AdditiveEnds(s: string, p: nat, left: Expression)
    requires p <= |s|
    requires var q := SkipWs(s, p); q >= |s| || (s[q] != '+' && s[q] != '-')
    ensures AdditiveRest(s, p, left) == Parsed(Some(left), SkipWs(s, p))
  {
    MatchChar(s, SkipWs(s, p), '+');
    MatchChar(s, SkipWs(s, p), '-');
  }

  /** A `+` leads the fold on to its right operand. */
  lemma {:induction false} SumOperator(s: string, p: nat, left: Expression)
    requires p <= |s| && SkipWs(s, p) < |s| && s[SkipWs(s, p)] == '+'
    ensures AdditiveRest(s, p, left) == AdditiveOperand(s, SkipWs(s, SkipWs(s, p) + 1), true, left)
  {
    CharMatches(s, SkipWs(s, p), '+');
  }

  /** A `-` leads the fold on to its right operand. */
  lemma {:induction false} DifferenceOperator(s: string, p: nat, left: Expression)
    requires p <= |s| && SkipWs(s, p) < |s| && s[SkipWs(s, p)] == '-'
    ensures AdditiveRest(s, p, left) == AdditiveOperand(s, SkipWs(s, SkipWs(s, p) + 1), false, left)
  {
    CharDiffers(s, SkipWs(s, p), '+');
    CharMatches(s, SkipWs(s, p), '-');
  }

  /** A right operand that parses continues the fold with the combined tree. */
  lemma {:induction false} AdditiveOperandStep(s: string, p: nat, isPlus: bool, left: Expression, right: Expression, r: nat)
    requires p <= |s| && ParseMultiplicative(s, p) == Parsed(Some(right), r)
    ensures AdditiveOperand(s, p, isPlus, left)
      == AdditiveRest(s, r, if isPlus then Expression.Add(left, right) else Sub(left, right))
  {
  }

  /** An operand not followed by `=` is the expression's value. */
  lemma {:induction false} OperandEnds(s: string, p: nat, e: Option<Expression>, q: nat)
    requires p <= |s| && ParseAdditive(s, p) == Parsed(e, q)
    requires SkipWs(s, q) >= |s| || s[SkipWs(s, q)] != '='
    ensures ParseOperand(s, p) == Parsed(e, SkipWs(s, q))
  {
  }

  /** Where no identifier followed by `=` starts, the expression is the operand. */
  lemma {:induction false} NotAssigned(s: string, p: nat)
    requires p <= |s|
    requires var id := IdentifierAt(s, SkipWs(s, p));
      id.value.None? || SkipWs(s, id.pos) >= |s| || s[SkipWs(s, id.pos)] != '='
    ensures ParseExpression(s, p) == ParseOperand(s, SkipWs(s, p))
  {
    var id := IdentifierAt(s, SkipWs(s, p));
    if id.value.Some? {
      MatchChar(s, SkipWs(s, id.pos), '=');
    }
  }

  /** Where an identifier followed by `=` starts, the expression is an assignment to it. */
  lemma {:induction false} Assigned(s: string, p: nat)
    requires p <= |s|
    requires var id := IdentifierAt(s, SkipWs(s, p));
      id.value.Some? && SkipWs(s, id.pos) < |s| && s[SkipWs(s, id.pos)] == '='
    ensures var id := IdentifierAt(s, SkipWs(s, p));
      ParseExpression(s, p) == AssignedValue(s, SkipWs(s, id.pos) + 1, id.value.value)
  {
    var id := IdentifierAt(s, SkipWs(s, p));
    MatchChar(s, SkipWs(s, id.pos), '=');
  }

  /**
   * A whole expression that is a one-letter variable: nothing that could
   * continue it (an operator or `=`) follows.
   */
  lemma {:induction false} LoneVariable(s: string, p: nat)
    requires p < |s| && IsLetter(s[p]) && s[p] != 't' && s[p] != 'f'
    requires p + 1 < |s| ==> !IsIdentPart(s[p + 1]) && s[p + 1] != '('
    requires var q := SkipWs(s, p + 1);
      q < |s| ==> s[q] != '*' && s[q] != '/' && s[q] != '+' && s[q] != '-' && s[q] != '='
    ensures ParseExpression(s, p) == Parsed(Some(Var(s[p..p + 1])), SkipWs(s, p + 1))
  {
    var v := Var(s[p..p + 1]);
    var q := SkipWs(s, p + 1);
    VariableAt(s, p);
    LetterAt(s, p);
    MultiplicativeOf(s, p, v, p + 1);
    MultiplicativeEnds(s, p + 1, v);
    AdditiveOf(s, p, v, q);
    assert SkipWs(s, q) == q;
    AdditiveEnds(s, q, v);
    OperandEnds(s, p, Some(v), q);
    NotAssigned(s, p);
  }

  /** A statement that starts with none of the keywords is an expression statement. */
  lemma {:induction false} ExpressionStatement(s: string, p: nat)
    requires p <= |s|
    requires var q := SkipWs(s, p); q < |s| ==> s[q] != 'f' && s[q] != 'l' && s[q] != 'c'
    ensures var q := SkipWs(s, p);
      var e := ParseExpression(s, q);
      ParseStatement(s, p)
        == if e.Thrown? then Thrown(e.error)
           else if e.value.None? then Parsed(None, e.pos)
           else Parsed(Some(ExpressionStmt(e.value.value)), MatchAt(s, e.pos, ";").GetOr(e.pos))
  {
    var q := SkipWs(s, p);
    KeywordAbsent(s, q, "function");
    KeywordAbsent(s, q, "let");
    KeywordAbsent(s, q, "const");
  }

  /** The text `a + b * c - d / e`, character by character. */
  predicate IsPrecedenceText(s: string) {
    && |s| == 17 && s[0] == 'a' && s[1] == ' ' && s[2] == '+' && s[3] == ' ' && s[4] == 'b'
    && s[5] == ' ' && s[6] == '*' && s[7] == ' ' && s[8] == 'c' && s[9] == ' ' && s[10] == '-'
    && s[11] == ' ' && s[12] == 'd' && s[13] == ' ' && s[14] == '/' && s[15] == ' '
    && s[16] == 'e'
  }

  lemma {:induction false} ProductBC(s: string)
    requires IsPrecedenceText(s)
    ensures ParseMultiplicative(s, 4) == Parsed(Some(Mul(Var("b"), Var("c"))), 10)
  {
    VariableAt(s, 4);
    VariableAt(s, 8);
    assert s[4..5] == "b" && s[8..9] == "c";
    assert SkipWs(s, 5) == 6 && SkipWs(s, 7) == 8 && SkipWs(s, 9) == 10;
    MultiplicativeOf(s, 4, Var("b"), 5);
    ProductOperator(s, 5, Var("b"));
    MultiplicativeOperandStep(s, 8, true, Var("b"), Var("c"), 9);
    MultiplicativeEnds(s, 9, Mul(Var("b"), Var("c")));
  }

  lemma {:induction false} QuotientDE(s: string)
    requires IsPrecedenceText(s)
    ensures ParseMultiplicative(s, 12) == Parsed(Some(Div(Var("d"), Var("e"))), 17)
  {
    VariableAt(s, 12);
    VariableAt(s, 16);
    assert s[12..13] == "d" && s[16..17] == "e";
    assert SkipWs(s, 13) == 14 && SkipWs(s, 15) == 16 && SkipWs(s, 17) == 17;
    MultiplicativeOf(s, 12, Var("d"), 13);
    QuotientOperator(s, 13, Var("d"));
    MultiplicativeOperandStep(s, 16, false, Var("d"), Var("e"), 17);
    MultiplicativeEnds(s, 17, Div(Var("d"), Var("e")));
  }

  lemma {:induction false} PrecedenceSum(s: string)
    requires IsPrecedenceText(s)
    ensures ParseAdditive(s, 0)
      == Parsed(Some(Sub(Expression.Add(Var("a"), Mul(Var("b"), Var("c"))), Div(Var("d"), Var("e")))), 17)
  {
    var product := Mul(Var("b"), Var("c"));
    var whole := Sub(Expression.Add(Var("a"), product), Div(Var("d"), Var("e")));
    VariableAt(s, 0);
    assert s[0..1] == "a";
    assert SkipWs(s, 1) == 2 && SkipWs(s, 3) == 4 && SkipWs(s, 10) == 10;
    assert SkipWs(s, 11) == 12 && SkipWs(s, 17) == 17;
    MultiplicativeOf(s, 0, Var("a"), 1);
    MultiplicativeEnds(s, 1, Var("a"));
    AdditiveOf(s, 0, Var("a"), 2);
    ProductBC(s);
    SumOperator(s, 2, Var("a"));
    AdditiveOperandStep(s, 4, true, Var("a"), product, 10);
    QuotientDE(s);
    DifferenceOperator(s, 10, Expression.Add(Var("a"), product));
    AdditiveOperandStep(s, 12, false, Expression.Add(Var("a"), product), Div(Var("d"), Var("e")), 17);
    AdditiveEnds(s, 17, whole);
  }

  lemma {:induction false} PrecedenceAndLeftFold(s: string)
    requires IsPrecedenceText(s)
    ensures ParseExpression(s, 0)
      == Parsed(Some(Sub(Expression.Add(Var("a"), Mul(Var("b"), Var("c"))), Div(Var("d"), Var("e")))), 17)
  {
    var whole := Sub(Expression.Add(Var("a"), Mul(Var("b"), Var("c"))), Div(Var("d"), Var("e")));
    PrecedenceSum(s);
    assert SkipWs(s, 0) == 0 && SkipWs(s, 1) == 2 && SkipWs(s, 17) == 17;
    LetterAt(s, 0);
    NotAssigned(s, 0);
    OperandEnds(s, 0, Some(whole), 17);
  }

  /** `*` and `/` bind tighter than `+` and `-`, and each level folds to the left. */
  lemma {:induction false} Precedence()
    ensures ParseExpression("a + b * c - d / e", 0)
      == Parsed(Some(Sub(Expression.Add(Var("a"), Mul(Var("b"), Var("c"))), Div(Var("d"), Var("e")))), 17)
  {
    PrecedenceAndLeftFold("a + b * c - d / e");
  }

  /** The text `(a + b) * c`, character by character. */
  predicate IsGroupedText(s: string) {
    && |s| == 11 && s[0] == '(' && s[1] == 'a' && s[2] == ' ' && s[3] == '+' && s[4] == ' '
    && s[5] == 'b' && s[6] == ')' && s[7] == ' ' && s[8] == '*' && s[9] == ' ' && s[10] == 'c'
  }

  lemma {:induction false} GroupedTerms(s: string)
    requires IsGroupedText(s)
    ensures ParseMultiplicative(s, 1) == Parsed(Some(Var("a")), 3)
    ensures ParseMultiplicative(s, 5) == Parsed(Some(Var("b")), 6)
  {
    VariableAt(s, 1);
    VariableAt(s, 5);
    assert s[1..2] == "a" && s[5..6] == "b";
    assert SkipWs(s, 2) == 3 && SkipWs(s, 6) == 6;
    MultiplicativeOf(s, 1, Var("a"), 2);
    MultiplicativeEnds(s, 2, Var("a"));
    MultiplicativeOf(s, 5, Var("b"), 6);
    MultiplicativeEnds(s, 6, Var("b"));
  }

  lemma {:induction false} GroupedAdditive(s: string)
    requires IsGroupedText(s)
    ensures ParseAdditive(s, 1) == Parsed(Some(Expression.Add(Var("a"), Var("b"))), 6)
  {
    GroupedTerms(s);
    assert SkipWs(s, 3) == 3 && SkipWs(s, 4) == 5 && SkipWs(s, 6) == 6;
    AdditiveOf(s, 1, Var("a"), 3);
    SumOperator(s, 3, Var("a"));
    AdditiveOperandStep(s, 5, true, Var("a"), Var("b"), 6);
    AdditiveEnds(s, 6, Expression.Add(Var("a"), Var("b")));
  }

  lemma {:induction false} GroupedSum(s: string)
    requires IsGroupedText(s)
    ensures ParseExpression(s, 1) == Parsed(Some(Expression.Add(Var("a"), Var("b"))), 6)
  {
    GroupedAdditive(s);
    assert SkipWs(s, 1) == 1 && SkipWs(s, 2) == 3 && SkipWs(s, 6) == 6;
    OperandEnds(s, 1, Some(Expression.Add(Var("a"), Var("b"))), 6);
    LetterAt(s, 1);
    NotAssigned(s, 1);
  }

  lemma {:induction false} GroupedOperand(s: string)
    requires IsGroupedText(s)
    ensures ParsePrimary(s, 0) == Parsed(Some(Expression.Add(Var("a"), Var("b"))), 7)
  {
    assert SkipWs(s, 0) == 0 && SkipWs(s, 1) == 1 && SkipWs(s, 6) == 6;
    PrimaryNotLiteral(s, 0);
    MatchChar(s, 0, '(');
    GroupedSum(s);
    MatchChar(s, 6, ')');
  }

  lemma {:induction false} GroupedProduct(s: string)
    requires IsGroupedText(s)
    ensures ParseExpression(s, 0) == Parsed(Some(Mul(Expression.Add(Var("a"), Var("b")), Var("c"))), 11)
  {
    var sum := Expression.Add(Var("a"), Var("b"));
    var whole := Mul(sum, Var("c"));
    GroupedOperand(s);
    VariableAt(s, 10);
    assert s[10..11] == "c";
    assert SkipWs(s, 0) == 0 && SkipWs(s, 7) == 8 && SkipWs(s, 9) == 10 && SkipWs(s, 11) == 11;
    MultiplicativeOf(s, 0, sum, 7);
    ProductOperator(s, 7, sum);
    MultiplicativeOperandStep(s, 10, true, sum, Var("c"), 11);
    MultiplicativeEnds(s, 11, whole);
    AdditiveOf(s, 0, whole, 11);
    AdditiveEnds(s, 11, whole);
    OperandEnds(s, 0, Some(whole), 11);
    NotAssigned(s, 0);
  }

  /** Parentheses override precedence. */
  lemma {:induction false} Grouping()
    ensures ParseExpression("(a + b) * c", 0) == Parsed(Some(Mul(Expression.Add(Var("a"), Var("b")), Var("c"))), 11)
  {
    GroupedProduct("(a + b) * c");
  }

  /** The text `x = y = z`, character by character. */
  predicate IsChainedText(s: string) {
    && |s| == 9 && s[0] == 'x' && s[1] == ' ' && s[2] == '=' && s[3] == ' ' && s[4] == 'y'
    && s[5] == ' ' && s[6] == '=' && s[7] == ' ' && s[8] == 'z'
  }

  lemma {:induction false} ChainedInner(s: string)
    requires IsChainedText(s)
    ensures ParseExpression(s, 4) == Parsed(Some(Assignment("y", Var("z"))), 9)
  {
    assert SkipWs(s, 4) == 4 && SkipWs(s, 5) == 6 && SkipWs(s, 7) == 8 && SkipWs(s, 9) == 9;
    LetterAt(s, 4);
    assert s[4..5] == "y" && s[8..9] == "z";
    Assigned(s, 4);
    LoneVariable(s, 8);
  }

  lemma {:induction false} ChainedOuter(s: string)
    requires IsChainedText(s)
    ensures ParseExpression(s, 0) == Thrown(ParseError("Can't have nested assignments inside assignment expressions", 9))
  {
    assert SkipWs(s, 0) == 0 && SkipWs(s, 1) == 2 && SkipWs(s, 3) == 4;
    LetterAt(s, 0);
    assert s[0..1] == "x";
    Assigned(s, 0);
    ChainedInner(s);
  }

  /** A chained assignment is rejected where its inner assignment ends. */
  lemma {:induction false} ChainedAssignment()
    ensures ParseExpression("x = y = z", 0) == Thrown(ParseError("Can't have nested assignments inside assignment expressions", 9))
  {
    ChainedOuter("x = y = z");
  }

  /** The text `a == b`, character by character. */
  predicate IsDoubleEqualsText(s: string) {
    && |s| == 6 && s[0] == 'a' && s[1] == ' ' && s[2] == '=' && s[3] == '=' && s[4] == ' ' && s[5] == 'b'
  }

  lemma {:induction false} DoubleEqualsOuter(s: string)
    requires IsDoubleEqualsText(s)
    ensures ParseExpression(s, 0) == Thrown(ParseError("Invalid multiple assignment: '=' cannot follow an assignment expression", 3))
  {
    assert SkipWs(s, 0) == 0 && SkipWs(s, 1) == 2 && SkipWs(s, 3) == 3;
    LetterAt(s, 0);
    assert s[0..1] == "a";
    Assigned(s, 0);
  }

  /** `==` is not an operator: the second `=` is refused right after the first. */
  lemma {:induction false} DoubleEquals()
    ensures ParseExpression("a == b", 0) == Thrown(ParseError("Invalid multiple assignment: '=' cannot follow an assignment expression", 3))
  {
    DoubleEqualsOuter("a == b");
  }

  /** The text `5 = x`, character by character. */
  predicate IsLiteralTargetText(s: string) {
    && |s| == 5 && s[0] == '5' && s[1] == ' ' && s[2] == '=' && s[3] == ' ' && s[4] == 'x'
  }

  lemma {:induction false} LiteralFive(s: string)
    requires IsLiteralTargetText(s)
    ensures ParsePrimary(s, 0) == Parsed(Some(Literal(IntValue(5))), 1)
  {
    assert SkipWs(s, 0) == 0;
    assert DigitEnd(s, 0) == 1;
    assert s[0..1] == "5";
    assert ToIntOrNull("5") == Some(5) by {
      IntToStringRoundTrip(5);
      assert IntToString(5) == "5";
    }
  }

  lemma {:induction false} LiteralTargetOuter(s: string)
    requires IsLiteralTargetText(s)
    ensures ParseExpression(s, 0) == Thrown(ParseError("Left hand side of assignment must be a valid identifier.", 2))
  {
    var five := Literal(IntValue(5));
    LiteralFive(s);
    assert SkipWs(s, 0) == 0 && SkipWs(s, 1) == 2 && SkipWs(s, 2) == 2;
    MultiplicativeOf(s, 0, five, 1);
    MultiplicativeEnds(s, 1, five);
    AdditiveOf(s, 0, five, 2);
    AdditiveEnds(s, 2, five);
    NotAssigned(s, 0);
  }

  /** A left side that is not an identifier is rejected at its `=`. */
  lemma {:induction false} LiteralTarget()
    ensures ParseExpression("5 = x", 0) == Thrown(ParseError("Left hand side of assignment must be a valid identifier.", 2))
  {
    LiteralTargetOuter("5 = x");
  }

  /** The text `let x = y = z;`, character by character. */
  predicate IsChainedLetText(s: string) {
    && |s| == 14 && s[0] == 'l' && s[1] == 'e' && s[2] == 't' && s[3] == ' ' && s[4] == 'x'
    && s[5] == ' ' && s[6] == '=' && s[7] == ' ' && s[8] == 'y' && s[9] == ' ' && s[10] == '='
    && s[11] == ' ' && s[12] == 'z' && s[13] == ';'
  }

  lemma {:induction false} ChainedLetValue(s: string)
    requires IsChainedLetText(s)
    ensures ParseExpression(s, 8) == Parsed(Some(Assignment("y", Var("z"))), 13)
  {
    assert SkipWs(s, 8) == 8 && SkipWs(s, 9) == 10 && SkipWs(s, 11) == 12 && SkipWs(s, 13) == 13;
    LetterAt(s, 8);
    assert s[8..9] == "y" && s[12..13] == "z";
    Assigned(s, 8);
    LoneVariable(s, 12);
  }

  lemma {:induction false} ChainedLetDeclaration(s: string)
    requires IsChainedLetText(s)
    ensures ParseStatement(s, 0) == Thrown(ParseError("Expected expression after '='", 14))
  {
    assert SkipWs(s, 0) == 0 && SkipWs(s, 3) == 4 && SkipWs(s, 5) == 6 && SkipWs(s, 7) == 8;
    KeywordAbsent(s, 0, "function");
    assert s[0..3] == "let";
    LetterAt(s, 4);
    MatchChar(s, 6, '=');
    ChainedLetValue(s);
    MatchChar(s, 13, ';');
  }

  /** A declaration whose initializer is an assignment is rejected. */
  lemma {:induction false} ChainedLet()
    ensures ParseStatement("let x = y = z;", 0) == Thrown(ParseError("Expected expression after '='", 14))
  {
    ChainedLetDeclaration("let x = y = z;");
  }

  /** The text `letter = a`, character by character. */
  predicate IsLetterText(s: string) {
    && |s| == 10 && s[0] == 'l' && s[1] == 'e' && s[2] == 't' && s[3] == 't' && s[4] == 'e'
    && s[5] == 'r' && s[6] == ' ' && s[7] == '=' && s[8] == ' ' && s[9] == 'a'
  }

  lemma {:induction false} LetterDeclaration(s: string)
    requires IsLetterText(s)
    ensures ParseStatement(s, 0) == Parsed(Some(Declaration("ter", None, Mutable, Some(Var("a")))), 10)
  {
    assert SkipWs(s, 0) == 0 && SkipWs(s, 3) == 3 && SkipWs(s, 6) == 7 && SkipWs(s, 8) == 9 && SkipWs(s, 10) == 10;
    KeywordAbsent(s, 0, "function");
    assert s[0..3] == "let";
    assert IdentEnd(s, 4) == 6;
    assert s[3..6] == "ter" && s[9..10] == "a";
    MatchChar(s, 7, '=');
    LoneVariable(s, 9);
    MatchChar(s, 10, ';');
  }

  /**
   * `let` is matched as a plain prefix: `letter = a` declares a mutable
   * variable named `ter`.
   */
  lemma {:induction false} KeywordPrefix()
    ensures ParseStatement("letter = a", 0) == Parsed(Some(Declaration("ter", None, Mutable, Some(Var("a")))), 10)
  {
    LetterDeclaration("letter = a");
  }

  /** The text `function f() { x; }`, character by character. */
  predicate IsNoReturnText(s: string) {
    && |s| == 19 && s[0] == 'f' && s[1] == 'u' && s[2] == 'n' && s[3] == 'c' && s[4] == 't'
    && s[5] == 'i' && s[6] == 'o' && s[7] == 'n' && s[8] == ' ' && s[9] == 'f' && s[10] == '('
    && s[11] == ')' && s[12] == ' ' && s[13] == '{' && s[14] == ' ' && s[15] == 'x'
    && s[16] == ';' && s[17] == ' ' && s[18] == '}'
  }

  /** Text that starts `function f() `, an empty parameter list. */
  predicate StartsFunctionF(s: string) {
    && |s| > 13 && s[0..8] == "function" && s[8] == ' ' && s[9] == 'f'
    && s[10] == '(' && s[11] == ')' && s[12] == ' '
  }

  /** The header `function f()` leaves the body to be read from just after the `)`. */
  lemma {:induction false} FunctionF(s: string)
    requires StartsFunctionF(s)
    ensures MatchAt(s, 0, "function") == Some(8)
    ensures ParseFunctionDeclaration(s, 8) == FunctionBodyAfter(s, 12, "f", [])
  {
    assert SkipWs(s, 8) == 9 && SkipWs(s, 10) == 10 && SkipWs(s, 11) == 11;
    LetterAt(s, 9);
    assert s[9..10] == "f";
    MatchChar(s, 10, '(');
    MatchChar(s, 11, ')');
    assert ParseParameterList(s, 11) == Parsed([], 11);
  }

  lemma {:induction false} NoReturnStatement(s: string)
    requires IsNoReturnText(s)
    ensures ParseStatement(s, 15) == Parsed(Some(ExpressionStmt(Var("x"))), 17)
  {
    assert SkipWs(s, 15) == 15 && SkipWs(s, 16) == 16;
    assert s[15..16] == "x";
    LoneVariable(s, 15);
    ExpressionStatement(s, 15);
    MatchChar(s, 16, ';');
  }

  lemma {:induction false} NoReturnBody(s: string)
    requires IsNoReturnText(s)
    ensures ParseFunctionBody(s, 14) == Thrown(ParseError("Expected a return statement in function body", 18))
  {
    assert SkipWs(s, 14) == 15 && SkipWs(s, 17) == 18;
    KeywordAbsent(s, 15, "return");
    KeywordAbsent(s, 18, "return");
    NoReturnStatement(s);
    assert [] + [ExpressionStmt(Var("x"))] == [ExpressionStmt(Var("x"))];
    assert BodyFrom(s, 14, [], false) == BodyFrom(s, 17, [ExpressionStmt(Var("x"))], false);
    assert BodyFrom(s, 17, [ExpressionStmt(Var("x"))], false)
      == Thrown(ParseError("Expected a return statement in function body", 18));
  }

  lemma {:induction false} NoReturnDeclaration(s: string)
    requires IsNoReturnText(s)
    ensures ParseStatement(s, 0) == Thrown(ParseError("Expected a return statement in function body", 18))
  {
    assert s[0..8] == "function";
    FunctionF(s);
    assert SkipWs(s, 0) == 0 && SkipWs(s, 12) == 13;
    MatchChar(s, 13, '{');
    NoReturnBody(s);
  }

  /** A function body that reaches `}` without a `return` is rejected at the `}`. */
  lemma {:induction false} BodyWithoutReturn()
    ensures ParseStatement("function f() { x; }", 0) == Thrown(ParseError("Expected a return statement in function body", 18))
  {
    NoReturnDeclaration("function f() { x; }");
  }

  /** The text `function f() { return x; }`, character by character. */
  predicate IsReturnText(s: string) {
    |s| == 26 && IsReturnHead(s) && IsReturnTail(s)
  }

  predicate IsReturnHead(s: string)
    requires |s| == 26
  {
    && s[0] == 'f' && s[1] == 'u' && s[2] == 'n' && s[3] == 'c' && s[4] == 't'
    && s[5] == 'i' && s[6] == 'o' && s[7] == 'n' && s[8] == ' ' && s[9] == 'f' && s[10] == '('
    && s[11] == ')' && s[12] == ' '
  }

  predicate IsReturnTail(s: string)
    requires |s| == 26
  {
    && s[13] == '{' && s[14] == ' ' && s[15] == 'r'
    && s[16] == 'e' && s[17] == 't' && s[18] == 'u' && s[19] == 'r' && s[20] == 'n'
    && s[21] == ' ' && s[22] == 'x' && s[23] == ';' && s[24] == ' ' && s[25] == '}'
  }

  lemma {:induction false} ReturnBody(s: string)
    requires IsReturnText(s)
    ensures ParseFunctionBody(s, 14) == Parsed([ReturnStmt(Some(Var("x")))], 25)
  {
    assert SkipWs(s, 14) == 15 && SkipWs(s, 21) == 22 && SkipWs(s, 23) == 23 && SkipWs(s, 24) == 25;
    assert s[15..21] == "return" && s[22..23] == "x";
    LoneVariable(s, 22);
    MatchChar(s, 23, ';');
    assert [] + [ReturnStmt(Some(Var("x")))] == [ReturnStmt(Some(Var("x")))];
    assert ReturnClause(s, 21, []) == Parsed([ReturnStmt(Some(Var("x")))], 25);
  }

  lemma {:induction false} ReturnDeclaration(s: string)
    requires IsReturnText(s)
    ensures ParseStatement(s, 0) == Parsed(Some(FunctionDeclaration("f", [], [ReturnStmt(Some(Var("x")))])), 26)
  {
    assert s[0..8] == "function";
    FunctionF(s);
    assert SkipWs(s, 0) == 0 && SkipWs(s, 12) == 13;
    MatchChar(s, 13, '{');
    MatchChar(s, 25, '}');
    ReturnBody(s);
  }

  /** An empty parameter list is accepted, and a body ending in `return x;` returns `x`. */
  lemma {:induction false} FunctionWithReturn()
    ensures ParseStatement("function f() { return x; }", 0)
      == Parsed(Some(FunctionDeclaration("f", [], [ReturnStmt(Some(Var("x")))])), 26)
  {
    var s := "function f() { return x; }";
    assert IsReturnHead(s);
    assert IsReturnTail(s);
    ReturnDeclaration(s);
  }

  /** The text `a; ? b;`, character by character. */
  predicate IsStopText(s: string) {
    && |s| == 7 && s[0] == 'a' && s[1] == ';' && s[2] == ' ' && s[3] == '?' && s[4] == ' '
    && s[5] == 'b' && s[6] == ';'
  }

  lemma {:induction false} StopFirst(s: string)
    requires IsStopText(s)
    ensures ParseStatement(s, 0) == Parsed(Some(ExpressionStmt(Var("a"))), 2)
  {
    assert SkipWs(s, 0) == 0 && SkipWs(s, 1) == 1;
    assert s[0..1] == "a";
    LoneVariable(s, 0);
    ExpressionStatement(s, 0);
    MatchChar(s, 1, ';');
  }

  lemma {:induction false} StopSecond(s: string)
    requires IsStopText(s)
    ensures ParseStatement(s, 2) == Parsed(None, 3)
  {
    assert SkipWs(s, 2) == 3 && SkipWs(s, 3) == 3;
    PrimaryNotLiteral(s, 3);
    MatchChar(s, 3, '(');
    MatchChar(s, 3, ')');
    assert ParsePrimary(s, 3) == Parsed(None, 3);
    NotAssigned(s, 3);
    OperandEnds(s, 3, None, 3);
    ExpressionStatement(s, 2);
  }

  lemma {:induction false} StopProgram(s: string)
    requires IsStopText(s)
    ensures ParseProgram(s) == Parsed([ExpressionStmt(Var("a"))], 3)
  {
    StopFirst(s);
    StopSecond(s);
    assert [] + [ExpressionStmt(Var("a"))] == [ExpressionStmt(Var("a"))];
    assert StatementsFrom(s, 0, []) == StatementsFrom(s, 2, [ExpressionStmt(Var("a"))]);
    assert StatementsFrom(s, 2, [ExpressionStmt(Var("a"))]) == Parsed([ExpressionStmt(Var("a"))], 3);
  }

  /** `parse` stops silently at a statement that cannot start, dropping the rest of the text. */
  lemma {:induction false} SilentStop()
    ensures ParseProgram("a; ? b;") == Parsed([ExpressionStmt(Var("a"))], 3)
  {
    StopProgram("a; ? b;");
  }

  /** The text `a +`, character by character. */
  predicate IsMissingOperandText(s: string) {
    && |s| == 3 && s[0] == 'a' && s[1] == ' ' && s[2] == '+'
  }

  lemma {:induction false} MissingOperandRest(s: string)
    requires IsMissingOperandText(s)
    ensures AdditiveRest(s, 2, Var("a")) == Thrown(ParseError("Expected expression after +", 3))
  {
    assert SkipWs(s, 2) == 2 && SkipWs(s, 3) == 3;
    SumOperator(s, 2, Var("a"));
    PrimaryNotLiteral(s, 3);
    MatchChar(s, 3, '(');
    MatchChar(s, 3, ')');
    assert ParsePrimary(s, 3) == Parsed(None, 3);
    assert ParseMultiplicative(s, 3) == Parsed(None, 3);
  }

  lemma {:induction false} MissingOperandSum(s: string)
    requires IsMissingOperandText(s)
    ensures ParseExpression(s, 0) == Thrown(ParseError("Expected expression after +", 3))
  {
    assert SkipWs(s, 0) == 0 && SkipWs(s, 1) == 2;
    VariableAt(s, 0);
    LetterAt(s, 0);
    assert s[0..1] == "a";
    MultiplicativeOf(s, 0, Var("a"), 1);
    MultiplicativeEnds(s, 1, Var("a"));
    AdditiveOf(s, 0, Var("a"), 2);
    MissingOperandRest(s);
    NotAssigned(s, 0);
  }

  /** A binary operator without its right operand is rejected, unlike a statement that cannot start. */
  lemma {:induction false} MissingOperand()
    ensures ParseExpression("a +", 0) == Thrown(ParseError("Expected expression after +", 3))
  {
    MissingOperandSum("a +");
  }

  /** The text `(a`, character by character. */
  predicate IsUnclosedText(s: string) {
    && |s| == 2 && s[0] == '(' && s[1] == 'a'
  }

  lemma {:induction false} UnclosedGroup(s: string)
    requires IsUnclosedText(s)
    ensures ParseExpression(s, 0) == Thrown(ParseError("Expected ')' after an opening '('", 2))
  {
    assert SkipWs(s, 0) == 0 && SkipWs(s, 1) == 1 && SkipWs(s, 2) == 2;
    assert s[1..2] == "a";
    PrimaryNotLiteral(s, 0);
    MatchChar(s, 0, '(');
    LoneVariable(s, 1);
    MatchChar(s, 2, ')');
    var error := ParseError("Expected ')' after an opening '('", 2);
    assert ParsePrimary(s, 0) == Thrown(error);
    assert ParseMultiplicative(s, 0) == Thrown(error);
    assert ParseAdditive(s, 0) == Thrown(error);
    NotAssigned(s, 0);
  }

  /** An unclosed `(` is rejected at the end of the text. */
  lemma {:induction false} Unclosed()
    ensures ParseExpression("(a", 0) == Thrown(ParseError("Expected ')' after an opening '('", 2))
  {
    UnclosedGroup("(a");
  }
}
