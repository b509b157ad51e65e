/**
 * The meaning of parser/Parser.kt as functions of (text, cursor).
 *
 * Every parse function takes the text and the cursor on entry and gives the
 * tree it builds (`None` where the Kotlin function returns null) with the
 * cursor it leaves, or the `ParserException` it throws. The loops of the
 * source (`while (true)` folds, the argument, parameter and statement lists)
 * are recursive functions with an accumulator: what has been built so far.
 * `Parsing.Parser` carries these out on a `Scanner.Tokenizer` and is proved
 * to agree with them.
 */
module Grammar {
  import opened Common
  import opened Values
  import opened Ast
  import opened Scanner

  /** `ParserException`: the message and the offset it points at. */
  datatype ParseError = ParseError(message: string, offset: nat)

  /** What a parse function does: return a value and leave the cursor, or throw. */
  datatype Parse<+T> = Parsed(value: T, pos: nat) | Thrown(error: ParseError)

  /** The cursor never moves backwards and never leaves the text. */
  ghost predicate Within<T>(r: Parse<T>, s: string, p: nat) {
    r.Parsed? ==> p <= r.pos <= |s|
  }

  /** A parse that returns something (not null) has consumed at least one character. */
  ghost predicate Consumes<T>(r: Parse<Option<T>>, p: nat) {
    r.Parsed? && r.value.Some? ==> p < r.pos
  }

  /* Expressions. The second `decreases` component orders the functions that
     may call one another without moving the cursor. */

  /** `parseExpression`: an assignment or what it falls back to. */
  function ParseExpression(s: string, p: nat): (r: Parse<Option<Expression>>)
    requires p <= |s|
    ensures Within(r, s, p) && Consumes(r, p)
    decreases |s| - p, 9
  {
    ParseAssignment(s, p)
  }

  /**
   * `parseAssignment`: `IDENT = expr`, where `expr` may be neither missing
   * nor itself an assignment and must not start with a second `=`;
   * otherwise the cursor goes back to the identifier and the additive chain
   * is parsed, which must not be followed by `=`.
   */
  function ParseAssignment(s: string, p: nat): (r: Parse<Option<Expression>>)
    requires p <= |s|
    ensures Within(r, s, p) && Consumes(r, p)
    decreases |s| - p, 8
  {
    var namePos := SkipWs(s, p);
    var lhs := IdentifierAt(s, namePos);
    var eq := if lhs.value.Some? then MatchAt(s, SkipWs(s, lhs.pos), "=") else None;
    if eq.Some? then AssignedValue(s, eq.value, lhs.value.value)
    else ParseOperand(s, namePos)
  }

  /**
   * The fallback of `parseAssignment`: the additive chain, which must not be
   * followed by `=`.
   */
  function ParseOperand(s: string, p: nat): (r: Parse<Option<Expression>>)
    requires p <= |s|
    ensures Within(r, s, p) && Consumes(r, p)
    decreases |s| - p, 7
  {
    var rest := ParseAdditive(s, p);
    if rest.Thrown? then rest
    else
      var q := SkipWs(s, rest.pos);
      if PeekAt(s, q) == Some('=') then
        Thrown(ParseError("Left hand side of assignment must be a valid identifier.", q))
      else Parsed(rest.value, q)
  }

  /**
   * The assignment branch of `parseAssignment`, from just after the `=`:
   * the value must not start with a second `=`, be missing, or itself be an
   * assignment.
   */
  function AssignedValue(s: string, p: nat, target: string): (r: Parse<Option<Expression>>)
    requires p <= |s|
    ensures Within(r, s, p) && (r.Parsed? ==> r.value.Some?)
    decreases |s| - p, 13
  {
    var q := SkipWs(s, p);
    if PeekAt(s, q) == Some('=') then
      Thrown(ParseError("Invalid multiple assignment: '=' cannot follow an assignment expression", q))
    else
      var v := ParseExpression(s, q);
      if v.Thrown? then v
      else if v.value.None? then Thrown(ParseError("Expected expression after '='", v.pos))
      else if v.value.value.Assignment? then
        Thrown(ParseError("Can't have nested assignments inside assignment expressions", v.pos))
      else Parsed(Some(Assignment(target, v.value.value)), SkipWs(s, v.pos))
  }

  /** `parseAdditive`: a multiplicative operand, then the left fold of `+`/`-`. */
  function ParseAdditive(s: string, p: nat): (r: Parse<Option<Expression>>)
    requires p <= |s|
    ensures Within(r, s, p) && Consumes(r, p)
    decreases |s| - p, 6
  {
    var l := ParseMultiplicative(s, p);
    if l.Thrown? || l.value.None? then l
    else AdditiveRest(s, l.pos, l.value.value)
  }

  /** The `while (true)` of `parseAdditive`, with `left` the tree so far. */
  function AdditiveRest(s: string, p: nat, left: Expression): (r: Parse<Option<Expression>>)
    requires p <= |s|
    ensures Within(r, s, p) && (r.Parsed? ==> r.value.Some?)
    decreases |s| - p, 6
  {
    var q := SkipWs(s, p);
    var plus := MatchAt(s, q, "+");
    var minus := if plus.Some? then None else MatchAt(s, q, "-");
    if plus.None? && minus.None? then Parsed(Some(left), q)
    else AdditiveOperand(s, SkipWs(s, if plus.Some? then plus.value else minus.value), plus.Some?, left)
  }

  /** One turn of that loop after `+` (`isPlus`) or `-` has matched: the right operand, then the rest. */
  function AdditiveOperand(s: string, p: nat, isPlus: bool, left: Expression): (r: Parse<Option<Expression>>)
    requires p <= |s|
    ensures Within(r, s, p) && (r.Parsed? ==> r.value.Some?)
    decreases |s| - p, 5
  {
    var right := ParseMultiplicative(s, p);
    if right.Thrown? then right
    else if right.value.None? then
      Thrown(ParseError(if isPlus then "Expected expression after +" else "Expected expression after -", right.pos))
    else
      var e := if isPlus then Expression.Add(left, right.value.value) else Sub(left, right.value.value);
      AdditiveRest(s, right.pos, e)
  }

  /** `parseMultiplicative`: a primary, then the left fold of `*`/`/`. */
  function ParseMultiplicative(s: string, p: nat): (r: Parse<Option<Expression>>)
    requires p <= |s|
    ensures Within(r, s, p) && Consumes(r, p)
    decreases |s| - p, 4
  {
    var l := ParsePrimary(s, p);
    if l.Thrown? || l.value.None? then l
    else MultiplicativeRest(s, l.pos, l.value.value)
  }

  /** The `while (true)` of `parseMultiplicative`. */
  function MultiplicativeRest(s: string, p: nat, left: Expression): (r: Parse<Option<Expression>>)
    requires p <= |s|
    ensures Within(r, s, p) && (r.Parsed? ==> r.value.Some?)
    decreases |s| - p, 3
  {
    var q := SkipWs(s, p);
    var star := MatchAt(s, q, "*");
    var slash := if star.Some? then None else MatchAt(s, q, "/");
    if star.None? && slash.None? then Parsed(Some(left), q)
    else MultiplicativeOperand(s, SkipWs(s, if star.Some? then star.value else slash.value), star.Some?, left)
  }

  /** One turn of that loop after `*` (`isStar`) or `/` has matched: the right operand, then the rest. */
  function MultiplicativeOperand(s: string, p: nat, isStar: bool, left: Expression): (r: Parse<Option<Expression>>)
    requires p <= |s|
    ensures Within(r, s, p) && (r.Parsed? ==> r.value.Some?)
    decreases |s| - p, 3
  {
    var right := ParsePrimary(s, p);
    if right.Thrown? then right
    else if right.value.None? then
      Thrown(ParseError(if isStar then "Expected expression after *" else "Expected expression after /", right.pos))
    else
      var e := if isStar then Mul(left, right.value.value) else Div(left, right.value.value);
      MultiplicativeRest(s, right.pos, e)
  }

  /**
   * `parsePrimary`: after white space, a number, a string, a boolean, an
   * identifier (a call when `(` follows it) or a parenthesised expression,
   * tried in that order, each from where the previous attempt left the
   * cursor; a stray `)` throws, anything else is null.
   */
  function ParsePrimary(s: string, p: nat): (r: Parse<Option<Expression>>)
    requires p <= |s|
    ensures Within(r, s, p) && Consumes(r, p)
    decreases |s| - p, 2
  {
    var n := NumberAt(s, SkipWs(s, p));
    if n.value.Some? then Parsed(Some(Literal(IntValue(n.value.value))), n.pos)
    else
      var str := StringRaw(s, n.pos);
      if str.value.Some? then Parsed(Some(Literal(StringValue(str.value.value))), str.pos)
      else
        var b := BooleanAt(s, str.pos);
        if b.value.Some? then Parsed(Some(Literal(BoolValue(b.value.value))), b.pos)
        else ParseNameOrGroup(s, b.pos)
  }

  /** The cases of `parsePrimary` after the literals: a variable, a call, or what is left. */
  function ParseNameOrGroup(s: string, p: nat): (r: Parse<Option<Expression>>)
    requires p <= |s|
    ensures Within(r, s, p) && Consumes(r, p)
    decreases |s| - p, 1
  {
    var id := IdentifierAt(s, p);
    if id.value.Some? then
      var open := MatchAt(s, id.pos, "(");
      if open.None? then Parsed(Some(VariableReference(id.value.value)), id.pos)
      else ParseCall(s, open.value, id.value.value)
    else ParseParenthesised(s, p)
  }

  /** `parseFunctionCall` and the `)` that must close it; `p` is just after the `(`. */
  function ParseCall(s: string, p: nat, callee: string): (r: Parse<Option<Expression>>)
    requires p <= |s|
    ensures Within(r, s, p) && (r.Parsed? ==> r.value.Some?)
    decreases |s| - p, 12
  {
    var args := ParseArgumentList(s, p);
    if args.Thrown? then Thrown(args.error)
    else
      var close := MatchAt(s, args.pos, ")");
      if close.None? then Thrown(ParseError("Function call ')' should be closed", args.pos))
      else Parsed(Some(FunctionCall(callee, args.value)), close.value)
  }

  /** The last two cases of `parsePrimary`: `( expr )`, or a stray `)`. */
  function ParseParenthesised(s: string, p: nat): (r: Parse<Option<Expression>>)
    requires p <= |s|
    ensures Within(r, s, p) && Consumes(r, p)
    decreases |s| - p, 0
  {
    var open := MatchAt(s, p, "(");
    if open.Some? then
      var e := ParseExpression(s, SkipWs(s, open.value));
      if e.Thrown? then e
      else if e.value.None? then Thrown(ParseError("Expected expression after '('", e.pos))
      else
        var q := SkipWs(s, e.pos);
        var close := MatchAt(s, q, ")");
        if close.None? then Thrown(ParseError("Expected ')' after an opening '('", q))
        else Parsed(e.value, close.value)
    else
      var stray := MatchAt(s, p, ")");
      if stray.Some? then Thrown(ParseError("Can't match the opening of ')'", stray.value))
      else Parsed(None, p)
  }

  /** `parseArgumentList`: empty when `)` comes first, else comma-separated expressions. */
  function ParseArgumentList(s: string, p: nat): (r: Parse<seq<Expression>>)
    requires p <= |s|
    ensures Within(r, s, p)
    decreases |s| - p, 11
  {
    var q := SkipWs(s, p);
    if PeekAt(s, q) == Some(')') then Parsed([], q) else ArgumentsFrom(s, q, [])
  }

  /** The `while (true)` of `parseArgumentList`, with `args` the arguments so far. */
  function ArgumentsFrom(s: string, p: nat, args: seq<Expression>): (r: Parse<seq<Expression>>)
    requires p <= |s|
    ensures Within(r, s, p)
    decreases |s| - p, 10
  {
    var a := ParseExpression(s, SkipWs(s, p));
    if a.Thrown? then Thrown(a.error)
    else if a.value.None? then Thrown(ParseError("Expected expression as function argument", a.pos))
    else
      var q := SkipWs(s, a.pos);
      var comma := MatchAt(s, q, ",");
      if comma.None? then Parsed(args + [a.value.value], q)
      else ArgumentsFrom(s, comma.value, args + [a.value.value])
  }

  /* Statements. */

  /**
   * `parseStatement`: a function declaration, a `let` or `const`
   * declaration, or an expression statement; each keyword is a plain prefix
   * of the text, and the closing `;` is optional.
   */
  function ParseStatement(s: string, p: nat): (r: Parse<Option<Statement>>)
    requires p <= |s|
    ensures Within(r, s, p) && Consumes(r, p)
    decreases |s| - p, 0
  {
    var q := SkipWs(s, p);
    var fn := MatchAt(s, q, "function");
    if fn.Some? then
      var d := ParseFunctionDeclaration(s, fn.value);
      if d.Thrown? then Thrown(d.error) else Parsed(Some(d.value), d.pos)
    else
      var kLet := MatchAt(s, q, "let");
      var kConst := if kLet.Some? then None else MatchAt(s, q, "const");
      if kLet.Some? then ParseDeclaration(s, kLet.value, Mutable)
      else if kConst.Some? then ParseDeclaration(s, kConst.value, Const)
      else
        var e := ParseExpression(s, q);
        if e.Thrown? then Thrown(e.error)
        else if e.value.None? then Parsed(None, e.pos)
        else Parsed(Some(ExpressionStmt(e.value.value)), MatchAt(s, e.pos, ";").GetOr(e.pos))
  }

  /**
   * The `let`/`const` branches of `parseStatement`, from just after the
   * keyword: a name, `=`, and an initializer that is not an assignment.
   * A missing part makes the statement null.
   */
  function ParseDeclaration(s: string, p: nat, m: Modifier): (r: Parse<Option<Statement>>)
    requires p <= |s|
    ensures Within(r, s, p)
  {
    var name := IdentifierAt(s, SkipWs(s, p));
    if name.value.None? then Parsed(None, name.pos)
    else
      var q := SkipWs(s, name.pos);
      var eq := MatchAt(s, q, "=");
      if eq.None? then Parsed(None, q)
      else
        var init := ParseExpression(s, SkipWs(s, eq.value));
        if init.Thrown? then Thrown(init.error)
        else if init.value.None? then Parsed(None, init.pos)
        else
          var end := MatchAt(s, init.pos, ";").GetOr(init.pos);
          if init.value.value.Assignment? then Thrown(ParseError("Expected expression after '='", end))
          else Parsed(Some(Declaration(name.value.value, None, m, Some(init.value.value))), end)
  }

  /** `parseFunctionDeclaration`, from just after the keyword `function`. */
  function ParseFunctionDeclaration(s: string, p: nat): (r: Parse<Statement>)
    requires p <= |s|
    ensures Within(r, s, p)
    decreases |s| - p, 3
  {
    var name := IdentifierAt(s, SkipWs(s, p));
    if name.value.None? then Thrown(ParseError("Expected function name", name.pos))
    else
      var q := SkipWs(s, name.pos);
      var open := MatchAt(s, q, "(");
      if open.None? then Thrown(ParseError("Expected '(' after function name", q))
      else
        var params := ParseParameterList(s, open.value);
        if params.Thrown? then Thrown(params.error)
        else
          var close := MatchAt(s, params.pos, ")");
          if close.None? then Thrown(ParseError("Expected ')' after parameter list", params.pos))
          else FunctionBodyAfter(s, close.value, name.value.value, params.value)
  }

  /** The rest of `parseFunctionDeclaration`, from just after the parameter list's `)`. */
  function FunctionBodyAfter(s: string, p: nat, name: string, params: seq<string>): (r: Parse<Statement>)
    requires p <= |s|
    ensures Within(r, s, p)
    decreases |s| - p, 3
  {
    var q := SkipWs(s, p);
    var open := MatchAt(s, q, "{");
    if open.None? then Thrown(ParseError("Expected '{' to begin function body", q))
    else
      var body := ParseFunctionBody(s, open.value);
      if body.Thrown? then Thrown(body.error)
      else
        var close := MatchAt(s, body.pos, "}");
        if close.None? then Thrown(ParseError("Expected '}' to end function body", body.pos))
        else Parsed(FunctionDeclaration(name, params, body.value), close.value)
  }

  /** `parseParameterList`: empty when `)` comes first, else comma-separated identifiers. */
  function ParseParameterList(s: string, p: nat): (r: Parse<seq<string>>)
    requires p <= |s|
    ensures Within(r, s, p)
  {
    var q := SkipWs(s, p);
    if PeekAt(s, q) == Some(')') then Parsed([], q) else ParametersFrom(s, q, [])
  }

  /** The `while (true)` of `parseParameterList`, with `params` the names so far. */
  function ParametersFrom(s: string, p: nat, params: seq<string>): (r: Parse<seq<string>>)
    requires p <= |s|
    ensures Within(r, s, p)
    decreases |s| - p
  {
    var id := IdentifierAt(s, SkipWs(s, p));
    if id.value.None? then Thrown(ParseError("Expected parameter name", id.pos))
    else
      var q := SkipWs(s, id.pos);
      var comma := MatchAt(s, q, ",");
      if comma.None? then Parsed(params + [id.value.value], q)
      else ParametersFrom(s, comma.value, params + [id.value.value])
  }

  /** `parseFunctionBody`, from just after the `{`. */
  function ParseFunctionBody(s: string, p: nat): (r: Parse<seq<Statement>>)
    requires p <= |s|
    ensures Within(r, s, p)
    decreases |s| - p, 2
  {
    BodyFrom(s, p, [], false)
  }

  /**
   * The `while (hasMore())` of `parseFunctionBody`: `body` holds the
   * statements so far and `found` whether one of them was a `return`. A
   * `}` ends the body, but only once a `return` has been seen.
   */
  function BodyFrom(s: string, p: nat, body: seq<Statement>, found: bool): (r: Parse<seq<Statement>>)
    requires p <= |s|
    ensures Within(r, s, p)
    decreases |s| - p, 1
  {
    if p >= |s| then Parsed(body, p)
    else
      var q := SkipWs(s, p);
      var ret := MatchAt(s, q, "return");
      var r := if ret.Some? then ReturnClause(s, ret.value, body) else Parsed(body, q);
      if r.Thrown? then r
      else if PeekAt(s, r.pos) == Some('}') then
        if !found && ret.None? then Thrown(ParseError("Expected a return statement in function body", r.pos))
        else r
      else
        var st := ParseStatement(s, r.pos);
        if st.Thrown? then Thrown(st.error)
        else if st.value.None? then Thrown(ParseError("Expected statement in function body", st.pos))
        else BodyFrom(s, st.pos, r.value + [st.value.value], found || ret.Some?)
  }

  /** The `return` branch of `parseFunctionBody`, from just after the keyword: the value is optional. */
  function ReturnClause(s: string, p: nat, body: seq<Statement>): (r: Parse<seq<Statement>>)
    requires p <= |s|
    ensures Within(r, s, p)
  {
    var e := ParseExpression(s, SkipWs(s, p));
    if e.Thrown? then Thrown(e.error)
    else
      var q := SkipWs(s, e.pos);
      Parsed(body + [ReturnStmt(e.value)], SkipWs(s, MatchAt(s, q, ";").GetOr(q)))
  }

  /** `parse`: statements in order, until the text ends or one cannot start. */
  function ParseProgram(s: string): (r: Parse<seq<Statement>>)
  {
    StatementsFrom(s, 0, [])
  }

  /** The `while (hasMore())` of `parse`, with `stmts` the statements so far. */
  function StatementsFrom(s: string, p: nat, stmts: seq<Statement>): (r: Parse<seq<Statement>>)
    requires p <= |s|
    ensures Within(r, s, p)
    decreases |s| - p
  {
    if p >= |s| then Parsed(stmts, p)
    else
      var st := ParseStatement(s, p);
      if st.Thrown? then Thrown(st.error)
      else if st.value.None? then Parsed(stmts, st.pos)
      else StatementsFrom(s, st.pos, stmts + [st.value.value])
  }
}
