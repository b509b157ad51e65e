/**
 * Class `Parser` of parser/Parser.kt: a recursive-descent parser that drives
 * one shared `Tokenizer` cursor, builds its lists in loops and folds binary
 * operators into `left` inside `while (true)`.
 *
 * A thrown `ParserException` is an `Err` result. Each method is proved to
 * give the result, and to leave the cursor, that the matching function of
 * `Grammar` computes from the cursor it started at.
 */
module Parsing {
  import opened Common
  import opened Values
  import opened Ast
  import opened Scanner
  import opened Grammar

  /** A method's result and final cursor, read as a `Parse`. */
  function Ran<T>(r: Result<T, ParseError>, pos: nat): (p: Parse<T>)
    ensures p.Parsed? <==> r.Ok?
  {
    if r.Ok? then Parsed(r.value, pos) else Thrown(r.error)
  }

  class Parser {
    const sourceCode: string
    const tokenizer: Tokenizer

    /** The tokenizer reads this parser's source, and its cursor is inside it. */
    ghost predicate Valid()
      reads tokenizer
    {
      tokenizer.input == sourceCode && tokenizer.position <= |sourceCode|
    }

    constructor (sourceCode: string)
      ensures this.sourceCode == sourceCode && fresh(tokenizer)
      ensures Valid() && tokenizer.position == 0
    {
      this.sourceCode := sourceCode;
      tokenizer := new Tokenizer(sourceCode);
    }

    /* Expressions. */

    method ParseExpression() returns (r: Result<Option<Expression>, ParseError>)
      requires Valid()
      modifies tokenizer
      ensures Valid()
      ensures Ran(r, tokenizer.position) == Grammar.ParseExpression(sourceCode, old(tokenizer.position))
      decreases |sourceCode| - tokenizer.position, 9
    {
      r := ParseAssignment();
    }

    method ParseAssignment() returns (r: Result<Option<Expression>, ParseError>)
      requires Valid()
      modifies tokenizer
      ensures Valid()
      ensures Ran(r, tokenizer.position) == Grammar.ParseAssignment(sourceCode, old(tokenizer.position))
      decreases |sourceCode| - tokenizer.position, 8
    {
      tokenizer.SkipWhitespace();
      var namePos := tokenizer.position;
      var lhs := tokenizer.Identifier();
      if lhs.Some? {
        tokenizer.SkipWhitespace();
        var isAssignment := tokenizer.Match("=");
        if isAssignment {
          r := AssignedValue(lhs.value);
          return;
        }
        tokenizer.position := namePos;
      }
      r := ParseOperand();
    }

    /** The fallback of `parseAssignment`: the additive chain, not followed by `=`. */
    method ParseOperand() returns (r: Result<Option<Expression>, ParseError>)
      requires Valid()
      modifies tokenizer
      ensures Valid()
      ensures Ran(r, tokenizer.position) == Grammar.ParseOperand(sourceCode, old(tokenizer.position))
      decreases |sourceCode| - tokenizer.position, 7
    {
      r := ParseAdditive();
      if r.Err? {
        return;
      }
      tokenizer.SkipWhitespace();
      var c := tokenizer.Peek();
      if c == Some('=') {
        assert sourceCode[tokenizer.position..tokenizer.position + 1] == "=";
        var _ := tokenizer.Match("=");
        return Err(ParseError("Left hand side of assignment must be a valid identifier.", tokenizer.position - 1));
      }
    }

    /** The assignment branch of `parseAssignment`, from just after the `=`. */
    method AssignedValue(target: string) returns (r: Result<Option<Expression>, ParseError>)
      requires Valid()
      modifies tokenizer
      ensures Valid()
      ensures Ran(r, tokenizer.position) == Grammar.AssignedValue(sourceCode, old(tokenizer.position), target)
      decreases |sourceCode| - tokenizer.position, 13
    {
      tokenizer.SkipWhitespace();
      var c := tokenizer.Peek();
      if c == Some('=') {
        return Err(ParseError("Invalid multiple assignment: '=' cannot follow an assignment expression", tokenizer.position));
      }
      var v := ParseExpression();
      if v.Err? {
        return v;
      }
      if v.value.None? {
        return Err(ParseError("Expected expression after '='", tokenizer.position));
      }
      if v.value.value.Assignment? {
        return Err(ParseError("Can't have nested assignments inside assignment expressions", tokenizer.position));
      }
      tokenizer.SkipWhitespace();
      return Ok(Some(Assignment(target, v.value.value)));
    }

    method ParseAdditive() returns (r: Result<Option<Expression>, ParseError>)
      requires Valid()
      modifies tokenizer
      ensures Valid()
      ensures Ran(r, tokenizer.position) == Grammar.ParseAdditive(sourceCode, old(tokenizer.position))
      decreases |sourceCode| - tokenizer.position, 6
    {
      ghost var s, p0 := sourceCode, tokenizer.position;
      r := ParseMultiplicative();
      if r.Err? || r.value.None? {
        return;
      }
      var left := r.value.value;
      while true
        invariant Valid() && p0 <= tokenizer.position
        invariant Grammar.ParseAdditive(s, p0) == AdditiveRest(s, tokenizer.position, left)
        decreases |s| - tokenizer.position
      {
        ghost var p := tokenizer.position;
        tokenizer.SkipWhitespace();
        var isPlus := tokenizer.Match("+");
        var isMinus := false;
        if !isPlus {
          isMinus := tokenizer.Match("-");
        }
        if !isPlus && !isMinus {
          return Ok(Some(left));
        }
        tokenizer.SkipWhitespace();
        ghost var q := tokenizer.position;
        var right := ParseMultiplicative();
        assert AdditiveRest(s, p, left) == AdditiveOperand(s, q, isPlus, left);
        if right.Err? {
          return right;
        }
        if right.value.None? {
          return Err(ParseError(if isPlus then "Expected expression after +" else "Expected expression after -", tokenizer.position));
        }
        left := if isPlus then Expression.Add(left, right.value.value) else Sub(left, right.value.value);
      }
    }

    method ParseMultiplicative() returns (r: Result<Option<Expression>, ParseError>)
      requires Valid()
      modifies tokenizer
      ensures Valid()
      ensures Ran(r, tokenizer.position) == Grammar.ParseMultiplicative(sourceCode, old(tokenizer.position))
      decreases |sourceCode| - tokenizer.position, 4
    {
      ghost var s, p0 := sourceCode, tokenizer.position;
      r := ParsePrimary();
      if r.Err? || r.value.None? {
        return;
      }
      var left := r.value.value;
      while true
        invariant Valid() && p0 <= tokenizer.position
        invariant Grammar.ParseMultiplicative(s, p0) == MultiplicativeRest(s, tokenizer.position, left)
        decreases |s| - tokenizer.position
      {
        ghost var p := tokenizer.position;
        tokenizer.SkipWhitespace();
        var isStar := tokenizer.Match("*");
        var isSlash := false;
        if !isStar {
          isSlash := tokenizer.Match("/");
        }
        if !isStar && !isSlash {
          return Ok(Some(left));
        }
        tokenizer.SkipWhitespace();
        ghost var q := tokenizer.position;
        var right := ParsePrimary();
        assert MultiplicativeRest(s, p, left) == MultiplicativeOperand(s, q, isStar, left);
        if right.Err? {
          return right;
        }
        if right.value.None? {
          return Err(ParseError(if isStar then "Expected expression after *" else "Expected expression after /", tokenizer.position));
        }
        left := if isStar then Mul(left, right.value.value) else Div(left, right.value.value);
      }
    }

    method ParsePrimary() returns (r: Result<Option<Expression>, ParseError>)
      requires Valid()
      modifies tokenizer
      ensures Valid()
      ensures Ran(r, tokenizer.position) == Grammar.ParsePrimary(sourceCode, old(tokenizer.position))
      decreases |sourceCode| - tokenizer.position, 2
    {
      tokenizer.SkipWhitespace();
      var number := tokenizer.Number();
      if number.Some? {
        return Ok(Some(Literal(IntValue(number.value))));
      }
      var text := tokenizer.String();
      if text.Some? {
        return Ok(Some(Literal(StringValue(text.value))));
      }
      var b := tokenizer.Boolean();
      if b.Some? {
        return Ok(Some(Literal(BoolValue(b.value))));
      }
      r := ParseNameOrGroup();
    }

    /** The variable, call and parenthesis cases of `parsePrimary`. */
    method ParseNameOrGroup() returns (r: Result<Option<Expression>, ParseError>)
      requires Valid()
      modifies tokenizer
      ensures Valid()
      ensures Ran(r, tokenizer.position) == Grammar.ParseNameOrGroup(sourceCode, old(tokenizer.position))
      decreases |sourceCode| - tokenizer.position, 1
    {
      var identifier := tokenizer.Identifier();
      if identifier.Some? {
        var isCall := tokenizer.Match("(");
        if isCall {
          r := ParseCall(identifier.value);
          return;
        }
        return Ok(Some(VariableReference(identifier.value)));
      }
      r := ParseParenthesised();
    }

    /** `parseFunctionCall` and the closing `)`, from just after the `(`. */
    method ParseCall(callee: string) returns (r: Result<Option<Expression>, ParseError>)
      requires Valid()
      modifies tokenizer
      ensures Valid()
      ensures Ran(r, tokenizer.position) == Grammar.ParseCall(sourceCode, old(tokenizer.position), callee)
      decreases |sourceCode| - tokenizer.position, 12
    {
      var args := ParseArgumentList();
      if args.Err? {
        return Err(args.error);
      }
      var closed := tokenizer.Match(")");
      if !closed {
        return Err(ParseError("Function call ')' should be closed", tokenizer.position));
      }
      return Ok(Some(FunctionCall(callee, args.value)));
    }

    method ParseParenthesised() returns (r: Result<Option<Expression>, ParseError>)
      requires Valid()
      modifies tokenizer
      ensures Valid()
      ensures Ran(r, tokenizer.position) == Grammar.ParseParenthesised(sourceCode, old(tokenizer.position))
      decreases |sourceCode| - tokenizer.position, 0
    {
      ghost var s, p0 := sourceCode, tokenizer.position;
      var isOpen := tokenizer.Match("(");
      if isOpen {
        tokenizer.SkipWhitespace();
        ghost var q := tokenizer.position;
        var e := ParseExpression();
        assert Grammar.ParseParenthesised(s, p0) == (
          var x := Grammar.ParseExpression(s, q);
          if x.Thrown? then x
          else if x.value.None? then Thrown(ParseError("Expected expression after '('", x.pos))
          else
            var q2 := SkipWs(s, x.pos);
            var close := MatchAt(s, q2, ")");
            if close.None? then Thrown(ParseError("Expected ')' after an opening '('", q2))
            else Parsed(x.value, close.value));
        if e.Err? {
          return e;
        }
        if e.value.None? {
          return Err(ParseError("Expected expression after '('", tokenizer.position));
        }
        tokenizer.SkipWhitespace();
        var closed := tokenizer.Match(")");
        if !closed {
          return Err(ParseError("Expected ')' after an opening '('", tokenizer.position));
        }
        return e;
      }
      var stray := tokenizer.Match(")");
      if stray {
        return Err(ParseError("Can't match the opening of ')'", tokenizer.position));
      }
      return Ok(None);
    }

    method ParseArgumentList() returns (r: Result<seq<Expression>, ParseError>)
      requires Valid()
      modifies tokenizer
      ensures Valid()
      ensures Ran(r, tokenizer.position) == Grammar.ParseArgumentList(sourceCode, old(tokenizer.position))
      decreases |sourceCode| - tokenizer.position, 11
    {
      ghost var s, p0 := sourceCode, tokenizer.position;
      var arguments: seq<Expression> := [];
      tokenizer.SkipWhitespace();
      var c := tokenizer.Peek();
      if c == Some(')') {
        return Ok(arguments);
      }
      while true
        invariant Valid() && p0 <= tokenizer.position
        invariant Grammar.ParseArgumentList(s, p0) == ArgumentsFrom(s, tokenizer.position, arguments)
        decreases |s| - tokenizer.position
      {
        ghost var p := tokenizer.position;
        tokenizer.SkipWhitespace();
        var argument := ParseExpression();
        if argument.Err? {
          return Err(argument.error);
        }
        if argument.value.None? {
          return Err(ParseError("Expected expression as function argument", tokenizer.position));
        }
        arguments := arguments + [argument.value.value];
        tokenizer.SkipWhitespace();
        var comma := tokenizer.Match(",");
        if !comma {
          break;
        }
      }
      return Ok(arguments);
    }
  
    /* Statements. */

    /** `parse`: statements in source order, until the text ends or one cannot start. */
    method Parse() returns (r: Result<seq<Statement>, ParseError>)
      requires Valid()
      modifies tokenizer
      ensures Valid()
      ensures Ran(r, tokenizer.position) == StatementsFrom(sourceCode, old(tokenizer.position), [])
    {
      ghost var s, p0 := sourceCode, tokenizer.position;
      var statements: seq<Statement> := [];
      while true
        invariant Valid()
        invariant StatementsFrom(s, p0, []) == StatementsFrom(s, tokenizer.position, statements)
        decreases |s| - tokenizer.position
      {
        var more := tokenizer.HasMore();
        if !more {
          break;
        }
        var statement := ParseStatement();
        if statement.Err? {
          return Err(statement.error);
        }
        if statement.value.None? {
          break;
        }
        statements := statements + [statement.value.value];
      }
      return Ok(statements);
    }

    method ParseStatement() returns (r: Result<Option<Statement>, ParseError>)
      requires Valid()
      modifies tokenizer
      ensures Valid()
      ensures Ran(r, tokenizer.position) == Grammar.ParseStatement(sourceCode, old(tokenizer.position))
      decreases |sourceCode| - tokenizer.position, 0
    {
      tokenizer.SkipWhitespace();
      var isFunction := tokenizer.Match("function");
      if isFunction {
        var d := ParseFunctionDeclaration();
        if d.Err? {
          return Err(d.error);
        }
        return Ok(Some(d.value));
      }
      var isLet := tokenizer.Match("let");
      if isLet {
        r := ParseDeclaration(Mutable);
        return;
      }
      var isConst := tokenizer.Match("const");
      if isConst {
        r := ParseDeclaration(Const);
        return;
      }
      var e := ParseExpression();
      if e.Err? {
        return Err(e.error);
      }
      if e.value.None? {
        return Ok(None);
      }
      var _ := tokenizer.Match(";");
      return Ok(Some(ExpressionStmt(e.value.value)));
    }

    /** The `let` and `const` branches of `parseStatement`, from just after the keyword. */
    method ParseDeclaration(modifier: Modifier) returns (r: Result<Option<Statement>, ParseError>)
      requires Valid()
      modifies tokenizer
      ensures Valid()
      ensures Ran(r, tokenizer.position) == Grammar.ParseDeclaration(sourceCode, old(tokenizer.position), modifier)
    {
      tokenizer.SkipWhitespace();
      var name := tokenizer.Identifier();
      if name.None? {
        return Ok(None);
      }
      tokenizer.SkipWhitespace();
      var isAssignment := tokenizer.Match("=");
      if !isAssignment {
        return Ok(None);
      }
      tokenizer.SkipWhitespace();
      var initializer := ParseExpression();
      if initializer.Err? {
        return Err(initializer.error);
      }
      if initializer.value.None? {
        return Ok(None);
      }
      var _ := tokenizer.Match(";");
      if initializer.value.value.Assignment? {
        return Err(ParseError("Expected expression after '='", tokenizer.position));
      }
      return Ok(Some(Declaration(name.value, None, modifier, Some(initializer.value.value))));
    }

    /** `parseFunctionDeclaration`, from just after the keyword `function`. */
    method ParseFunctionDeclaration() returns (r: Result<Statement, ParseError>)
      requires Valid()
      modifies tokenizer
      ensures Valid()
      ensures Ran(r, tokenizer.position) == Grammar.ParseFunctionDeclaration(sourceCode, old(tokenizer.position))
      decreases |sourceCode| - tokenizer.position, 3
    {
      tokenizer.SkipWhitespace();
      var name := tokenizer.Identifier();
      if name.None? {
        return Err(ParseError("Expected function name", tokenizer.position));
      }
      tokenizer.SkipWhitespace();
      var isOpen := tokenizer.Match("(");
      if !isOpen {
        return Err(ParseError("Expected '(' after function name", tokenizer.position));
      }
      var parameters := ParseParameterList();
      if parameters.Err? {
        return Err(parameters.error);
      }
      var isClosed := tokenizer.Match(")");
      if !isClosed {
        return Err(ParseError("Expected ')' after parameter list", tokenizer.position));
      }
      r := FunctionBodyAfter(name.value, parameters.value);
    }

    /** The rest of `parseFunctionDeclaration`, from just after the parameter list's `)`. */
    method FunctionBodyAfter(name: string, parameters: seq<string>) returns (r: Result<Statement, ParseError>)
      requires Valid()
      modifies tokenizer
      ensures Valid()
      ensures Ran(r, tokenizer.position) == Grammar.FunctionBodyAfter(sourceCode, old(tokenizer.position), name, parameters)
      decreases |sourceCode| - tokenizer.position, 3
    {
      tokenizer.SkipWhitespace();
      var isOpen := tokenizer.Match("{");
      if !isOpen {
        return Err(ParseError("Expected '{' to begin function body", tokenizer.position));
      }
      var body := ParseFunctionBody();
      if body.Err? {
        return Err(body.error);
      }
      var isClosed := tokenizer.Match("}");
      if !isClosed {
        return Err(ParseError("Expected '}' to end function body", tokenizer.position));
      }
      return Ok(FunctionDeclaration(name, parameters, body.value));
    }

    method ParseParameterList() returns (r: Result<seq<string>, ParseError>)
      requires Valid()
      modifies tokenizer
      ensures Valid()
      ensures Ran(r, tokenizer.position) == Grammar.ParseParameterList(sourceCode, old(tokenizer.position))
    {
      ghost var s, p0 := sourceCode, tokenizer.position;
      var parameters: seq<string> := [];
      tokenizer.SkipWhitespace();
      var c := tokenizer.Peek();
      if c == Some(')') {
        return Ok(parameters);
      }
      while true
        invariant Valid()
        invariant Grammar.ParseParameterList(s, p0) == ParametersFrom(s, tokenizer.position, parameters)
        decreases |s| - tokenizer.position
      {
        tokenizer.SkipWhitespace();
        var parameter := tokenizer.Identifier();
        if parameter.None? {
          return Err(ParseError("Expected parameter name", tokenizer.position));
        }
        parameters := parameters + [parameter.value];
        tokenizer.SkipWhitespace();
        var comma := tokenizer.Match(",");
        if !comma {
          break;
        }
      }
      return Ok(parameters);
    }

    /** `parseFunctionBody`, from just after the `{`. */
    method ParseFunctionBody() returns (r: Result<seq<Statement>, ParseError>)
      requires Valid()
      modifies tokenizer
      ensures Valid()
      ensures Ran(r, tokenizer.position) == Grammar.ParseFunctionBody(sourceCode, old(tokenizer.position))
      decreases |sourceCode| - tokenizer.position, 2
    {
      ghost var s, p0 := sourceCode, tokenizer.position;
      var statements: seq<Statement> := [];
      var found := false;
      while true
        invariant Valid() && p0 <= tokenizer.position
        invariant Grammar.ParseFunctionBody(s, p0) == BodyFrom(s, tokenizer.position, statements, found)
        decreases |s| - tokenizer.position
      {
        ghost var p := tokenizer.position;
        var more := tokenizer.HasMore();
        if !more {
          break;
        }
        tokenizer.SkipWhitespace();
        var isReturn := tokenizer.Match("return");
        if isReturn {
          found := true;
          var withReturn := ParseReturn(statements);
          if withReturn.Err? {
            return withReturn;
          }
          statements := withReturn.value;
        }
        var c := tokenizer.Peek();
        if c == Some('}') {
          if !found {
            return Err(ParseError("Expected a return statement in function body", tokenizer.position));
          }
          break;
        }
        var statement := ParseStatement();
        if statement.Err? {
          return Err(statement.error);
        }
        if statement.value.None? {
          return Err(ParseError("Expected statement in function body", tokenizer.position));
        }
        statements := statements + [statement.value.value];
      }
      return Ok(statements);
    }

    /** The `return` branch of `parseFunctionBody`, from just after the keyword. */
    method ParseReturn(statements: seq<Statement>) returns (r: Result<seq<Statement>, ParseError>)
      requires Valid()
      modifies tokenizer
      ensures Valid()
      ensures Ran(r, tokenizer.position) == ReturnClause(sourceCode, old(tokenizer.position), statements)
    {
      tokenizer.SkipWhitespace();
      var e := ParseExpression();
      if e.Err? {
        return Err(e.error);
      }
      tokenizer.SkipWhitespace();
      var _ := tokenizer.Match(";");
      tokenizer.SkipWhitespace();
      return Ok(statements + [ReturnStmt(e.value)]);
    }
  }

  /** Parsing a whole text with a new `Parser` gives what `ParseProgram` says. */
  method ParseSource(text: string) returns (r: Result<seq<Statement>, ParseError>)
    ensures r.Ok? <==> ParseProgram(text).Parsed?
    ensures r.Ok? ==> r.value == ParseProgram(text).value
    ensures r.Err? ==> r.error == ParseProgram(text).error
  {
    var parser := new Parser(text);
    r := parser.Parse();
  }
}
