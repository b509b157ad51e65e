/**
 * What parser/Parser.kt promises about the trees it builds, for every
 * input: only the eight expression forms it knows, never an assignment
 * whose value is itself an assignment, declarations whose initializer is
 * not an assignment, and function bodies that hold a `return`.
 */
module ParserLaws {
  import opened Common
  import opened Values
  import opened Ast
  import opened Scanner
  import opened Grammar

  /**
   * The expressions the parser can build: literals, variables, calls, the
   * four arithmetic operators and assignments whose value is not itself an
   * assignment. The logical and comparison forms are never built.
   */
  predicate Buildable(e: Expression) {
    match e
    case VariableReference(_) => true
    case Literal(_) => true
    case Assignment(_, v) => !v.Assignment? && Buildable(v)
    case FunctionCall(_, args) => forall i :: 0 <= i < |args| ==> Buildable(args[i])
    case Add(l, r) => Buildable(l) && Buildable(r)
    case Sub(l, r) => Buildable(l) && Buildable(r)
    case Mul(l, r) => Buildable(l) && Buildable(r)
    case Div(l, r) => Buildable(l) && Buildable(r)
    case BAnd(_, _) => false
    case BOr(_, _) => false
    case BNeg(_) => false
    case GreaterThan(_, _) => false
    case LessThan(_, _) => false
    case GreaterThanOrEquals(_, _) => false
    case LessThanOrEquals(_, _) => false
    case Equals(_, _) => false
  }

  predicate AllBuildable(es: seq<Expression>) {
    forall i :: 0 <= i < |es| ==> Buildable(es[i])
  }

  /** A parse result that, when it holds an expression, holds a buildable one. */
  predicate BuildsExpression(r: Parse<Option<Expression>>) {
    r.Parsed? && r.value.Some? ==> Buildable(r.value.value)
  }

  /* One lemma per parse function, by the same recursion the functions use. */

  lemma {:induction false} ExpressionBuildable(s: string, p: nat)
    requires p <= |s|
    ensures BuildsExpression(ParseExpression(s, p))
    decreases |s| - p, 9
  {
    AssignmentBuildable(s, p);
  }

  lemma {:induction false} AssignmentBuildable(s: string, p: nat)
    requires p <= |s|
    ensures BuildsExpression(ParseAssignment(s, p))
    decreases |s| - p, 8
  {
    var namePos := SkipWs(s, p);
    var lhs := IdentifierAt(s, namePos);
    var eq := if lhs.value.Some? then MatchAt(s, SkipWs(s, lhs.pos), "=") else None;
    if eq.Some? {
      AssignedValueBuildable(s, eq.value, lhs.value.value);
    } else {
      OperandBuildable(s, namePos);
    }
  }

  lemma {:induction false} AssignedValueBuildable(s: string, p: nat, target: string)
    requires p <= |s|
    ensures BuildsExpression(AssignedValue(s, p, target))
    decreases |s| - p, 13
  {
    ExpressionBuildable(s, SkipWs(s, p));
  }

  lemma {:induction false} OperandBuildable(s: string, p: nat)
    requires p <= |s|
    ensures BuildsExpression(ParseOperand(s, p))
    decreases |s| - p, 7
  {
    AdditiveBuildable(s, p);
  }

  lemma {:induction false} AdditiveBuildable(s: string, p: nat)
    requires p <= |s|
    ensures BuildsExpression(ParseAdditive(s, p))
    decreases |s| - p, 6
  {
    var l := ParseMultiplicative(s, p);
    MultiplicativeBuildable(s, p);
    if l.Parsed? && l.value.Some? {
      AdditiveRestBuildable(s, l.pos, l.value.value);
    }
  }

  lemma {:induction false} AdditiveRestBuildable(s: string, p: nat, left: Expression)
    requires p <= |s| && Buildable(left)
    ensures BuildsExpression(AdditiveRest(s, p, left))
    decreases |s| - p, 6
  {
    var q := SkipWs(s, p);
    var plus := MatchAt(s, q, "+");
    var minus := if plus.Some? then None else MatchAt(s, q, "-");
    if plus.Some? || minus.Some? {
      AdditiveOperandBuildable(s, SkipWs(s, if plus.Some? then plus.value else minus.value), plus.Some?, left);
    }
  }

  lemma {:induction false} AdditiveOperandBuildable(s: string, p: nat, isPlus: bool, left: Expression)
    requires p <= |s| && Buildable(left)
    ensures BuildsExpression(AdditiveOperand(s, p, isPlus, left))
    decreases |s| - p, 5
  {
    var right := ParseMultiplicative(s, p);
    MultiplicativeBuildable(s, p);
    if right.Parsed? && right.value.Some? {
      var e := if isPlus then Expression.Add(left, right.value.value) else Sub(left, right.value.value);
      AdditiveRestBuildable(s, right.pos, e);
    }
  }

  lemma {:induction false} MultiplicativeBuildable(s: string, p: nat)
    requires p <= |s|
    ensures BuildsExpression(ParseMultiplicative(s, p))
    decreases |s| - p, 4
  {
    var l := ParsePrimary(s, p);
    PrimaryBuildable(s, p);
    if l.Parsed? && l.value.Some? {
      MultiplicativeRestBuildable(s, l.pos, l.value.value);
    }
  }

  lemma {:induction false} MultiplicativeRestBuildable(s: string, p: nat, left: Expression)
    requires p <= |s| && Buildable(left)
    ensures BuildsExpression(MultiplicativeRest(s, p, left))
    decreases |s| - p, 4
  {
    var q := SkipWs(s, p);
    var star := MatchAt(s, q, "*");
    var slash := if star.Some? then None else MatchAt(s, q, "/");
    if star.Some? || slash.Some? {
      MultiplicativeOperandBuildable(s, SkipWs(s, if star.Some? then star.value else slash.value), star.Some?, left);
    }
  }

  lemma {:induction false} MultiplicativeOperandBuildable(s: string, p: nat, isStar: bool, left: Expression)
    requires p <= |s| && Buildable(left)
    ensures BuildsExpression(MultiplicativeOperand(s, p, isStar, left))
    decreases |s| - p, 3
  {
    var right := ParsePrimary(s, p);
    PrimaryBuildable(s, p);
    if right.Parsed? && right.value.Some? {
      var e := if isStar then Mul(left, right.value.value) else Div(left, right.value.value);
      MultiplicativeRestBuildable(s, right.pos, e);
    }
  }


  lemma {:induction false} PrimaryBuildable(s: string, p: nat)
    requires p <= |s|
    ensures BuildsExpression(ParsePrimary(s, p))
    decreases |s| - p, 2
  {
    var n := NumberAt(s, SkipWs(s, p));
    var str := StringRaw(s, n.pos);
    var b := BooleanAt(s, str.pos);
    if n.value.None? && str.value.None? && b.value.None? {
      NameOrGroupBuildable(s, b.pos);
    }
  }

  lemma {:induction false} NameOrGroupBuildable(s: string, p: nat)
    requires p <= |s|
    ensures BuildsExpression(ParseNameOrGroup(s, p))
    decreases |s| - p, 1
  {
    var id := IdentifierAt(s, p);
    if id.value.Some? {
      var open := MatchAt(s, id.pos, "(");
      if open.Some? {
        CallBuildable(s, open.value, id.value.value);
      }
    } else {
      ParenthesisedBuildable(s, p);
    }
  }

  lemma {:induction false} CallBuildable(s: string, p: nat, callee: string)
    requires p <= |s|
    ensures BuildsExpression(ParseCall(s, p, callee))
    decreases |s| - p, 12
  {
    ArgumentListBuildable(s, p);
  }

  lemma {:induction false} ParenthesisedBuildable(s: string, p: nat)
    requires p <= |s|
    ensures BuildsExpression(ParseParenthesised(s, p))
    decreases |s| - p, 0
  {
    var open := MatchAt(s, p, "(");
    if open.Some? {
      ExpressionBuildable(s, SkipWs(s, open.value));
    }
  }

  lemma {:induction false} ArgumentListBuildable(s: string, p: nat)
    requires p <= |s|
    ensures var r := ParseArgumentList(s, p); r.Parsed? ==> AllBuildable(r.value)
    decreases |s| - p, 11
  {
    var q := SkipWs(s, p);
    if PeekAt(s, q) != Some(')') {
      ArgumentsFromBuildable(s, q, []);
    }
  }

  lemma {:induction false} ArgumentsFromBuildable(s: string, p: nat, args: seq<Expression>)
    requires p <= |s| && AllBuildable(args)
    ensures var r := ArgumentsFrom(s, p, args); r.Parsed? ==> AllBuildable(r.value)
    decreases |s| - p, 10
  {
    var a := ParseExpression(s, SkipWs(s, p));
    ExpressionBuildable(s, SkipWs(s, p));
    if a.Parsed? && a.value.Some? {
      var more := args + [a.value.value];
      assert AllBuildable(more) by {
        forall i | 0 <= i < |more| ensures Buildable(more[i]) {
          if i < |args| {
            assert more[i] == args[i];
          }
        }
      }
      var q := SkipWs(s, a.pos);
      var comma := MatchAt(s, q, ",");
      if comma.Some? {
        ArgumentsFromBuildable(s, comma.value, more);
      }
    }
  }

  /** Some statement of the list is a `return`. */
  predicate HasReturn(body: seq<Statement>) {
    exists i :: 0 <= i < |body| && body[i].ReturnStmt?
  }

  /**
   * The statements the parser can build: a declaration with no stored value
   * and a buildable initializer that is not an assignment, an expression
   * statement, a function declaration whose body holds a `return`, or a
   * `return` of an optional buildable expression.
   */
  predicate WellFormed(st: Statement) {
    match st
    case Declaration(_, value, _, init) =>
      value.None? && init.Some? && !init.value.Assignment? && Buildable(init.value)
    case ExpressionStmt(e) => Buildable(e)
    case FunctionDeclaration(_, _, body) =>
      HasReturn(body) && forall i :: 0 <= i < |body| ==> WellFormed(body[i])
    case ReturnStmt(e) => e.Some? ==> Buildable(e.value)
  }

  predicate AllWellFormed(body: seq<Statement>) {
    forall i :: 0 <= i < |body| ==> WellFormed(body[i])
  }

  /** A statement as `parseStatement` builds it: well formed, and never a `return`. */
  predicate BuildsStatement(r: Parse<Option<Statement>>) {
    r.Parsed? && r.value.Some? ==> WellFormed(r.value.value) && !r.value.value.ReturnStmt?
  }

  lemma {:induction false} AppendWellFormed(body: seq<Statement>, st: Statement)
    requires AllWellFormed(body) && WellFormed(st)
    ensures AllWellFormed(body + [st])
    ensures HasReturn(body) || st.ReturnStmt? ==> HasReturn(body + [st])
  {
    var more := body + [st];
    forall i | 0 <= i < |more| ensures WellFormed(more[i]) {
      if i < |body| {
        assert more[i] == body[i];
      }
    }
    if HasReturn(body) {
      var i :| 0 <= i < |body| && body[i].ReturnStmt?;
      assert more[i] == body[i];
    }
    if st.ReturnStmt? {
      assert more[|body|] == st;
    }
  }

  lemma {:induction false} StatementWellFormed(s: string, p: nat)
    requires p <= |s|
    ensures BuildsStatement(ParseStatement(s, p))
    decreases |s| - p, 0
  {
    var q := SkipWs(s, p);
    var fn := MatchAt(s, q, "function");
    if fn.Some? {
      FunctionDeclarationWellFormed(s, fn.value);
    } else {
      var kLet := MatchAt(s, q, "let");
      var kConst := if kLet.Some? then None else MatchAt(s, q, "const");
      if kLet.Some? {
        DeclarationWellFormed(s, kLet.value, Mutable);
      } else if kConst.Some? {
        DeclarationWellFormed(s, kConst.value, Const);
      } else {
        ExpressionBuildable(s, q);
      }
    }
  }

  lemma {:induction false} DeclarationWellFormed(s: string, p: nat, m: Modifier)
    requires p <= |s|
    ensures var r := ParseDeclaration(s, p, m);
      r.Parsed? && r.value.Some? ==> r.value.value.Declaration? && r.value.value.modifier == m && WellFormed(r.value.value)
  {
    var name := IdentifierAt(s, SkipWs(s, p));
    if name.value.Some? {
      var q := SkipWs(s, name.pos);
      var eq := MatchAt(s, q, "=");
      if eq.Some? {
        ExpressionBuildable(s, SkipWs(s, eq.value));
      }
    }
  }

  lemma {:induction false} FunctionDeclarationWellFormed(s: string, p: nat)
    requires p <= |s|
    ensures var r := ParseFunctionDeclaration(s, p);
      r.Parsed? ==> r.value.FunctionDeclaration? && WellFormed(r.value)
    decreases |s| - p, 4
  {
    var name := IdentifierAt(s, SkipWs(s, p));
    if name.value.Some? {
      var q := SkipWs(s, name.pos);
      var open := MatchAt(s, q, "(");
      if open.Some? {
        var params := ParseParameterList(s, open.value);
        if params.Parsed? {
          var close := MatchAt(s, params.pos, ")");
          if close.Some? {
            BodyAfterWellFormed(s, close.value, name.value.value, params.value);
          }
        }
      }
    }
  }

  lemma {:induction false} BodyAfterWellFormed(s: string, p: nat, name: string, params: seq<string>)
    requires p <= |s|
    ensures var r := FunctionBodyAfter(s, p, name, params);
      r.Parsed? ==> r.value.FunctionDeclaration? && WellFormed(r.value)
    decreases |s| - p, 3
  {
    var q := SkipWs(s, p);
    var open := MatchAt(s, q, "{");
    if open.Some? {
      ClosedBodyWellFormed(s, open.value);
    }
  }

  /** A body that a `}` closes holds well-formed statements and a `return`. */
  lemma {:induction false} ClosedBodyWellFormed(s: string, p: nat)
    requires p <= |s|
    ensures var body := ParseFunctionBody(s, p);
      body.Parsed? && MatchAt(s, body.pos, "}").Some? ==> AllWellFormed(body.value) && HasReturn(body.value)
    decreases |s| - p, 2
  {
    BodyFromWellFormed(s, p, [], false);
    var body := ParseFunctionBody(s, p);
    if body.Parsed? && MatchAt(s, body.pos, "}").Some? {
      ClosingBrace(s, body.pos);
    }
  }

  /** Where `}` matches, `}` is the character there. */
  lemma {:induction false} ClosingBrace(s: string, q: nat)
    requires MatchAt(s, q, "}").Some?
    ensures PeekAt(s, q) == Some('}')
  {
    assert s[q..q + 1][0] == s[q];
  }

  /**
   * The body loop keeps its statements well formed, and when it stops at a
   * `}` a `return` has been seen.
   */
  lemma {:induction false} BodyFromWellFormed(s: string, p: nat, body: seq<Statement>, found: bool)
    requires p <= |s| && AllWellFormed(body) && (found ==> HasReturn(body))
    ensures var r := BodyFrom(s, p, body, found);
      r.Parsed? ==> AllWellFormed(r.value) && (PeekAt(s, r.pos) == Some('}') ==> HasReturn(r.value))
    decreases |s| - p, 1
  {
    if p < |s| {
      var q := SkipWs(s, p);
      var ret := MatchAt(s, q, "return");
      var r := if ret.Some? then ReturnClause(s, ret.value, body) else Parsed(body, q);
      if ret.Some? {
        ReturnClauseWellFormed(s, ret.value, body);
      }
      if r.Parsed? && PeekAt(s, r.pos) != Some('}') {
        var st := ParseStatement(s, r.pos);
        StatementWellFormed(s, r.pos);
        if st.Parsed? && st.value.Some? {
          AppendWellFormed(r.value, st.value.value);
          BodyFromWellFormed(s, st.pos, r.value + [st.value.value], found || ret.Some?);
        }
      }
    }
  }

  lemma {:induction false} ReturnClauseWellFormed(s: string, p: nat, body: seq<Statement>)
    requires p <= |s| && AllWellFormed(body)
    ensures var r := ReturnClause(s, p, body);
      r.Parsed? ==> AllWellFormed(r.value) && HasReturn(r.value)
  {
    var e := ParseExpression(s, SkipWs(s, p));
    ExpressionBuildable(s, SkipWs(s, p));
    if e.Parsed? {
      AppendWellFormed(body, ReturnStmt(e.value));
    }
  }

  /**
   * Every program the parser accepts is made of well-formed statements,
   * none of them a `return`: a `return` is only read inside a function body.
   */
  lemma {:induction false} ProgramWellFormed(s: string)
    ensures var r := ParseProgram(s);
      r.Parsed? ==> forall i :: 0 <= i < |r.value| ==> WellFormed(r.value[i]) && !r.value[i].ReturnStmt?
  {
    StatementsFromWellFormed(s, 0, []);
  }

  lemma {:induction false} StatementsFromWellFormed(s: string, p: nat, stmts: seq<Statement>)
    requires p <= |s|
    requires forall i :: 0 <= i < |stmts| ==> WellFormed(stmts[i]) && !stmts[i].ReturnStmt?
    ensures var r := StatementsFrom(s, p, stmts);
      r.Parsed? ==> forall i :: 0 <= i < |r.value| ==> WellFormed(r.value[i]) && !r.value[i].ReturnStmt?
    decreases |s| - p
  {
    if p < |s| {
      var st := ParseStatement(s, p);
      StatementWellFormed(s, p);
      if st.Parsed? && st.value.Some? {
        var more := stmts + [st.value.value];
        forall i | 0 <= i < |more| ensures WellFormed(more[i]) && !more[i].ReturnStmt? {
          if i < |stmts| {
            assert more[i] == stmts[i];
          }
        }
        StatementsFromWellFormed(s, st.pos, more);
        assert StatementsFrom(s, p, stmts) == StatementsFrom(s, st.pos, more);
      }
    }
  }
}
