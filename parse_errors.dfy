/**
 * The message of a `ParserException` (parser/ParserException.kt): the
 * offset of a parse error is turned into a line and a column, and the
 * report shows the offending line with a caret under the column.
 */
module ParseErrors {
  import opened Common
  import opened Grammar

  predicate IsLineBreak(c: char) {
    c == '\n' || c == '\r'
  }

  /**
   * `String.lines()`: the text cut at each "\r\n", "\n" or "\r". There is
   * always at least one line, and a text that ends in a break ends with an
   * empty line.
   */
  function Lines(s: string): (ls: seq<string>)
    ensures |ls| >= 1
    decreases |s|
  {
    if s == [] then [[]]
    else if s[0] == '\n' then [[]] + Lines(s[1..])
    else if s[0] == '\r' then
      if |s| > 1 && s[1] == '\n' then [[]] + Lines(s[2..]) else [[]] + Lines(s[1..])
    else
      var rest := Lines(s[1..]);
      [[s[0]] + rest[0]] + rest[1..]
  }

  /** Lines put back together with "\n" between them. */
  function Join(ls: seq<string>): string
    requires |ls| >= 1
  {
    if |ls| == 1 then ls[0] else ls[0] + "\n" + Join(ls[1..])
  }

  /** Offset, in the joined text, of the first character of line `k` (counted from 0). */
  function LineStart(ls: seq<string>, k: nat): nat
    requires k < |ls|
  {
    if k == 0 then 0 else |ls[0]| + 1 + LineStart(ls[1..], k - 1)
  }

  /** Offset just past the last character of the last line: the length of the joined text. */
  function TextEnd(ls: seq<string>): nat
    requires |ls| >= 1
  {
    LineStart(ls, |ls| - 1) + |ls[|ls| - 1]|
  }

  /**
   * The `for` loop of `prettyPrintParseError`: starting at `column` on the
   * first of `ls`, how many lines it steps past (each taking its length and
   * one newline off the column) and the column it stops with. It stops on
   * the first line at least as long as the column.
   */
  function Walk(ls: seq<string>, column: nat): (r: (nat, nat))
    ensures r.0 <= |ls|
    ensures r.0 < |ls| ==> r.1 <= |ls[r.0]|
  {
    if ls == [] || column <= |ls[0]| then (0, column)
    else
      var w := Walk(ls[1..], column - |ls[0]| - 1);
      (w.0 + 1, w.1)
  }

  /**
   * Line (from 1) and column (from 0) reported for `offset`; an offset past
   * the last line is moved to the end of the last line. The column never
   * exceeds the length of the line reported, so neither `repeat` of the
   * report is given a negative count.
   */
  function Position(ls: seq<string>, offset: nat): (r: (nat, nat))
    requires |ls| >= 1
    ensures 1 <= r.0 <= |ls| && r.1 <= |ls[r.0 - 1]|
  {
    var w := Walk(ls, offset);
    if w.0 + 1 > |ls| then (|ls|, |ls[|ls| - 1]|) else (w.0 + 1, w.1)
  }

  function Repeat(c: char, n: nat): (r: string)
    ensures |r| == n && forall i :: 0 <= i < n ==> r[i] == c
  {
    if n == 0 then [] else [c] + Repeat(c, n - 1)
  }

  function Min(a: int, b: int): int {
    if a <= b then a else b
  }

  /** The caret line: `column` spaces, `^`, then up to three `~` under the rest of the line. */
  function Caret(column: nat, lineLength: nat): (r: string)
    requires column <= lineLength
    ensures |r| == column + 1 + Min(3, lineLength - column) && r[column] == '^'
    ensures forall i :: 0 <= i < column ==> r[i] == ' '
    ensures forall i :: column < i < |r| ==> r[i] == '~'
  {
    Repeat(' ', column) + "^" + Repeat('~', Min(3, lineLength - column))
  }

  /** `prettyPrintParseError(source, offset, message)`. */
  function Report(source: string, offset: nat, message: string): string {
    var ls := Lines(source);
    var at := Position(ls, offset);
    var errorLine := ls[at.0 - 1];
    "Syntax error at line " + NatToString(at.0) + ", column " + NatToString(at.1) + ": " + message + "\n"
      + errorLine + "\n" + Caret(at.1, |errorLine|)
  }

  /** The message a `ParserException` carries for `error` raised while parsing `source`. */
  function ExceptionMessage(source: string, error: ParseError): string {
    Report(source, error.offset, error.message)
  }

  /**
   * The first half of `prettyPrintParseError`: the loop over the lines and
   * the move of an offset past the last line to the end of that line.
   */
  method Locate(lines: seq<string>, errorOffset: nat) returns (lineNumber: nat, column: nat)
    requires |lines| >= 1
    ensures (lineNumber, column) == Position(lines, errorOffset)
  {
    lineNumber := 1;
    column := errorOffset;
    var i := 0;
    while i < |lines|
      invariant i <= |lines| && lineNumber == i + 1
      invariant Walk(lines, errorOffset) == (i + Walk(lines[i..], column).0, Walk(lines[i..], column).1)
    {
      if column <= |lines[i]| {
        break;
      }
      assert lines[i..][1..] == lines[i + 1..];
      column := column - |lines[i]| - 1;
      lineNumber := lineNumber + 1;
      i := i + 1;
    }
    assert Walk(lines, errorOffset) == (lineNumber - 1, column);
    if lineNumber > |lines| {
      lineNumber := |lines|;
      column := |lines[|lines| - 1]|;
    }
  }

  /** `prettyPrintParseError`. */
  method PrettyPrintParseError(source: string, errorOffset: nat, errorMessage: string) returns (report: string)
    ensures report == Report(source, errorOffset, errorMessage)
  {
    var lines := Lines(source);
    var lineNumber, column := Locate(lines, errorOffset);
    var header := "Syntax error at line " + NatToString(lineNumber) + ", column " + NatToString(column)
      + ": " + errorMessage + "\n";
    var errorLine := if lineNumber <= |lines| then lines[lineNumber - 1] else "";
    var squiggly := Caret(column, |errorLine|);
    report := header + errorLine + "\n" + squiggly;
  }

  /* What the reported position means. */

  /** No line holds a line break. */
  lemma {:induction false} LinesHaveNoBreaks(s: string)
    ensures forall k, j :: 0 <= k < |Lines(s)| && 0 <= j < |Lines(s)[k]| ==> !IsLineBreak(Lines(s)[k][j])
    decreases |s|
  {
    if s == [] {
    } else if s[0] == '\n' {
      LinesHaveNoBreaks(s[1..]);
      assert forall k :: 1 <= k < |Lines(s)| ==> Lines(s)[k] == Lines(s[1..])[k - 1];
    } else if s[0] == '\r' {
      if |s| > 1 && s[1] == '\n' {
        LinesHaveNoBreaks(s[2..]);
        assert forall k :: 1 <= k < |Lines(s)| ==> Lines(s)[k] == Lines(s[2..])[k - 1];
      } else {
        LinesHaveNoBreaks(s[1..]);
        assert forall k :: 1 <= k < |Lines(s)| ==> Lines(s)[k] == Lines(s[1..])[k - 1];
      }
    } else {
      var rest := Lines(s[1..]);
      LinesHaveNoBreaks(s[1..]);
      assert forall k :: 1 <= k < |Lines(s)| ==> Lines(s)[k] == rest[k];
    }
  }

  /** An empty first line adds only its "\n" to the joined text. */
  lemma {:induction false} JoinEmptyFirst(ls: seq<string>)
    requires |ls| >= 1
    ensures Join([[]] + ls) == "\n" + Join(ls)
  {
    var whole := [[]] + ls;
    assert whole[0] == [] && whole[1..] == ls;
  }

  /** A character put in front of the first line is put in front of the joined text. */
  lemma {:induction false} JoinConsFirst(c: char, ls: seq<string>)
    requires |ls| >= 1
    ensures Join([[c] + ls[0]] + ls[1..]) == [c] + Join(ls)
  {
    var whole := [[c] + ls[0]] + ls[1..];
    if |ls| > 1 {
      assert whole[1..] == ls[1..];
      assert Join(whole) == ([c] + ls[0]) + "\n" + Join(ls[1..]);
    }
  }

  /** A text without "\r" is its lines joined with "\n": `lines()` loses nothing. */
  lemma {:induction false} JoinLines(s: string)
    requires forall i :: 0 <= i < |s| ==> s[i] != '\r'
    ensures Join(Lines(s)) == s
    decreases |s|
  {
    if s == [] {
    } else if s[0] == '\n' {
      JoinLines(s[1..]);
      JoinEmptyFirst(Lines(s[1..]));
      assert s == "\n" + s[1..];
    } else {
      JoinLines(s[1..]);
      JoinConsFirst(s[0], Lines(s[1..]));
      assert s == [s[0]] + s[1..];
    }
  }

  /** The joined text is as long as `TextEnd` says. */
  lemma {:induction false} JoinLength(ls: seq<string>)
    requires |ls| >= 1
    ensures |Join(ls)| == TextEnd(ls)
  {
    if |ls| > 1 {
      JoinLength(ls[1..]);
      assert ls[1..][|ls| - 2] == ls[|ls| - 1];
      assert LineStart(ls, |ls| - 1) == |ls[0]| + 1 + LineStart(ls[1..], |ls| - 2);
    }
  }

  /**
   * Character `c` of line `k` sits at `LineStart(ls, k) + c` of the joined
   * text, and the position just past a line that is not the last holds the
   * "\n" that follows it.
   */
  lemma {:induction false} JoinIndex(ls: seq<string>, k: nat, c: nat)
    requires k < |ls| && c <= |ls[k]| && (c < |ls[k]| || k < |ls| - 1)
    ensures LineStart(ls, k) + c < |Join(ls)|
    ensures Join(ls)[LineStart(ls, k) + c] == if c < |ls[k]| then ls[k][c] else '\n'
  {
    if k > 0 {
      JoinIndex(ls[1..], k - 1, c);
    }
  }

  /** Each line and column is reported for the offset that points at it. */
  lemma {:induction false} WalkFindsLine(ls: seq<string>, k: nat, c: nat)
    requires k < |ls| && c <= |ls[k]|
    ensures Walk(ls, LineStart(ls, k) + c) == (k, c)
  {
    if k > 0 {
      WalkFindsLine(ls[1..], k - 1, c);
    }
  }

  /** A walk that stops on a line stops at the line and column the offset points at. */
  lemma {:induction false} WalkRecoversOffset(ls: seq<string>, offset: nat)
    requires Walk(ls, offset).0 < |ls|
    ensures LineStart(ls, Walk(ls, offset).0) + Walk(ls, offset).1 == offset
  {
    if offset > |ls[0]| {
      WalkRecoversOffset(ls[1..], offset - |ls[0]| - 1);
    }
  }

  /** The walk runs past every line exactly when the offset is past the end of the text. */
  lemma {:induction false} WalkPastEnd(ls: seq<string>, offset: nat)
    requires |ls| >= 1
    ensures Walk(ls, offset).0 == |ls| <==> offset > TextEnd(ls)
  {
    if offset > |ls[0]| && |ls| > 1 {
      WalkPastEnd(ls[1..], offset - |ls[0]| - 1);
    }
  }

  /** Line `k + 1`, column `c` is reported for the offset of character `c` of line `k`. */
  lemma {:induction false} PositionFindsLine(ls: seq<string>, k: nat, c: nat)
    requires k < |ls| && c <= |ls[k]|
    ensures Position(ls, LineStart(ls, k) + c) == (k + 1, c)
  {
    var offset := LineStart(ls, k) + c;
    WalkFindsLine(ls, k, c);
    PositionOfWalk(ls, offset);
  }

  /** When the walk stops on a line, that line (from 1) and the walk's column are reported. */
  lemma {:induction false} PositionOfWalk(ls: seq<string>, offset: nat)
    requires |ls| >= 1 && Walk(ls, offset).0 < |ls|
    ensures Position(ls, offset) == (Walk(ls, offset).0 + 1, Walk(ls, offset).1)
  {
  }

  /** Within the text, the reported line and column point back at the offset. */
  lemma {:induction false} PositionRecoversOffset(ls: seq<string>, offset: nat)
    requires |ls| >= 1 && offset <= TextEnd(ls)
    ensures LineStart(ls, Position(ls, offset).0 - 1) + Position(ls, offset).1 == offset
  {
    WalkPastEnd(ls, offset);
    WalkRecoversOffset(ls, offset);
  }

  /** Past the end of the text, the end of the last line is reported. */
  lemma {:induction false} PositionClamps(ls: seq<string>, offset: nat)
    requires |ls| >= 1 && offset > TextEnd(ls)
    ensures Position(ls, offset) == (|ls|, |ls[|ls| - 1]|)
  {
    WalkPastEnd(ls, offset);
  }

  /**
   * In a text without "\r", the caret stands under the character the error
   * points at, whenever that character is not a newline.
   */
  lemma {:induction false} CaretUnderOffendingCharacter(source: string, offset: nat)
    requires forall i :: 0 <= i < |source| ==> source[i] != '\r'
    requires offset < |source| && source[offset] != '\n'
    ensures var ls := Lines(source);
      var at := Position(ls, offset);
      at.1 < |ls[at.0 - 1]| && ls[at.0 - 1][at.1] == source[offset]
  {
    var ls := Lines(source);
    JoinLines(source);
    JoinLength(ls);
    PositionRecoversOffset(ls, offset);
    var at := Position(ls, offset);
    JoinIndex(ls, at.0 - 1, at.1);
  }
}
