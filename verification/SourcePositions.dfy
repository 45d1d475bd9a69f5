/**
 Offsets in a source as 1-indexed lines and columns (`src/lib/cssValidate.ts`).
 */
module SourcePositions {
  import opened Texts

  const NEWLINE: Unit := 0x0A

  datatype Position = Position(line: nat, column: nat)

  function Min(a: nat, b: nat): nat { if a <= b then a else b }

  /** How many of the first `n` units are newlines. */
  function Newlines(s: Text, n: nat): nat
    requires n <= |s|
  {
    if n == 0 then 0 else Newlines(s, n - 1) + if s[n - 1] == NEWLINE then 1 else 0
  }

  /** Where the line that holds offset `n` starts. */
  function LineStart(s: Text, n: nat): (r: nat)
    requires n <= |s|
    ensures r <= n
  {
    if n == 0 then 0 else if s[n - 1] == NEWLINE then n else LineStart(s, n - 1)
  }

  function PositionOf(s: Text, offset: nat): Position {
    var n := Min(offset, |s|);
    Position(1 + Newlines(s, n), offset - LineStart(s, n) + 1)
  }

  /** Where line `line` starts, found by counting newlines from the front. */
  function StartOfLine(s: Text, line: nat): nat
    decreases |s|
  {
    var i := IndexOf(s, 0x0A);
    if line <= 1 || i == |s| then 0 else i + 1 + StartOfLine(s[i + 1..], line - 1)
  }

  function OffsetOf(s: Text, p: Position): int { StartOfLine(s, p.line) + p.column - 1 }

  lemma {:induction false} NoNewlineYet(s: Text, n: nat)
    requires n <= |s| && NEWLINE !in s[..n]
    ensures Newlines(s, n) == 0 && LineStart(s, n) == 0
  {
    if n > 0 {
      assert s[n - 1] == s[..n][n - 1];
      assert s[..n] == s[..n - 1] + [s[n - 1]];
      NoNewlineYet(s, n - 1);
    }
  }

  /** Counting past the first newline is counting in the rest of the text. */
  lemma {:induction false} CountPastFirst(s: Text, i: nat, n: nat)
    requires i < n <= |s| && NEWLINE !in s[..i] && s[i] == NEWLINE
    ensures Newlines(s, n) == 1 + Newlines(s[i + 1..], n - i - 1)
    ensures LineStart(s, n) == i + 1 + LineStart(s[i + 1..], n - i - 1)
  {
    if n == i + 1 {
      NoNewlineYet(s, i);
    } else {
      CountPastFirst(s, i, n - 1);
      assert s[n - 1] == s[i + 1..][n - i - 2];
    }
  }

  lemma FirstLineStart(s: Text)
    ensures StartOfLine(s, 1) == 0
  {}

  lemma StartOfLineStep(s: Text, line: nat)
    requires line > 1
    ensures IndexOf(s, NEWLINE) < |s|
      ==> StartOfLine(s, line) == IndexOf(s, NEWLINE) + 1 + StartOfLine(s[IndexOf(s, NEWLINE) + 1..], line - 1)
  {
    hide IndexOf;
  }

  lemma {:induction false} LineStartIsStartOfLine(s: Text, n: nat)
    requires n <= |s|
    ensures StartOfLine(s, 1 + Newlines(s, n)) == LineStart(s, n)
    decreases |s|
  {
    hide *;
    var i := IndexOf(s, NEWLINE);
    if n <= i {
      assert s[..n] == s[..i][..n];
      NoNewlineYet(s, n);
      FirstLineStart(s);
    } else {
      CountPastFirst(s, i, n);
      LineStartIsStartOfLine(s[i + 1..], n - i - 1);
      StartOfLineStep(s, 1 + Newlines(s, n));
    }
  }

  /** The offset is recovered from the line, the column and the newlines. */
  lemma PositionInvertible(s: Text, offset: nat)
    ensures OffsetOf(s, PositionOf(s, offset)) == offset
  {
    LineStartIsStartOfLine(s, Min(offset, |s|));
  }

  lemma {:induction false} LinesGrow(s: Text, m: nat, n: nat)
    requires m <= n <= |s|
    ensures Newlines(s, m) <= Newlines(s, n)
    ensures Newlines(s, m) == Newlines(s, n) ==> LineStart(s, m) == LineStart(s, n)
  {
    if m < n { LinesGrow(s, m, n - 1); }
  }

  predicate Before(p: Position, q: Position) {
    p.line < q.line || (p.line == q.line && p.column < q.column)
  }

  /** Offset order is the order of the positions, so distinct offsets never share one. */
  lemma PositionOrder(s: Text, a: nat, b: nat)
    ensures a < b <==> Before(PositionOf(s, a), PositionOf(s, b))
  {
    if a <= b { LinesGrow(s, Min(a, |s|), Min(b, |s|)); }
    if b <= a { LinesGrow(s, Min(b, |s|), Min(a, |s|)); }
  }

  /** The loop of the program. */
  method PositionAt(source: Text, offset: nat) returns (p: Position)
    ensures p == PositionOf(source, offset)
  {
    var line, lineStart := 1, 0;
    var i := 0;
    while i < offset && i < |source|
      invariant 0 <= i <= Min(offset, |source|)
      invariant line == 1 + Newlines(source, i)
      invariant lineStart == LineStart(source, i)
    {
      if source[i] == NEWLINE {
        line := line + 1;
        lineStart := i + 1;
      }
      i := i + 1;
    }
    p := Position(line, offset - lineStart + 1);
  }
}
