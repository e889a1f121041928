/** fold: the breaking of long lines. */
module Fold {

  const TAB_WIDTH: nat := 8

  datatype Options = Options(width: nat, breakSpaces: bool, countBytes: bool)

  // adjust_column
  function AdjustColumn(o: Options, column: nat, c: char): nat {
    if o.countBytes then column + 1
    else if c == '\U{08}' then (if column > 0 then column - 1 else 0)
    else if c == '\r' then 0
    else if c == '\t' then column + (TAB_WIDTH - column % TAB_WIDTH)
    else column + 1
  }

  /** The column behind the text. */
  function Column(o: Options, s: string): nat {
    if s == [] then 0 else AdjustColumn(o, Column(o, s[..|s| - 1]), s[|s| - 1])
  }

  predicate IsBlank(c: char) { c == ' ' || c == '\t' }

  predicate HasBlank(s: string) { exists k :: 0 <= k < |s| && IsBlank(s[k]) }

  /** Only the first character may lead beyond the width. */
  predicate Narrow(o: Options, s: string) { forall k :: 1 < k <= |s| ==> Column(o, s[..k]) <= o.width }

  /** A line of output: its text, and whether its newline was inserted. */
  datatype Line = Line(text: string, inserted: bool)

  function Output(lines: seq<Line>): string {
    if lines == [] then [] else Output(lines[..|lines| - 1]) + lines[|lines| - 1].text + "\n"
  }

  /** The lines with the inserted newlines deleted. */
  function Erased(lines: seq<Line>): string {
    if lines == [] then []
    else Erased(lines[..|lines| - 1]) + lines[|lines| - 1].text + (if lines[|lines| - 1].inserted then [] else "\n")
  }

  /** A newline was inserted behind text because buffer did not go any further on its line: the
      next character would have been too wide.  With -s it is behind the last blank, if there is
      one. */
  ghost predicate BrokenFrom(o: Options, text: string, buffer: string, next: char) {
    && buffer != [] && Narrow(o, buffer) && Column(o, buffer + [next]) > o.width
    && 0 < |text| <= |buffer| && text == buffer[..|text|]
    && if o.breakSpaces && HasBlank(buffer) then IsBlank(text[|text| - 1]) && !HasBlank(buffer[|text|..])
       else text == buffer
  }

  // Where line k begins in the input.
  function Start(lines: seq<Line>, k: nat): nat
    requires k <= |lines|
  {
    if k == 0 then 0 else Start(lines, k - 1) + |lines[k - 1].text| + if lines[k - 1].inserted then 0 else 1
  }

  // The line that begins at p is broken because of the character n places further on.
  ghost predicate BrokenAt(o: Options, input: string, p: nat, text: string, n: nat) {
    p + n < |input| && '\n' !in input[p..p + n + 1] && BrokenFrom(o, text, input[p..p + n], input[p + n])
  }

  /** Line k is broken where the input demands it, or ends where the input has a newline. */
  ghost predicate LineOk(o: Options, input: string, lines: seq<Line>, k: nat)
    requires k < |lines|
  {
    var p, l := Start(lines, k), lines[k];
    && p + |l.text| < |input| && input[p..p + |l.text|] == l.text && Narrow(o, l.text) && '\n' !in l.text
    && if l.inserted then exists n: nat :: BrokenAt(o, input, p, l.text, n) else input[p + |l.text|] == '\n'
  }

  ghost predicate Folded(o: Options, input: string, lines: seq<Line>) {
    forall k: nat :: k < |lines| ==> LineOk(o, input, lines, k)
  }

  // ---------- columns ----------

  lemma AdjustMonotone(o: Options, a: nat, b: nat, c: char)
    requires a <= b
    ensures AdjustColumn(o, a, c) <= AdjustColumn(o, b, c)
  {
    assert a == a / TAB_WIDTH * TAB_WIDTH + a % TAB_WIDTH && b == b / TAB_WIDTH * TAB_WIDTH + b % TAB_WIDTH;
  }

  /** Counting columns, a tab leads to the next multiple of eight, a backspace one column back but
      never beyond the margin, a carriage return to the margin, and any other character one column
      on; counting bytes, each counts for one. */
  lemma AdjustMeans(o: Options, column: nat, c: char)
    ensures var col := AdjustColumn(o, column, c);
            if o.countBytes then col == column + 1
            else if c == '\t' then column < col <= column + 8 && col % 8 == 0
            else if c == '\U{08}' then col == (if column == 0 then 0 else column - 1)
            else if c == '\r' then col == 0
            else col == column + 1
  {
    assert column == column / TAB_WIDTH * TAB_WIDTH + column % TAB_WIDTH;
  }

  lemma ColumnSnoc(o: Options, s: string, c: char)
    ensures Column(o, s + [c]) == AdjustColumn(o, Column(o, s), c)
  {
    assert (s + [c])[..|s|] == s;
  }

  /** Leaving out the beginning of a line moves nothing to the right. */
  lemma {:induction false} ColumnTail(o: Options, a: string, b: string)
    ensures Column(o, b) <= Column(o, a + b)
  {
    if b != [] {
      var n := |b| - 1;
      ColumnTail(o, a, b[..n]);
      AdjustMonotone(o, Column(o, b[..n]), Column(o, a + b[..n]), b[n]);
      assert (a + b)[..|a + b| - 1] == a + b[..n];
    }
  }

  lemma {:induction false} NarrowTail(o: Options, s: string, k: nat)
    requires Narrow(o, s) && 0 < k <= |s|
    ensures Narrow(o, s[k..]) && Narrow(o, s[..k]) && (k < |s| ==> Column(o, s[k..]) <= o.width)
  {
    var t := s[k..];
    forall j | 0 < j <= |t|
      ensures Column(o, t[..j]) <= o.width
    {
      assert s[..k + j] == s[..k] + t[..j];
      ColumnTail(o, s[..k], t[..j]);
    }
    assert k < |s| ==> t[..|t|] == t;
    forall j | 1 < j <= k
      ensures Column(o, s[..k][..j]) <= o.width
    {
      assert s[..k][..j] == s[..j];
    }
  }

  lemma {:induction false} NarrowSnoc(o: Options, s: string, c: char)
    requires Narrow(o, s) && (s == [] || Column(o, s + [c]) <= o.width)
    ensures Narrow(o, s + [c])
  {
    forall k | 1 < k <= |s| + 1
      ensures Column(o, (s + [c])[..k]) <= o.width
    {
      if k <= |s| {
        assert (s + [c])[..k] == s[..k];
      } else {
        assert (s + [c])[..k] == s + [c];
      }
    }
  }

  // ---------- lines ----------

  lemma {:induction false} StartSnoc(lines: seq<Line>, l: Line, k: nat)
    requires k <= |lines|
    ensures Start(lines + [l], k) == Start(lines, k)
  {
    if k > 0 {
      StartSnoc(lines, l, k - 1);
    }
  }

  lemma {:induction false} FoldedSnoc(o: Options, input: string, lines: seq<Line>, l: Line)
    requires Folded(o, input, lines) && LineOk(o, input, lines + [l], |lines|)
    ensures Folded(o, input, lines + [l])
    ensures Output(lines + [l]) == Output(lines) + l.text + "\n"
    ensures Start(lines + [l], |lines| + 1) == Start(lines, |lines|) + |l.text| + if l.inserted then 0 else 1
  {
    hide LineOk;
    assert (lines + [l])[..|lines|] == lines;
    StartSnoc(lines, l, |lines|);
    forall k: nat | k < |lines|
      ensures LineOk(o, input, lines + [l], k)
    {
      LineOkSnoc(o, input, lines, l, k);
    }
  }

  lemma {:induction false} LineOkSnoc(o: Options, input: string, lines: seq<Line>, l: Line, k: nat)
    requires k < |lines| && LineOk(o, input, lines, k)
    ensures LineOk(o, input, lines + [l], k)
  {
    StartSnoc(lines, l, k);
  }

  /** Deleting the inserted newlines restores the input. */
  lemma {:induction false} ErasedIsInput(o: Options, input: string, lines: seq<Line>, k: nat)
    requires Folded(o, input, lines) && k <= |lines|
    ensures Start(lines, k) <= |input| && Erased(lines[..k]) == input[..Start(lines, k)]
  {
    hide Narrow, BrokenFrom;
    if k > 0 {
      ErasedIsInput(o, input, lines, k - 1);
      assert LineOk(o, input, lines, k - 1);
      var p, l := Start(lines, k - 1), lines[k - 1];
      assert lines[..k][..k - 1] == lines[..k - 1];
      assert input[..p] + l.text == input[..p + |l.text|];
      if !l.inserted {
        assert input[..p + |l.text|] + "\n" == input[..p + |l.text| + 1];
      }
    }
  }

  /** Why a newline was inserted: character n of the line would have led beyond the width and no
      character before it, the first one aside, does; the line ends in front of it, or with -s
      behind the last space or tab before it, if there is one. */
  lemma BreakMeans(o: Options, input: string, lines: seq<Line>, k: nat) returns (n: nat)
    requires Folded(o, input, lines) && k < |lines| && lines[k].inserted
    ensures Start(lines, k) + n < |input|
    ensures var p, text := Start(lines, k), lines[k].text;
            var line := input[p..p + n];
            && 0 < |text| <= n && text == line[..|text|]
            && Column(o, line + [input[p + n]]) > o.width
            && (forall j :: 1 < j <= n ==> Column(o, line[..j]) <= o.width)
            && if o.breakSpaces && exists j :: 0 <= j < n && line[j] in " \t"
               then line[|text| - 1] in " \t" && forall j :: |text| <= j < n ==> line[j] !in " \t"
               else |text| == n
  {
    hide Column;
    assert LineOk(o, input, lines, k);
    var p, text := Start(lines, k), lines[k].text;
    n :| n >= 0 && BrokenAt(o, input, p, text, n);
    var line := input[p..p + n];
    if o.breakSpaces && HasBlank(line) {
      forall j | |text| <= j < n
        ensures line[j] !in " \t"
      {
        NoBlankAt(line, |text|, j);
      }
    }
  }

  // ---------- there is but one way to fold ----------

  lemma NarrowAt(o: Options, s: string, t: string)
    requires Narrow(o, s) && 1 < |t| <= |s| && t == s[..|t|]
    ensures Column(o, t) <= o.width
  {
  }

  lemma NoBlankAt(s: string, k: nat, j: nat)
    requires k <= j < |s| && !HasBlank(s[k..])
    ensures !IsBlank(s[j])
  {
    assert s[j] == s[k..][j - k];
  }

  lemma NoNewlineAt(input: string, p: nat, s: string, k: nat)
    requires k < |s| && p + |s| <= |input| && s == input[p..p + |s|] && '\n' !in s
    ensures input[p + k] != '\n'
  {
    assert s[k] == input[p + k];
  }

  // A line that overflows n places on has no other place to overflow, and no newline before.
  lemma {:induction false} OverflowAt(o: Options, input: string, p: nat, text: string, n: nat, s: string)
    requires BrokenAt(o, input, p, text, n) && p + |s| <= |input| && s == input[p..p + |s|] && Narrow(o, s)
    ensures |s| <= n
  {
    hide Narrow, Column, HasBlank;
    if n < |s| {
      NarrowAt(o, s, input[p..p + n] + [input[p + n]]);
    }
  }

  lemma {:induction false} SameBreak(o: Options, input: string, p: nat, s: string, t: string, n: nat, m: nat)
    requires BrokenAt(o, input, p, s, n) && BrokenAt(o, input, p, t, m)
    ensures s == t
  {
    hide Narrow, Column, HasBlank, IsBlank;
    OverflowAt(o, input, p, s, n, input[p..p + m]);
    OverflowAt(o, input, p, t, m, input[p..p + n]);
    var buffer := input[p..p + n];
    if o.breakSpaces && HasBlank(buffer) {
      if |s| < |t| {
        NoBlankAt(buffer, |s|, |t| - 1);
      } else if |t| < |s| {
        NoBlankAt(buffer, |t|, |s| - 1);
      }
    }
  }

  lemma {:induction false} SameLine(o: Options, input: string, ls: seq<Line>, ms: seq<Line>, k: nat)
    requires k < |ls| && k < |ms| && Start(ls, k) == Start(ms, k)
    requires LineOk(o, input, ls, k) && LineOk(o, input, ms, k)
    ensures ls[k] == ms[k]
  {
    hide Narrow, Column, HasBlank;
    var p, l, m := Start(ls, k), ls[k], ms[k];
    if l.inserted {
      var n: nat :| BrokenAt(o, input, p, l.text, n);
      if m.inserted {
        var n': nat :| BrokenAt(o, input, p, m.text, n');
        SameBreak(o, input, p, l.text, m.text, n, n');
      } else {
        NoNewlineBefore(o, input, p, l.text, n, m.text);
      }
    } else if m.inserted {
      var n: nat :| BrokenAt(o, input, p, m.text, n);
      NoNewlineBefore(o, input, p, m.text, n, l.text);
    } else {
      SameEnd(input, p, l.text, m.text);
    }
  }

  // Lines that end with the first newline have the same end.
  lemma {:induction false} SameEnd(input: string, p: nat, s: string, t: string)
    requires p + |s| < |input| && s == input[p..p + |s|] && '\n' !in s && input[p + |s|] == '\n'
    requires p + |t| < |input| && t == input[p..p + |t|] && '\n' !in t && input[p + |t|] == '\n'
    ensures s == t
  {
    forall j | p <= j < p + |s|
      ensures input[j] != '\n'
    {
      NoNewlineAt(input, p, s, j - p);
    }
    forall j | p <= j < p + |t|
      ensures input[j] != '\n'
    {
      NoNewlineAt(input, p, t, j - p);
    }
  }

  // A line that overflows does not end with a newline before.
  lemma {:induction false} NoNewlineBefore(o: Options, input: string, p: nat, text: string, n: nat, s: string)
    requires BrokenAt(o, input, p, text, n) && p + |s| < |input| && s == input[p..p + |s|] && Narrow(o, s)
    ensures input[p + |s|] != '\n'
  {
    OverflowAt(o, input, p, text, n, s);
    assert input[p..p + n + 1][|s|] == input[p + |s|];
  }

  lemma {:induction false} SameStart(o: Options, input: string, ls: seq<Line>, ms: seq<Line>, k: nat)
    requires Folded(o, input, ls) && Folded(o, input, ms) && k <= |ls| && k <= |ms|
    ensures Start(ls, k) == Start(ms, k) && forall j :: 0 <= j < k ==> ls[j] == ms[j]
  {
    hide LineOk;
    if k > 0 {
      SameStart(o, input, ls, ms, k - 1);
      assert LineOk(o, input, ls, k - 1) && LineOk(o, input, ms, k - 1);
      SameLine(o, input, ls, ms, k - 1);
    }
  }

  // A tail that fits and has no newline is not folded any further.
  lemma {:induction false} TailEnds(o: Options, input: string, ls: seq<Line>, ms: seq<Line>, tail: string)
    requires Folded(o, input, ls) && Folded(o, input, ms) && |ls| <= |ms|
    requires Erased(ls) + tail == input && Narrow(o, tail) && '\n' !in tail
    ensures ls == ms
  {
    hide Narrow, Column, HasBlank;
    SameStart(o, input, ls, ms, |ls|);
    ErasedIsInput(o, input, ls, |ls|);
    assert ls[..|ls|] == ls;
    if |ls| < |ms| {
      var p := Start(ls, |ls|);
      assert tail == input[p..];
      NoMoreLines(o, input, ms, |ls|, tail);
    }
  }

  lemma {:induction false} NoMoreLines(o: Options, input: string, ls: seq<Line>, k: nat, tail: string)
    requires k < |ls| && Start(ls, k) <= |input| && tail == input[Start(ls, k)..] && Narrow(o, tail) && '\n' !in tail
    ensures !LineOk(o, input, ls, k)
  {
    TailFits(o, input, Start(ls, k), tail);
  }

  lemma {:induction false} TailFits(o: Options, input: string, p: nat, tail: string)
    requires p <= |input| && tail == input[p..] && Narrow(o, tail) && '\n' !in tail
    ensures forall text: string, n: nat :: !BrokenAt(o, input, p, text, n)
    ensures forall j :: p <= j < |input| ==> input[j] != '\n'
  {
    forall text: string, n: nat
      ensures !BrokenAt(o, input, p, text, n)
    {
      if BrokenAt(o, input, p, text, n) {
        OverflowAt(o, input, p, text, n, tail);
      }
    }
    forall j | p <= j < |input|
      ensures input[j] != '\n'
    {
      NoNewlineAt(input, p, tail, j - p);
    }
  }

  /** The input in lines, and what is left behind the last newline. */
  ghost predicate FoldedInto(o: Options, input: string, lines: seq<Line>, tail: string) {
    Folded(o, input, lines) && Erased(lines) + tail == input && Narrow(o, tail) && '\n' !in tail
  }

  /** What fold is to print. */
  ghost predicate IsFold(o: Options, input: string, out: string) {
    exists lines: seq<Line>, tail: string :: FoldedInto(o, input, lines, tail) && out == Output(lines) + tail
  }

  lemma FoldedOnce(o: Options, input: string, ls: seq<Line>, lt: string, ms: seq<Line>, mt: string)
    requires FoldedInto(o, input, ls, lt) && FoldedInto(o, input, ms, mt)
    ensures ls == ms && lt == mt
  {
    hide Folded, Narrow, Erased;
    if |ls| <= |ms| {
      TailEnds(o, input, ls, ms, lt);
    } else {
      TailEnds(o, input, ms, ls, mt);
    }
    assert lt == input[|Erased(ls)|..] && mt == input[|Erased(ms)|..];
  }

  /** The output is determined by the input: any two ways of folding it are the same. */
  lemma OneWayToFold(o: Options, input: string, out: string, out': string)
    requires IsFold(o, input, out) && IsFold(o, input, out')
    ensures out == out'
  {
    hide FoldedInto, Output;
    var ls, lt :| FoldedInto(o, input, ls, lt) && out == Output(ls) + lt;
    var ms, mt :| FoldedInto(o, input, ms, mt) && out' == Output(ms) + mt;
    FoldedOnce(o, input, ls, lt, ms, mt);
  }

  // ---------- the program ----------

  // The state between two characters: what is written, and the line that is being collected.
  ghost predicate Collecting(o: Options, input: string, pos: nat, lines: seq<Line>, out: string, buffer: string, column: nat) {
    && Folded(o, input, lines) && out == Output(lines)
    && pos <= |input| && Start(lines, |lines|) + |buffer| == pos && buffer == input[Start(lines, |lines|)..pos]
    && '\n' !in buffer && Narrow(o, buffer) && column == Column(o, buffer)
  }

  lemma {:induction false} CollectNewline(o: Options, input: string, pos: nat, lines: seq<Line>, out: string,
                                          buffer: string, column: nat)
    requires Collecting(o, input, pos, lines, out, buffer, column) && pos < |input| && input[pos] == '\n'
    ensures Collecting(o, input, pos + 1, lines + [Line(buffer, false)], out + buffer + "\n", [], 0)
  {
    hide Narrow;
    StartSnoc(lines, Line(buffer, false), |lines|);
    FoldedSnoc(o, input, lines, Line(buffer, false));
    NarrowNothing(o);
  }

  lemma NarrowNothing(o: Options)
    ensures Narrow(o, []) && Column(o, []) == 0
  {
  }

  lemma {:induction false} CollectMore(o: Options, input: string, pos: nat, lines: seq<Line>, out: string,
                                       buffer: string, column: nat)
    requires Collecting(o, input, pos, lines, out, buffer, column) && pos < |input| && input[pos] != '\n'
    requires buffer == [] || AdjustColumn(o, column, input[pos]) <= o.width
    ensures Collecting(o, input, pos + 1, lines, out, buffer + [input[pos]], AdjustColumn(o, column, input[pos]))
  {
    hide Narrow, Folded;
    ColumnSnoc(o, buffer, input[pos]);
    NarrowSnoc(o, buffer, input[pos]);
  }

  /** Breaking the line behind its first k characters. */
  lemma {:induction false} CollectBreak(o: Options, input: string, pos: nat, lines: seq<Line>, out: string,
                                        buffer: string, column: nat,
                                        k: nat)
    requires Collecting(o, input, pos, lines, out, buffer, column) && pos < |input| && input[pos] != '\n'
    requires 0 < k <= |buffer| && AdjustColumn(o, column, input[pos]) > o.width
    requires if o.breakSpaces && HasBlank(buffer) then IsBlank(buffer[k - 1]) && !HasBlank(buffer[k..]) else k == |buffer|
    ensures Collecting(o, input, pos, lines + [Line(buffer[..k], true)], out + buffer[..k] + "\n", buffer[k..], Column(o, buffer[k..]))
  {
    hide Narrow, HasBlank, Folded, Column, AdjustColumn;
    var l := Line(buffer[..k], true);
    var p := Start(lines, |lines|);
    ColumnSnoc(o, buffer, input[pos]);
    NarrowTail(o, buffer, k);
    StartSnoc(lines, l, |lines|);
    assert input[p..p + |buffer|] == buffer && input[p..p + |buffer| + 1] == buffer + [input[pos]];
    assert BrokenAt(o, input, p, l.text, |buffer|);
    FoldedSnoc(o, input, lines, l);
  }

  // The column behind the first n characters of the line.
  method Recount(o: Options, lineOut: array<char>, n: nat) returns (column: nat)
    requires n <= lineOut.Length
    ensures column == Column(o, lineOut[..n])
  {
    column := 0;
    var i := 0;
    while i < n
      invariant 0 <= i <= n && column == Column(o, lineOut[..i])
    {
      assert lineOut[..i + 1] == lineOut[..i] + [lineOut[i]];
      ColumnSnoc(o, lineOut[..i], lineOut[i]);
      column := AdjustColumn(o, column, lineOut[i]);
      i := i + 1;
    }
  }

  // Looks for the last blank of the line.
  method LastBlank(lineOut: array<char>, offsetOut: nat) returns (foundBlank: bool, logicalEnd: nat)
    requires offsetOut <= lineOut.Length
    ensures foundBlank <==> HasBlank(lineOut[..offsetOut])
    ensures foundBlank ==> logicalEnd < offsetOut && IsBlank(lineOut[logicalEnd])
                           && !HasBlank(lineOut[logicalEnd + 1..offsetOut])
  {
    foundBlank, logicalEnd := false, offsetOut;
    while logicalEnd > 0
      invariant logicalEnd <= offsetOut && !foundBlank
      invariant forall k :: logicalEnd <= k < offsetOut ==> !IsBlank(lineOut[k])
    {
      logicalEnd := logicalEnd - 1;
      if IsBlank(lineOut[logicalEnd]) {
        foundBlank := true;
        assert IsBlank(lineOut[..offsetOut][logicalEnd]);
        return;
      }
    }
  }

  /** One character that is no newline: the line is broken, and the character scanned again, until
      it fits or stands alone. */
  method PutChar(o: Options, input: string, pos: nat, lineOut: array<char>, offset0: nat, column0: nat, out0: string,
                 ghost lines0: seq<Line>)
    returns (offsetOut: nat, column: nat, out: string, ghost lines: seq<Line>)
    requires offset0 + 1 < lineOut.Length && pos < |input| && input[pos] != '\n'
    requires Collecting(o, input, pos, lines0, out0, lineOut[..offset0], column0)
    modifies lineOut
    ensures 0 < offsetOut <= offset0 + 1 && Collecting(o, input, pos + 1, lines, out, lineOut[..offsetOut], column)
  {
    hide Collecting, HasBlank, Column;
    var c := input[pos];
    offsetOut, column, out, lines := offset0, column0, out0, lines0;
    while true
      invariant offsetOut <= offset0 && Collecting(o, input, pos, lines, out, lineOut[..offsetOut], column)
      decreases offsetOut
    {
      ghost var buffer, before := lineOut[..offsetOut], column;
      column := AdjustColumn(o, column, c);
      if column <= o.width || offsetOut == 0 {
        CollectMore(o, input, pos, lines, out, buffer, before);
        lineOut[offsetOut] := c;
        assert lineOut[..offsetOut + 1] == buffer + [c];
        offsetOut := offsetOut + 1;
        return;
      }
      var end := offsetOut;
      if o.breakSpaces {
        var foundBlank, logicalEnd := LastBlank(lineOut, offsetOut);
        if foundBlank {
          end := logicalEnd + 1;
          assert buffer[end..] == lineOut[end..offsetOut];
        }
      }
      CollectBreak(o, input, pos, lines, out, buffer, before, end);
      lines := lines + [Line(buffer[..end], true)];
      assert buffer[..end] == lineOut[..end];
      out := out + lineOut[..end] + "\n";
      forall k | 0 <= k < offsetOut - end {
        lineOut[k] := lineOut[end + k];
      }
      offsetOut := offsetOut - end;
      assert lineOut[..offsetOut] == buffer[end..];
      column := Recount(o, lineOut, offsetOut);
    }
  }

  // The lines, one character after the other.
  method FoldLines(o: Options, input: string) returns (out: string, ghost lines: seq<Line>, ghost tail: string)
    ensures FoldedInto(o, input, lines, tail) && out == Output(lines) + tail
  {
    hide *;
    var lineOut := new char[128];
    var offsetOut: nat, column: nat, pos: nat := 0, 0, 0;
    out, lines, tail := [], [], [];
    CollectStart(o, input);
    while pos < |input|
      invariant pos <= |input| && offsetOut <= lineOut.Length && fresh(lineOut)
      invariant tail == lineOut[..offsetOut]
      invariant Collecting(o, input, pos, lines, out, tail, column)
    {
      if offsetOut + 1 >= lineOut.Length {
        lineOut := Grow(lineOut, offsetOut);
      }
      if input[pos] == '\n' {
        CollectNewline(o, input, pos, lines, out, tail, column);
        out := out + lineOut[..offsetOut] + "\n";
        lines, tail := lines + [Line(tail, false)], [];
        column, offsetOut := 0, 0;
      } else {
        offsetOut, column, out, lines := PutChar(o, input, pos, lineOut, offsetOut, column, out, lines);
        tail := lineOut[..offsetOut];
      }
      pos := pos + 1;
    }
    CollectEnd(o, input, lines, out, tail, column);
    if offsetOut > 0 {
      out := out + lineOut[..offsetOut];
    }
  }

  /** fold_file: every line is broken exactly where it has to be. */
  method FoldFile(o: Options, input: string) returns (out: string)
    ensures IsFold(o, input, out)
  {
    ghost var lines, tail;
    out, lines, tail := FoldLines(o, input);
  }

  // x2realloc
  method Grow(a: array<char>, n: nat) returns (b: array<char>)
    requires n <= a.Length
    ensures fresh(b) && b.Length > n + 1 && b[..n] == a[..n]
  {
    b := new char[if a.Length == 0 then 128 else n + 2 + a.Length];
    forall k | 0 <= k < n {
      b[k] := a[k];
    }
  }

  lemma CollectStart(o: Options, input: string)
    ensures Collecting(o, input, 0, [], [], [], 0)
  {
  }

  lemma {:induction false} CollectEnd(o: Options, input: string, lines: seq<Line>, out: string, tail: string, column: nat)
    requires Collecting(o, input, |input|, lines, out, tail, column)
    ensures FoldedInto(o, input, lines, tail) && out == Output(lines)
  {
    ErasedIsInput(o, input, lines, |lines|);
    assert lines[..|lines|] == lines;
  }
}
