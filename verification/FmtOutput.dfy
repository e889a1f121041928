/** The output side of fmt: put_space, put_word, put_line and put_paragraph.  Columns are counted
    as the input side counts them, tabs included. */
module FmtOutput {
  import opened FmtSpec

  const TABWIDTH: nat := 8

  function NextColumn(col: nat, c: char): nat {
    if c == '\t' then (col / TABWIDTH + 1) * TABWIDTH else col + 1
  }

  /** The column reached by reading s from column col. */
  function Column(col: nat, s: string): nat {
    if s == [] then col else NextColumn(Column(col, s[..|s| - 1]), s[|s| - 1])
  }

  lemma {:induction false} ColumnConcat(col: nat, s: string, t: string)
    ensures Column(col, s + t) == Column(Column(col, s), t)
  {
    if t == [] {
      assert s + t == s;
    } else {
      ColumnConcat(col, s, t[..|t| - 1]);
      assert (s + t)[..|s + t| - 1] == s + t[..|t| - 1];
    }
  }

  predicate Blank(c: char) { c == ' ' || c == '\t' || c == '\n' }

  predicate AllBlank(s: string) { forall k :: 0 <= k < |s| ==> s[k] == ' ' || s[k] == '\t' }

  predicate NoBlank(s: string) { forall k :: 0 <= k < |s| ==> !Blank(s[k]) }

  /** What is left of s without blanks, tabs and newlines. */
  function Solid(s: string): string {
    if s == [] then [] else Solid(s[..|s| - 1]) + (if Blank(s[|s| - 1]) then [] else [s[|s| - 1]])
  }

  lemma {:induction false} SolidConcat(s: string, t: string)
    ensures Solid(s + t) == Solid(s) + Solid(t)
  {
    if t == [] {
      assert s + t == s;
    } else {
      SolidConcat(s, t[..|t| - 1]);
      assert (s + t)[..|s + t| - 1] == s + t[..|t| - 1];
    }
  }

  lemma {:induction false} SolidBlank(s: string)
    requires AllBlank(s)
    ensures Solid(s) == []
  {
    if s != [] {
      SolidBlank(s[..|s| - 1]);
    }
  }

  lemma {:induction false} SolidText(s: string)
    requires NoBlank(s)
    ensures Solid(s) == s
    ensures forall col: nat :: Column(col, s) == col + |s|
  {
    if s != [] {
      SolidText(s[..|s| - 1]);
    }
  }

  // ---------- lines ----------

  // The column at which word k begins on a line that starts with word i at column col.
  function WordColumn(ws: seq<Word>, col: nat, i: nat, k: nat): nat
    requires i <= k < |ws|
    decreases k
  {
    if k == i then col else WordColumn(ws, col, i, k - 1) + ws[k - 1].length + ws[k - 1].space
  }

  /** With its indent for a starting column, a line ends in the column fmt_paragraph reckoned. */
  lemma {:induction false} ReckonedColumn(ws: seq<Word>, m: Margins, i: nat, j: nat, col: nat)
    requires i < j <= |ws|
    ensures WordColumn(ws, col, i, j - 1) + ws[j - 1].length == LineLength(ws, m, i, j) - Indent(m, i) + col
    decreases j
  {
    if j > i + 1 {
      ReckonedColumn(ws, m, i, j - 1, col);
    }
  }

  function Text(buf: seq<char>, w: Word): string
    requires w.text + w.length <= |buf|
  {
    buf[w.text..w.text + w.length]
  }

  // In what follows, line is the part of a line behind its prefix, which is taken to end in column
  // margin: the program counts every character of the prefix as one column.

  // Word k of a line that starts with word i stands at position at[k - i], in its column.
  ghost predicate Stands(buf: seq<char>, ws: seq<Word>, margin: nat, line: string, col: nat, i: nat, k: nat, at: seq<nat>) {
    && i <= k < |ws| && k - i < |at|
    && ws[k].text + ws[k].length <= |buf|
    && at[k - i] + ws[k].length <= |line|
    && line[at[k - i]..at[k - i] + ws[k].length] == Text(buf, ws[k])
    && Column(margin, line[..at[k - i]]) == WordColumn(ws, col, i, k)
  }

  /** The line shows the words from i up to j, each in its column, and nothing else but blanks. */
  ghost predicate Shows(buf: seq<char>, ws: seq<Word>, margin: nat, line: string, col: nat, i: nat, j: nat, at: seq<nat>)
  {
    && i < j <= |ws| && |at| == j - i
    && ws[i].text <= ws[j - 1].text + ws[j - 1].length <= |buf|
    && (forall k :: i <= k < j ==> Stands(buf, ws, margin, line, col, i, k, at))
    && Solid(line) == buf[ws[i].text..ws[j - 1].text + ws[j - 1].length]
    && Column(margin, line) == WordColumn(ws, col, i, j - 1) + ws[j - 1].length
  }

  lemma {:induction false} StandsOn(buf: seq<char>, ws: seq<Word>, margin: nat, line: string, more: string, col: nat,
                                    i: nat, k: nat, at: seq<nat>, p: nat)
    requires Stands(buf, ws, margin, line, col, i, k, at)
    ensures Stands(buf, ws, margin, line + more, col, i, k, at + [p])
  {
    hide Column, WordColumn;
    assert (line + more)[..at[k - i]] == line[..at[k - i]];
    assert (line + more)[at[k - i]..at[k - i] + ws[k].length] == line[at[k - i]..at[k - i] + ws[k].length];
  }

  lemma {:induction false} StandsLast(buf: seq<char>, ws: seq<Word>, margin: nat, line: string, col: nat, i: nat,
                                      k: nat, at: seq<nat>)
    requires i <= k < |ws| && |at| == k - i && ws[k].text + ws[k].length <= |buf|
    requires Column(margin, line) == WordColumn(ws, col, i, k)
    ensures Stands(buf, ws, margin, line + Text(buf, ws[k]), col, i, k, at + [|line|])
  {
    hide Column, WordColumn;
    assert (line + Text(buf, ws[k]))[..|line|] == line;
  }

  lemma {:induction false} AppendText(margin: nat, line: string, text: string)
    requires NoBlank(text)
    ensures Solid(line + text) == Solid(line) + text
    ensures Column(margin, line + text) == Column(margin, line) + |text|
  {
    ColumnConcat(margin, line, text);
    SolidConcat(line, text);
    SolidText(text);
  }

  // One more gap and word at the end of the line.
  lemma {:induction false} ShowsMore(buf: seq<char>, ws: seq<Word>, margin: nat, line: string, gapped: string,
                                     col: nat, i: nat, j: nat, at: seq<nat>,
                  gap: string)
    requires Shows(buf, ws, margin, line, col, i, j, at) && j < |ws|
    requires AllBlank(gap) && gapped == line + gap && Column(margin, gapped) == Column(margin, line) + ws[j - 1].space
    requires ws[j].text == ws[j - 1].text + ws[j - 1].length && ws[j].text + ws[j].length <= |buf|
    requires NoBlank(Text(buf, ws[j]))
    ensures Shows(buf, ws, margin, gapped + Text(buf, ws[j]), col, i, j + 1, at + [|gapped|])
  {
    hide Column, Solid, AllBlank, NoBlank, Stands;
    var text := Text(buf, ws[j]);
    SolidConcat(line, gap);
    SolidBlank(gap);
    AppendText(margin, gapped, text);
    StandsLast(buf, ws, margin, gapped, col, i, j, at);
    forall k | i <= k < j + 1
      ensures Stands(buf, ws, margin, gapped + text, col, i, k, at + [|gapped|])
    {
      if k < j {
        StandsOn(buf, ws, margin, line, gap + text, col, i, k, at, |gapped|);
        assert gapped + text == line + (gap + text);
      }
    }
    assert buf[ws[i].text..ws[j].text] + text == buf[ws[i].text..ws[j].text + ws[j].length];
  }

  lemma {:induction false} ShowsFirst(buf: seq<char>, ws: seq<Word>, margin: nat, line: string, col: nat, i: nat)
    requires i < |ws| && ws[i].text + ws[i].length <= |buf| && NoBlank(Text(buf, ws[i]))
    requires Solid(line) == [] && Column(margin, line) == col
    ensures Shows(buf, ws, margin, line + Text(buf, ws[i]), col, i, i + 1, [|line|])
  {
    hide Column, Solid, AllBlank, NoBlank, Stands;
    AppendText(margin, line, Text(buf, ws[i]));
    StandsLast(buf, ws, margin, line, col, i, i, []);
    assert [] + [|line|] == [|line|];
  }

  // Word k lies in the buffer, without blanks, and the next word right behind it.
  ghost predicate WordAt(buf: seq<char>, ws: seq<Word>, k: nat) {
    && k < |ws| && ws[k].text + ws[k].length <= |buf| && NoBlank(Text(buf, ws[k]))
    && (k + 1 < |ws| ==> ws[k + 1].text == ws[k].text + ws[k].length)
  }

  ghost predicate InBuffer(buf: seq<char>, ws: seq<Word>) {
    forall k: nat :: k < |ws| ==> WordAt(buf, ws, k)
  }

  /** A whole line that shows the words from i up to j behind head, which ends in column margin. */
  ghost predicate LineOf(buf: seq<char>, ws: seq<Word>, head: string, margin: nat, line: string, col: nat, i: nat, j: nat) {
    head <= line && exists at :: Shows(buf, ws, margin, line[|head|..], col, i, j, at)
  }

  function Repeated(c: char, n: nat): string { seq(n, _ => c) }

  /** What advances from column col by space: if tabs may be used, and reach more than one column
      ahead, as many as there are tab stops, then the rest in blanks; otherwise blanks alone. */
  function Advance(tabs: bool, col: nat, space: int): string {
    var target := col + space;
    if tabs && col + 1 < target / TABWIDTH * TABWIDTH
    then Repeated('\t', target / TABWIDTH - col / TABWIDTH) + Repeated(' ', target % TABWIDTH)
    else Repeated(' ', Max(0, space))
  }

  function Max(a: int, b: int): int { if a < b then b else a }

  // There are tabs in it if they are wanted and a tab stop is more than one column on, and then no
  // more than seven blanks behind them.
  lemma AdvanceTabs(tabs: bool, col: nat, space: int)
    ensures '\t' in Advance(tabs, col, space) <==> tabs && exists stop :: IsStop(stop) && col + 1 < stop <= col + space
    ensures '\t' in Advance(tabs, col, space) ==>
              forall i :: 0 <= i < |Advance(tabs, col, space)| - 7 ==> Advance(tabs, col, space)[i] == '\t'
  {
    var target := col + space;
    if tabs {
      var last := target / TABWIDTH * TABWIDTH;
      assert IsStop(last);
      forall stop | IsStop(stop) && stop <= target
        ensures stop <= last
      {
        assert stop == stop / 8 * 8;
      }
      if col + 1 < last {
        assert Repeated('\t', target / TABWIDTH - col / TABWIDTH)[0] == '\t';
      }
    }
  }

  predicate IsStop(column: int) { column % 8 == 0 }

  // Lines as they are written, each with its newline.
  function Joined(lines: seq<string>): string {
    if lines == [] then [] else Joined(lines[..|lines| - 1]) + lines[|lines| - 1] + "\n"
  }

  class Output {
    var out: string
    var outColumn: nat
    var tabs: bool
    var lastLineLength: nat
    var prefix: string
    var prefixIndent: nat
    // The words written so far, one behind the other.
    ghost var sent: string

    /** What every line starts with, and the column in which that is taken to end. */
    ghost function Head(): string
      reads this`tabs, this`prefix, this`prefixIndent
    {
      Advance(tabs, 0, prefixIndent) + prefix
    }

    function Margin(): nat
      reads this`prefix, this`prefixIndent
    {
      prefixIndent + |prefix|
    }

    /** If the prefix is blank, the output is the words sent, and blanks. */
    ghost predicate Faithful()
      reads this
    {
      Solid(prefix) == [] ==> Solid(out) == sent
    }

    // The first loop of put_space.
    method PutTabs(stop: nat)
      requires outColumn < stop * TABWIDTH
      modifies this`out, this`outColumn
      ensures outColumn == stop * TABWIDTH
      ensures stop >= old(outColumn) / TABWIDTH && out == old(out) + Repeated('\t', stop - old(outColumn) / TABWIDTH)
    {
      hide Repeated;
      ghost var t, k: nat := 0, outColumn / TABWIDTH;
      NoGap();
      while outColumn < stop * TABWIDTH
        invariant k + t <= stop && outColumn / TABWIDTH == k + t && (t > 0 ==> outColumn == (k + t) * TABWIDTH)
        invariant out == old(out) + Repeated('\t', t)
        decreases stop - (k + t)
      {
        OneMore('\t', t);
        out := out + "\t";
        outColumn := (outColumn / TABWIDTH + 1) * TABWIDTH;
        t := t + 1;
      }
    }

    // The second one.
    method PutBlanks(target: int)
      modifies this`out, this`outColumn
      ensures outColumn == Max(old(outColumn), target)
      ensures out == old(out) + Repeated(' ', Max(0, target - old(outColumn)))
    {
      hide Repeated;
      ghost var b: nat := 0;
      NoGap();
      while outColumn < target
        invariant outColumn == old(outColumn) + b && (b > 0 ==> outColumn <= target)
        invariant out == old(out) + Repeated(' ', b)
      {
        OneMore(' ', b);
        out := out + " ";
        outColumn := outColumn + 1;
        b := b + 1;
      }
    }

    /** put_space: blanks, or tabs where they reach as far, up to the requested column. */
    method PutSpace(space: int) returns (ghost gap: string)
      modifies this`out, this`outColumn
      ensures out == old(out) + gap && AllBlank(gap) && gap == Advance(tabs, old(outColumn), space)
      ensures outColumn == Column(old(outColumn), gap) == Max(old(outColumn), old(outColumn) + space)
    {
      hide Column, AllBlank, Repeated;
      var spaceTarget := outColumn + space;
      gap := Advance(tabs, outColumn, space);
      AdvanceReaches(tabs, outColumn, space);
      if tabs {
        // C rounds a negative target towards zero; either way it is not beyond outColumn
        var tabTarget := if spaceTarget < 0 then -((-spaceTarget) / TABWIDTH * TABWIDTH) else spaceTarget / TABWIDTH * TABWIDTH;
        if outColumn + 1 < tabTarget {
          PutTabs(tabTarget / TABWIDTH);
        }
      }
      PutBlanks(spaceTarget);
    }

    /** put_word */
    method PutWord(parabuf: array<char>, w: Word)
      requires w.text + w.length <= parabuf.Length
      modifies this`out, this`outColumn
      ensures out == old(out) + parabuf[w.text..w.text + w.length]
      ensures outColumn == old(outColumn) + w.length
    {
      var s := w.text;
      var n := w.length;
      while n != 0
        invariant w.text <= s && 0 <= n && n + s == w.text + w.length
        invariant out == old(out) + parabuf[w.text..s] && outColumn == old(outColumn)
        decreases n
      {
        out := out + [parabuf[s]];
        assert parabuf[w.text..s + 1] == parabuf[w.text..s] + [parabuf[s]];
        s := s + 1;
        n := n - 1;
      }
      outColumn := outColumn + w.length;
    }

    // The indent and the prefix, up to where the first word goes.
    method PutMargin(indent: nat) returns (ghost gap: string)
      modifies this`out, this`outColumn
      ensures out == old(out) + Head() + gap && Solid(gap) == []
      ensures outColumn == Column(Margin(), gap) == Max(indent, Margin())
    {
      hide Column, Solid, AllBlank, Advance;
      outColumn := 0;
      ghost var lead := PutSpace(prefixIndent);
      out := out + prefix;
      outColumn := outColumn + |prefix|;
      gap := PutSpace(indent - outColumn);
      SolidBlank(gap);
    }

    // A word and the gap behind it, on a line of which line is printed behind start.
    method PutOn(parabuf: array<char>, w: Word, ghost start: string, ghost line: string) returns (ghost gap: string)
      requires w.text + w.length <= parabuf.Length && out == start + line
      modifies this`out, this`outColumn
      ensures out == start + (line + Text(parabuf[..], w) + gap) && AllBlank(gap)
      ensures outColumn == Column(old(outColumn) + w.length, gap) == old(outColumn) + w.length + w.space
    {
      hide Column, AllBlank, Advance;
      PutWord(parabuf, w);
      assert Text(parabuf[..], w) == parabuf[w.text..w.text + w.length];
      gap := PutSpace(w.space);
    }

    // The line up to its end.
    method PutWords(parabuf: array<char>, word: array<Word>, w0: nat, nextBreak: nat, indent: nat, ghost ws: seq<Word>)
      returns (ghost line: string)
      requires w0 < nextBreak <= |ws| <= word.Length && word[..|ws|] == ws && InBuffer(parabuf[..], ws)
      modifies this`out, this`outColumn
      ensures out == old(out) + (Head() + line) && outColumn == Column(Margin(), line)
      ensures LineOf(parabuf[..], ws, Head(), Margin(), Head() + line, Max(indent, Margin()), w0, nextBreak)
    {
      hide Column, Solid, AllBlank, NoBlank, Shows, LineOf, Ready, WordColumn, WordAt, InBuffer, Advance, Output.Head;
      ghost var buf, head, margin := parabuf[..], Head(), Margin();
      ghost var col := Max(indent, margin);
      line := PutMargin(indent);
      ghost var start := old(out) + head;
      ghost var at: seq<nat>, shown: string, gap: string := [], [], [];
      ReadyFirst(buf, ws, margin, shown, gap, line, col, w0);
      var endline := nextBreak - 1;
      var w := w0;
      while w != endline
        invariant w0 <= w <= endline && out == start + line && outColumn == Column(margin, line)
        invariant Ready(buf, ws, margin, shown, gap, line, col, w0, w, at)
        decreases endline - w
      {
        WordNext(buf, ws, margin, shown, gap, line, col, w0, w, at);
        shown := line + Text(buf, ws[w]);
        gap := PutOn(parabuf, word[w], start, line);
        at, line := at + [|line|], shown + gap;
        GapNext(buf, ws, margin, shown, gap, line, col, w0, w + 1, at);
        w := w + 1;
      }
      WordNext(buf, ws, margin, shown, gap, line, col, w0, w, at);
      PutWord(parabuf, word[w]);
      at, line := at + [|line|], line + Text(buf, ws[w]);
      LineShown(buf, ws, head, margin, line, col, w0, nextBreak, at);
    }

    /** put_line: the words from w up to the break chosen for it. */
    method PutLine(parabuf: array<char>, word: array<Word>, w: nat, nextBreak: nat, indent: nat, ghost ws: seq<Word>)
      returns (ghost line: string)
      requires w < nextBreak <= |ws| <= word.Length && word[..|ws|] == ws && InBuffer(parabuf[..], ws)
      modifies this`out, this`outColumn, this`lastLineLength, this`sent
      ensures out == old(out) + line + "\n" && sent == old(sent) + Words(parabuf[..], ws, w, nextBreak)
      ensures LineOf(parabuf[..], ws, Head(), Margin(), line, Max(indent, Margin()), w, nextBreak)
      ensures outColumn == lastLineLength == Column(Margin(), line[|Head()|..])
      ensures old(Faithful()) ==> Faithful()
    {
      hide Column, Solid, Words, LineOf, InBuffer, Advance;
      ghost var body := PutWords(parabuf, word, w, nextBreak, indent, ws);
      line := Head() + body;
      assert line[|Head()|..] == body;
      lastLineLength := outColumn;
      out := out + "\n";
      sent := sent + Words(parabuf[..], ws, w, nextBreak);
      HeadSolid(tabs, prefixIndent, prefix);
      LineSent(old(out), line, old(sent), parabuf[..], ws, Head(), Margin(), Max(indent, Margin()), w, nextBreak);
    }
  }

  // The text of the words from i up to j.
  function Words(buf: seq<char>, ws: seq<Word>, i: nat, j: nat): string {
    if i < j <= |ws| && ws[i].text <= ws[j - 1].text + ws[j - 1].length <= |buf|
    then buf[ws[i].text..ws[j - 1].text + ws[j - 1].length]
    else []
  }

  lemma {:induction false} WordsJoin(buf: seq<char>, ws: seq<Word>, i: nat, j: nat, k: nat)
    requires InBuffer(buf, ws) && i < j < k <= |ws|
    ensures Words(buf, ws, i, j) + Words(buf, ws, j, k) == Words(buf, ws, i, k)
    decreases k
  {
    hide NoBlank;
    WordsGrow(buf, ws, i, j);
    WordsGrow(buf, ws, j, k);
    assert WordAt(buf, ws, j - 1);
  }

  lemma {:induction false} WordsGrow(buf: seq<char>, ws: seq<Word>, i: nat, j: nat)
    requires InBuffer(buf, ws) && i < j <= |ws|
    ensures ws[i].text <= ws[j - 1].text && ws[j - 1].text + ws[j - 1].length <= |buf|
    decreases j
  {
    assert WordAt(buf, ws, j - 1);
    if i < j - 1 {
      WordsGrow(buf, ws, i, j - 1);
      assert WordAt(buf, ws, j - 2);
    }
  }

  lemma {:induction false} LineSent(out: string, line: string, sent: string, buf: seq<char>, ws: seq<Word>,
                                    head: string, margin: nat,
                                    col: nat, i: nat, j: nat)
    requires LineOf(buf, ws, head, margin, line, col, i, j)
    ensures Solid(head) == [] && Solid(out) == sent ==> Solid(out + line + "\n") == sent + Words(buf, ws, i, j)
  {
    hide Column, Stands;
    var body := line[|head|..];
    var at :| Shows(buf, ws, margin, body, col, i, j, at);
    SolidConcat(head, body);
    assert head + body == line;
    SolidConcat(out, line);
    SolidConcat(out + line, "\n");
    assert Solid("\n") == [] by {
      assert "\n"[..0] == "";
    }
  }

  /** put_space and the prefix: what they write is as wide as they take it to be, unless there are
      tabs in the prefix. */
  lemma {:induction false} HeadColumn(tabs: bool, indent: nat, prefix: string)
    requires '\t' !in prefix
    ensures Column(0, Advance(tabs, 0, indent) + prefix) == indent + |prefix|
  {
    hide Advance;
    AdvanceReaches(tabs, 0, indent);
    ColumnConcat(0, Advance(tabs, 0, indent), prefix);
    ColumnPlain(indent, prefix);
  }

  lemma {:induction false} HeadSolid(tabs: bool, indent: nat, prefix: string)
    ensures Solid(Advance(tabs, 0, indent) + prefix) == Solid(prefix)
  {
    hide Advance;
    AdvanceReaches(tabs, 0, indent);
    SolidConcat(Advance(tabs, 0, indent), prefix);
    SolidBlank(Advance(tabs, 0, indent));
  }

  /** Tabs and blanks lead exactly as far as requested. */
  lemma {:induction false} AdvanceReaches(tabs: bool, col: nat, space: int)
    ensures Column(col, Advance(tabs, col, space)) == Max(col, col + space)
    ensures AllBlank(Advance(tabs, col, space))
  {
    hide Column;
    var target := col + space;
    if tabs && col + 1 < target / TABWIDTH * TABWIDTH {
      TabsThenBlanks(col, target / TABWIDTH - col / TABWIDTH, target % TABWIDTH);
    } else {
      ColumnBlanks(col, Max(0, space));
    }
  }

  lemma {:induction false} TabsThenBlanks(col: nat, t: nat, b: nat)
    requires t > 0
    ensures Column(col, Repeated('\t', t) + Repeated(' ', b)) == (col / TABWIDTH + t) * TABWIDTH + b
  {
    hide Column, Repeated;
    ColumnTabs(col, t);
    ColumnConcat(col, Repeated('\t', t), Repeated(' ', b));
    ColumnBlanks((col / TABWIDTH + t) * TABWIDTH, b);
  }

  lemma {:induction false} ColumnBlanks(col: nat, n: nat)
    ensures Column(col, Repeated(' ', n)) == col + n
  {
    ColumnPlain(col, Repeated(' ', n));
  }

  lemma {:induction false} ColumnTabs(col: nat, n: nat)
    ensures Column(col, Repeated('\t', n)) == if n == 0 then col else (col / TABWIDTH + n) * TABWIDTH
  {
    if n > 0 {
      ColumnTabs(col, n - 1);
      ColumnSnoc(col, Repeated('\t', n - 1), '\t');
      assert Repeated('\t', n - 1) + ['\t'] == Repeated('\t', n);
    }
  }

  // The line is about to show word w: it ends with a gap of the right width.
  ghost predicate Ready(buf: seq<char>, ws: seq<Word>, margin: nat, shown: string, gap: string, line: string,
                        col: nat, i: nat, w: nat, at: seq<nat>)
  {
    if w == i then Solid(line) == [] && Column(margin, line) == col && at == []
    else
      && Shows(buf, ws, margin, shown, col, i, w, at) && AllBlank(gap) && line == shown + gap
      && Column(margin, line) == Column(margin, shown) + ws[w - 1].space
  }

  lemma {:induction false} ReadyFirst(buf: seq<char>, ws: seq<Word>, margin: nat, shown: string, gap: string, line: string,
                                      col: nat, i: nat)
    requires Solid(line) == [] && Column(margin, line) == col
    ensures Ready(buf, ws, margin, shown, gap, line, col, i, i, [])
  {
  }

  lemma {:induction false} LineShown(buf: seq<char>, ws: seq<Word>, head: string, margin: nat, line: string, col: nat,
                                     i: nat, j: nat, at: seq<nat>)
    requires Shows(buf, ws, margin, line, col, i, j, at)
    ensures LineOf(buf, ws, head, margin, head + line, col, i, j)
  {
    assert (head + line)[|head|..] == line;
  }

  lemma {:induction false} WordNext(buf: seq<char>, ws: seq<Word>, margin: nat, shown: string, gap: string, line: string,
                                    col: nat, i: nat, w: nat, at: seq<nat>)
    requires InBuffer(buf, ws) && i <= w < |ws| && Ready(buf, ws, margin, shown, gap, line, col, i, w, at)
    ensures ws[w].text + ws[w].length <= |buf|
    ensures Shows(buf, ws, margin, line + Text(buf, ws[w]), col, i, w + 1, at + [|line|])
    ensures Column(margin, line + Text(buf, ws[w])) == Column(margin, line) + ws[w].length
  {
    hide Column, Solid, AllBlank, NoBlank, Shows;
    assert WordAt(buf, ws, w);
    AppendText(margin, line, Text(buf, ws[w]));
    if w == i {
      ShowsFirst(buf, ws, margin, line, col, i);
      assert at + [|line|] == [|line|];
    } else {
      assert WordAt(buf, ws, w - 1);
      ShowsMore(buf, ws, margin, shown, line, col, i, w, at, gap);
    }
  }

  lemma {:induction false} GapNext(buf: seq<char>, ws: seq<Word>, margin: nat, shown: string, gap: string, line: string,
                                   col: nat, i: nat, w: nat, at: seq<nat>)
    requires i < w <= |ws| && Shows(buf, ws, margin, shown, col, i, w, at) && AllBlank(gap) && line == shown + gap
    requires Column(Column(margin, shown), gap) == Column(margin, shown) + ws[w - 1].space
    ensures Ready(buf, ws, margin, shown, gap, line, col, i, w, at)
    ensures Column(margin, line) == Column(margin, shown) + ws[w - 1].space
  {
    hide Column, Solid, AllBlank, Shows;
    ColumnConcat(margin, shown, gap);
  }

  lemma NoGap()
    ensures Repeated('\t', 0) == Repeated(' ', 0) == []
    ensures forall s: string :: [] + s == s && s + [] == s
  {
  }

  lemma {:induction false} OneMore(c: char, n: nat)
    ensures Repeated(c, n) + [c] == Repeated(c, n + 1)
  {
  }

  lemma {:induction false} ColumnPlain(col: nat, s: string)
    requires '\t' !in s
    ensures Column(col, s) == col + |s|
  {
    if s != [] {
      ColumnPlain(col, s[..|s| - 1]);
    }
  }

  lemma {:induction false} ColumnSnoc(col: nat, s: string, c: char)
    ensures Column(col, s + [c]) == NextColumn(Column(col, s), c)
  {
    assert (s + [c])[..|s + [c]| - 1] == s;
  }
}
