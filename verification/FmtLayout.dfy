/** put_paragraph: the lines along the recorded breaks. */
module FmtLayout {
  import opened FmtSpec
  import opened FmtOutput

  /** Line k of those printed: it shows the words from b[k] up to the break recorded for b[k]. */
  ghost predicate Printed(buf: seq<char>, ws: seq<Word>, cs: seq<Choice>, m: Margins, head: string, margin: nat,
                          b: seq<nat>, lines: seq<string>, k: nat)
  {
    && k + 1 < |b| && k < |lines| && |ws| < |cs|
    && b[k] < b[k + 1] <= |ws| && b[k + 1] == cs[b[k]].nextBreak
    && LineOf(buf, ws, head, margin, lines[k], Max(Indent(m, b[k]), margin), b[k], b[k + 1])
  }

  ghost predicate AllPrinted(buf: seq<char>, ws: seq<Word>, cs: seq<Choice>, m: Margins, head: string, margin: nat,
                             b: seq<nat>, lines: seq<string>, finish: nat)
  {
    && |b| == |lines| + 1 && b[0] == 0 && b[|lines|] == finish
    && forall k :: 0 <= k < |lines| ==> Printed(buf, ws, cs, m, head, margin, b, lines, k)
  }

  /** Where the indent covers the prefix, the line printed is as long as reckoned; in a terminal
      too, if there are no tabs in the prefix. */
  lemma {:induction false} PrintedLength(buf: seq<char>, ws: seq<Word>, cs: seq<Choice>, m: Margins, tabs: bool, indent: nat,
                                         prefix: string, b: seq<nat>, lines: seq<string>, k: nat)
    requires var head, margin := Advance(tabs, 0, indent) + prefix, indent + |prefix|;
             AllBest(ws, cs, m) && Printed(buf, ws, cs, m, head, margin, b, lines, k)
    ensures var head, margin := Advance(tabs, 0, indent) + prefix, indent + |prefix|;
            var length := Column(margin, lines[k][|head|..]);
            && length == cs[b[k]].lineLength + Max(0, margin - Indent(m, b[k]))
            && (length < m.maxWidth + Max(0, margin - Indent(m, b[k])) || b[k + 1] == b[k] + 1)
            && ('\t' !in prefix ==> Column(0, lines[k]) == length)
  {
    hide Column, Stands, BreakCost, Solid, Advance;
    var head, margin := Advance(tabs, 0, indent) + prefix, indent + |prefix|;
    var i, j := b[k], b[k + 1];
    var col := Max(Indent(m, i), margin);
    var body := lines[k][|head|..];
    var at :| Shows(buf, ws, margin, body, col, i, j, at);
    ReckonedColumn(ws, m, i, j, col);
    assert Best(ws, cs, m, i);
    if '\t' !in prefix {
      HeadColumn(tabs, indent, prefix);
      ColumnConcat(0, head, body);
      assert head + body == lines[k];
    }
  }

  lemma {:induction false} LineColumn(buf: seq<char>, ws: seq<Word>, m: Margins, head: string, line: string,
                                      margin: nat, i: nat, j: nat)
    requires Bounded(ws, m) && Admissible(ws, m, i, j) && margin <= MAXCOLUMN
    requires LineOf(buf, ws, head, margin, line, Max(Indent(m, i), margin), i, j)
    ensures |head| <= |line| && Column(margin, line[|head|..]) <= 2 * MAXCOLUMN
  {
    hide Column, Stands, Solid;
    var col := Max(Indent(m, i), margin);
    var at :| Shows(buf, ws, margin, line[|head|..], col, i, j, at);
    ReckonedColumn(ws, m, i, j, col);
  }

  lemma {:induction false} ChainAbove(ws: seq<Word>, cs: seq<Choice>, m: Margins, i: nat, x: nat)
    requires AllBest(ws, cs, m) && i <= |ws| && x in Chain(ws, cs, m, i)
    ensures i <= x <= |ws|
    decreases |ws| - i
  {
    hide BreakCost, LineLength, BaseCost;
    if i < |ws| && x != i {
      assert Best(ws, cs, m, i);
      ChainAbove(ws, cs, m, cs[i].nextBreak, x);
    }
  }

  // A place behind i on the chain is on the chain from the break recorded for i.
  lemma {:induction false} ChainNext(ws: seq<Word>, cs: seq<Choice>, m: Margins, i: nat, x: nat)
    requires AllBest(ws, cs, m) && i <= |ws| && x in Chain(ws, cs, m, i) && x != i
    ensures i < |ws| && Admissible(ws, m, i, cs[i].nextBreak)
    ensures i < cs[i].nextBreak <= x <= |ws| && x in Chain(ws, cs, m, cs[i].nextBreak)
  {
    hide BreakCost, LineLength, BaseCost;
    ChainAbove(ws, cs, m, i, x);
    assert Best(ws, cs, m, i);
    ChainAbove(ws, cs, m, cs[i].nextBreak, x);
  }

  lemma {:induction false} PrintedMore(buf: seq<char>, ws: seq<Word>, cs: seq<Choice>, m: Margins, head: string, margin: nat,
                                       b: seq<nat>, lines: seq<string>, w: nat, line: string)
    requires AllPrinted(buf, ws, cs, m, head, margin, b, lines, w) && w < |ws| < |cs|
    requires w < cs[w].nextBreak <= |ws|
    requires LineOf(buf, ws, head, margin, line, Max(Indent(m, w), margin), w, cs[w].nextBreak)
    ensures AllPrinted(buf, ws, cs, m, head, margin, b + [cs[w].nextBreak], lines + [line], cs[w].nextBreak)
  {
    hide LineOf;
    forall k | 0 <= k < |lines| + 1
      ensures Printed(buf, ws, cs, m, head, margin, b + [cs[w].nextBreak], lines + [line], k)
    {
      if k < |lines| {
        assert Printed(buf, ws, cs, m, head, margin, b, lines, k);
      }
    }
  }

  lemma {:induction false} JoinedSnoc(lines: seq<string>, line: string)
    ensures Joined(lines + [line]) == Joined(lines) + line + "\n"
  {
    assert (lines + [line])[..|lines|] == lines;
  }

  /** put_paragraph: prints the lines along the chain of breaks, up to finish. */
  method PutParagraph(output: Output, parabuf: array<char>, word: array<Word>, choice: array<Choice>, finish: nat, m: Margins,
                      ghost ws: seq<Word>)
    returns (ghost b: seq<nat>, ghost lines: seq<string>)
    requires |ws| <= word.Length && word[..|ws|] == ws && InBuffer(parabuf[..], ws)
    requires AllBest(ws, choice[..], m) && finish in Chain(ws, choice[..], m, 0) && finish > 0
    requires Bounded(ws, m) && output.Margin() <= MAXCOLUMN
    modifies output`out, output`outColumn, output`lastLineLength, output`sent
    ensures output.out == old(output.out) + Joined(lines)
    ensures AllPrinted(parabuf[..], ws, choice[..], m, output.Head(), output.Margin(), b, lines, finish)
    ensures 0 < finish <= |ws| && output.sent == old(output.sent) + Words(parabuf[..], ws, 0, finish)
    ensures old(output.Faithful()) ==> output.Faithful()
    ensures output.lastLineLength <= 2 * MAXCOLUMN
  {
    hide AllBest, Bounded, Chain, LineOf, AllPrinted, Joined, Words, InBuffer, Column, Admissible, Output.Head;
    ghost var cs, buf, head, margin := choice[..], parabuf[..], output.Head(), output.Margin();
    AllBestLength(ws, cs, m);
    ChainNext(ws, cs, m, 0, finish);
    var w := choice[0].nextBreak;
    ghost var line := output.PutLine(parabuf, word, 0, w, m.firstIndent, ws);
    LineColumn(buf, ws, m, head, line, margin, 0, w);
    b, lines := [0, w], [line];
    FirstPrinted(buf, ws, cs, m, head, margin, w, line);
    while w != finish
      invariant 0 < w <= |ws| && finish in Chain(ws, cs, m, w)
      invariant output.out == old(output.out) + Joined(lines)
      invariant AllPrinted(buf, ws, cs, m, head, margin, b, lines, w)
      invariant output.sent == old(output.sent) + Words(buf, ws, 0, w)
      invariant old(output.Faithful()) ==> output.Faithful()
      invariant output.lastLineLength <= 2 * MAXCOLUMN
      decreases |ws| - w
    {
      ChainNext(ws, cs, m, w, finish);
      line := output.PutLine(parabuf, word, w, choice[w].nextBreak, m.otherIndent, ws);
      LineColumn(buf, ws, m, head, line, margin, w, choice[w].nextBreak);
      PrintedMore(buf, ws, cs, m, head, margin, b, lines, w, line);
      JoinedSnoc(lines, line);
      WordsJoin(buf, ws, 0, w, choice[w].nextBreak);
      b, lines := b + [choice[w].nextBreak], lines + [line];
      w := choice[w].nextBreak;
    }
  }

  lemma {:induction false} FirstPrinted(buf: seq<char>, ws: seq<Word>, cs: seq<Choice>, m: Margins, head: string, margin: nat,
                                        w: nat, line: string)
    requires 0 < w <= |ws| < |cs| && w == cs[0].nextBreak
    requires LineOf(buf, ws, head, margin, line, Max(m.firstIndent, margin), 0, w)
    ensures AllPrinted(buf, ws, cs, m, head, margin, [0, w], [line], w)
    ensures Joined([line]) == line + "\n"
  {
    hide LineOf;
    assert Printed(buf, ws, cs, m, head, margin, [0, w], [line], 0);
    assert [line][..0] == [];
  }
}
