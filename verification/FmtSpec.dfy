/** The costs by which fmt chooses line breaks, the recurrence its choices satisfy, and what
    that makes of the whole layout. */
module FmtSpec {

  const MAXCOST: int := 0x7FFF_FFFF_FFFF_FFFF
  const MAXWORDS: nat := 1000
  const MAXCHARS: nat := 5000
  // No indent is wider than this: about the most for which MAXWORDS lines cost less than MAXCOST.
  const MAXCOLUMN: nat := 5_000_000
  // No line adds more than this to the cost of a paragraph.
  const MAXLINECOST: int := 9_000_000_000_000_000

  /** A word: where its text begins, its length, the space behind it, and its punctuation. */
  datatype Word = Word(text: nat, length: nat, space: nat, paren: bool, period: bool, punct: bool, ends: bool)

  /** The best line that starts with a word, and the cost of the paragraph from there on. */
  datatype Choice = Choice(lineLength: int, bestCost: int, nextBreak: nat)

  datatype Margins = Margins(maxWidth: nat, goalWidth: nat, firstIndent: nat, otherIndent: nat, lastLineLength: nat)

  ghost predicate Bounded(ws: seq<Word>, m: Margins) {
    && |ws| <= MAXWORDS
    && (forall i :: 0 <= i < |ws| ==> ws[i].length <= MAXCHARS)
    && m.maxWidth <= MAXCHARS && m.goalWidth <= MAXCHARS
    && m.firstIndent <= MAXCOLUMN && m.otherIndent <= MAXCOLUMN
    && m.lastLineLength <= 2 * MAXCOLUMN
  }

  function ShortCost(n: int): int { (10 * n) * (10 * n) }

  function RaggedCost(n: int): int { ShortCost(n) / 2 }

  // base_cost
  function BaseCost(ws: seq<Word>, i: nat): (c: int)
    requires i < |ws|
    ensures 800 <= c <= 400_000
  {
    4900
    + (if i == 0 then 0
       else if ws[i - 1].period then (if ws[i - 1].ends then -2500 else 360_000)
       else if ws[i - 1].punct then -1600
       else if i > 1 && ws[i - 2].ends then 40_000 / (ws[i - 1].length + 2)
       else 0)
    + (if ws[i].paren then -1600
       else if ws[i].ends then 22_500 / (ws[i].length + 2)
       else 0)
  }

  function Indent(m: Margins, i: nat): nat { if i == 0 then m.firstIndent else m.otherIndent }

  // The column behind the words from i up to j, on a line of their own.
  function LineLength(ws: seq<Word>, m: Margins, i: nat, j: nat): nat
    requires i < j <= |ws|
    decreases j
  {
    if j == i + 1 then Indent(m, i) + ws[i].length
    else LineLength(ws, m, i, j - 1) + ws[j - 2].space + ws[j - 1].length
  }

  // Words i up to j may form a line: a single word always may.
  predicate Admissible(ws: seq<Word>, m: Margins, i: nat, j: nat) {
    i < j <= |ws| && (j == i + 1 || LineLength(ws, m, i, j) < m.maxWidth)
  }

  lemma {:induction false} LineLengthGrows(ws: seq<Word>, m: Margins, i: nat, j: nat, k: nat)
    requires i < j <= k <= |ws|
    ensures LineLength(ws, m, i, j) <= LineLength(ws, m, i, k)
    decreases k
  {
    if j < k {
      LineLengthGrows(ws, m, i, j, k - 1);
    }
  }

  // line_cost: n words in all, next is the break considered, len the length of the line.
  function LineCost(cs: seq<Choice>, n: nat, goal: int, next: nat, len: int): int
    requires n < |cs| && next <= n
  {
    if next == n then 0
    else ShortCost(goal - len) + (if cs[next].nextBreak != n then RaggedCost(len - cs[next].lineLength) else 0)
  }

  // The cost of breaking before j in a paragraph that starts with i.
  function BreakCost(ws: seq<Word>, cs: seq<Choice>, m: Margins, i: nat, j: nat): int
    requires i < j <= |ws| < |cs|
  {
    var len := LineLength(ws, m, i, j);
    LineCost(cs, |ws|, m.goalWidth, j, len) + cs[j].bestCost
    + (if i == 0 && m.lastLineLength > 0 then RaggedCost(len - m.lastLineLength) else 0)
  }

  /** The choice for word i is the first of the cheapest breaks, given those for the words
      behind it. */
  ghost predicate Best(ws: seq<Word>, cs: seq<Choice>, m: Margins, i: nat)
    requires i < |ws| < |cs|
  {
    var c := cs[i];
    && Admissible(ws, m, i, c.nextBreak)
    && c.lineLength == LineLength(ws, m, i, c.nextBreak)
    && c.bestCost == BreakCost(ws, cs, m, i, c.nextBreak) + BaseCost(ws, i)
    && (forall j :: i < j < c.nextBreak ==> BreakCost(ws, cs, m, i, j) > BreakCost(ws, cs, m, i, c.nextBreak))
    && (forall j :: c.nextBreak < j && Admissible(ws, m, i, j) ==>
          BreakCost(ws, cs, m, i, j) >= BreakCost(ws, cs, m, i, c.nextBreak))
  }

  ghost predicate AllBest(ws: seq<Word>, cs: seq<Choice>, m: Margins) {
    && |ws| < |cs| && cs[|ws|].bestCost == 0
    && forall i :: 0 <= i < |ws| ==> Best(ws, cs, m, i)
  }

  lemma AllBestLength(ws: seq<Word>, cs: seq<Choice>, m: Margins)
    requires AllBest(ws, cs, m)
    ensures |ws| < |cs|
  {
  }

  // Best looks at no choice before word i.
  lemma BestFrame(ws: seq<Word>, cs: seq<Choice>, ds: seq<Choice>, m: Margins, i: nat)
    requires i < |ws| < |cs| && |cs| == |ds| && Best(ws, cs, m, i)
    requires forall j :: i <= j < |cs| ==> cs[j] == ds[j]
    ensures Best(ws, ds, m, i)
  {
    hide ShortCost, BaseCost, LineLength;
    forall j | i < j <= |ws|
      ensures BreakCost(ws, ds, m, i, j) == BreakCost(ws, cs, m, i, j)
    {
    }
  }

  // ---------- costs of layouts ----------

  /** A layout of the words from b[0] on: the starts of its lines, and the end. */
  ghost predicate IsLayout(ws: seq<Word>, b: seq<nat>)
    decreases |b|
  {
    && b != [] && b[0] <= |ws|
    && if |b| == 1 then b[0] == |ws| else b[0] < b[1] <= |ws| && IsLayout(ws, b[1..])
  }

  // All its lines are admissible.
  ghost predicate Fitting(ws: seq<Word>, m: Margins, b: seq<nat>)
    decreases |b|
  {
    |b| > 1 ==> Admissible(ws, m, b[0], b[1]) && Fitting(ws, m, b[1..])
  }

  // What the line from i up to j costs in front of a line of the given length; last says that
  // it is the last line, nextLast that the following one is.
  function LineTerm(ws: seq<Word>, m: Margins, i: nat, j: nat, nextLast: bool, nextLength: int): int
    requires i < j <= |ws|
  {
    var len := LineLength(ws, m, i, j);
    BaseCost(ws, i)
    + (if j == |ws| then 0
       else ShortCost(m.goalWidth - len) + (if nextLast then 0 else RaggedCost(len - nextLength)))
    + (if i == 0 && m.lastLineLength > 0 then RaggedCost(len - m.lastLineLength) else 0)
  }

  /** The full cost of a layout: for every line its base cost, for every line but the last its
      shortness, and for every two adjacent lines but the last two their difference; the first
      line is also compared with the last line of what was flushed before. */
  ghost function LayoutCost(ws: seq<Word>, m: Margins, b: seq<nat>): int
    requires IsLayout(ws, b)
    decreases |b|
  {
    if |b| == 1 then 0
    else
      (if |b| == 2 then LineTerm(ws, m, b[0], b[1], true, 0)
       else assert IsLayout(ws, b[1..]); LineTerm(ws, m, b[0], b[1], |b| == 3, LineLength(ws, m, b[1], b[2])))
      + LayoutCost(ws, m, b[1..])
  }

  // The layout that follows the recorded breaks.
  ghost function Chain(ws: seq<Word>, cs: seq<Choice>, m: Margins, i: nat): (b: seq<nat>)
    requires AllBest(ws, cs, m) && i <= |ws|
    ensures b != [] && b[0] == i
    ensures |b| > 1 <==> i < |ws|
    decreases |ws| - i
  {
    if i == |ws| then [i] else
      assert Best(ws, cs, m, i);
      [i] + Chain(ws, cs, m, cs[i].nextBreak)
  }

  /** The recorded breaks divide the words into admissible lines. */
  lemma {:induction false} ChainIsLayout(ws: seq<Word>, cs: seq<Choice>, m: Margins, i: nat)
    requires AllBest(ws, cs, m) && i <= |ws|
    ensures IsLayout(ws, Chain(ws, cs, m, i)) && Fitting(ws, m, Chain(ws, cs, m, i))
    decreases |ws| - i
  {
    hide BreakCost, BaseCost, LineLength;
    if i < |ws| {
      assert Best(ws, cs, m, i);
      var j := cs[i].nextBreak;
      ChainIsLayout(ws, cs, m, j);
      assert Chain(ws, cs, m, i)[1..] == Chain(ws, cs, m, j);
    }
  }

  /** The cost recorded for a word is the full cost of the layout recorded for the words from
      there on. */
  lemma {:induction false} CostIsExact(ws: seq<Word>, cs: seq<Choice>, m: Margins, i: nat)
    requires AllBest(ws, cs, m) && i <= |ws|
    ensures IsLayout(ws, Chain(ws, cs, m, i))
    ensures cs[i].bestCost == LayoutCost(ws, m, Chain(ws, cs, m, i))
    decreases |ws| - i
  {
    hide ShortCost, RaggedCost, BaseCost, LineLength;
    ChainIsLayout(ws, cs, m, i);
    if i < |ws| {
      assert Best(ws, cs, m, i);
      var j := cs[i].nextBreak;
      CostIsExact(ws, cs, m, j);
      var b := Chain(ws, cs, m, i);
      assert b[1..] == Chain(ws, cs, m, j);
      if j < |ws| {
        assert Best(ws, cs, m, j);
        assert b[2] == cs[j].nextBreak;
        assert |b| == 3 <==> cs[j].nextBreak == |ws|;
      }
    }
  }

  /** The recorded cost falls strictly from line to line. */
  lemma CostFalls(ws: seq<Word>, cs: seq<Choice>, m: Margins, i: nat)
    requires AllBest(ws, cs, m) && i < |ws|
    ensures i < cs[i].nextBreak <= |ws|
    ensures cs[i].bestCost >= cs[cs[i].nextBreak].bestCost + 800
  {
    assert Best(ws, cs, m, i);
  }
}
