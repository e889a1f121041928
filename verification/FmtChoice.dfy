/** fmt_paragraph: the choices of line breaks, made in place from the last word to the first. */
module FmtChoice {
  import opened FmtSpec

  /** The choices from word start on are made, and none costs more than its lines can. */
  ghost predicate Recorded(ws: seq<Word>, cs: seq<Choice>, m: Margins, start: nat) {
    && |ws| < |cs| && cs[|ws|].bestCost == 0
    && forall i :: start <= i < |ws| ==> Best(ws, cs, m, i) && Affordable(cs[i], |ws| - i)
  }

  // The cost of at most n lines, and a line of at most one word beyond the margin.
  predicate Affordable(c: Choice, n: nat) {
    0 <= c.bestCost <= n * MAXLINECOST && 0 <= c.lineLength <= MAXCOLUMN + MAXCHARS
  }

  lemma ShortCostBound(n: int, k: nat)
    requires 0 - k <= n <= k
    ensures 0 <= ShortCost(n) <= 100 * k * k
  {
    SquareBound(n, k);
    assert ShortCost(n) == 100 * (n * n);
  }

  lemma SquareBound(n: int, k: nat)
    requires 0 - k <= n <= k
    ensures 0 <= n * n <= k * k
  {
    var a := if n < 0 then -n else n;
    assert n * n == a * a && a * a <= a * k && a * k <= k * k;
  }

  lemma LineLengthBound(ws: seq<Word>, m: Margins, i: nat, j: nat)
    requires Bounded(ws, m) && Admissible(ws, m, i, j)
    ensures LineLength(ws, m, i, j) <= MAXCOLUMN + MAXCHARS
  {
  }

  lemma LineCostBound(cs: seq<Choice>, n: nat, goal: nat, next: nat, len: nat)
    requires next <= n < |cs| && goal <= MAXCHARS && len <= MAXCOLUMN + MAXCHARS
    requires next < n ==> 0 <= cs[next].lineLength <= MAXCOLUMN + MAXCHARS
    ensures 0 <= LineCost(cs, n, goal, next, len) <= 3_800_000_000_000_000
  {
    hide ShortCost;
    if next < n {
      ShortCostBound(goal - len, MAXCOLUMN + MAXCHARS);
      ShortCostBound(len - cs[next].lineLength, MAXCOLUMN + MAXCHARS);
    }
  }

  lemma RaggedCostBound(n: int)
    requires -2 * MAXCOLUMN <= n <= 2 * MAXCOLUMN
    ensures 0 <= RaggedCost(n) <= 5_000_000_000_000_000
  {
    ShortCostBound(n, 2 * MAXCOLUMN);
  }

  lemma BreakCostBound(ws: seq<Word>, cs: seq<Choice>, m: Margins, i: nat, j: nat)
    requires Bounded(ws, m) && Recorded(ws, cs, m, i + 1) && Admissible(ws, m, i, j)
    ensures 0 <= BreakCost(ws, cs, m, i, j) <= (|ws| - i) * MAXLINECOST - 400_000 < MAXCOST
  {
    hide ShortCost, LineLength, LineCost, RaggedCost, Best;
    var len := LineLength(ws, m, i, j);
    LineLengthBound(ws, m, i, j);
    LineCostBound(cs, |ws|, m.goalWidth, j, len);
    RaggedCostBound(len - m.lastLineLength);
    assert 0 <= cs[j].bestCost <= (|ws| - i - 1) * MAXLINECOST by {
      if j < |ws| {
        assert Affordable(cs[j], |ws| - j);
        assert (|ws| - j) * MAXLINECOST <= (|ws| - i - 1) * MAXLINECOST;
      }
    }
  }

  lemma RecordedFrame(ws: seq<Word>, cs: seq<Choice>, ds: seq<Choice>, m: Margins, start: nat)
    requires Recorded(ws, cs, m, start + 1) && |cs| == |ds|
    requires forall j :: start < j < |cs| ==> cs[j] == ds[j]
    requires start < |ws| && Best(ws, ds, m, start) && Affordable(ds[start], |ws| - start)
    ensures Recorded(ws, ds, m, start)
  {
    hide Best, Affordable;
    forall i | start <= i < |ws|
      ensures Best(ws, ds, m, i) && Affordable(ds[i], |ws| - i)
    {
      if i > start {
        assert Best(ws, cs, m, i) && Affordable(cs[i], |ws| - i);
        BestFrame(ws, cs, ds, m, i);
      }
    }
  }

  // Break c.nextBreak is the first of the cheapest among those up to w, and costs best.
  ghost predicate Leads(ws: seq<Word>, cs: seq<Choice>, m: Margins, i: nat, w: nat, c: Choice, best: int)
    requires i <= w <= |ws| < |cs|
  {
    && i < c.nextBreak <= w && Admissible(ws, m, i, c.nextBreak)
    && c.lineLength == LineLength(ws, m, i, c.nextBreak)
    && best == BreakCost(ws, cs, m, i, c.nextBreak)
    && (forall j :: i < j < c.nextBreak ==> BreakCost(ws, cs, m, i, j) > best)
    && (forall j :: c.nextBreak < j <= w ==> BreakCost(ws, cs, m, i, j) >= best)
  }

  lemma LeaderIsBest(ws: seq<Word>, cs: seq<Choice>, ds: seq<Choice>, m: Margins, i: nat, w: nat, c: Choice, best: int)
    requires i < w <= |ws| < |cs| && |cs| == |ds| && Leads(ws, cs, m, i, w, c, best)
    requires w < |ws| ==> LineLength(ws, m, i, w + 1) >= m.maxWidth
    requires ds == cs[i := Choice(c.lineLength, best + BaseCost(ws, i), c.nextBreak)]
    ensures Best(ws, ds, m, i)
  {
    hide LineLength, BaseCost, ShortCost;
    forall j | i < j <= |ws|
      ensures BreakCost(ws, ds, m, i, j) == BreakCost(ws, cs, m, i, j)
    {
    }
    forall j: nat | w < j <= |ws|
      ensures !Admissible(ws, m, i, j)
    {
      LineLengthGrows(ws, m, i, w + 1, j);
    }
  }

  // Break w, considered after those before it.
  lemma LeadsNext(ws: seq<Word>, cs: seq<Choice>, m: Margins, i: nat, w: nat, c: Choice, best: int, d: Choice, cost: int)
    requires Bounded(ws, m) && Recorded(ws, cs, m, i + 1) && Admissible(ws, m, i, w)
    requires if w == i + 1 then best == MAXCOST else Leads(ws, cs, m, i, w - 1, c, best)
    requires cost == BreakCost(ws, cs, m, i, w)
    requires if cost < best then d == c.(nextBreak := w, lineLength := LineLength(ws, m, i, w)) else d == c
    ensures Leads(ws, cs, m, i, w, d, if cost < best then cost else best)
  {
    hide BreakCost, LineLength, Best, Affordable;
    BreakCostBound(ws, cs, m, i, w);
  }

  lemma ChoiceMade(ws: seq<Word>, cs: seq<Choice>, ds: seq<Choice>, m: Margins, i: nat, w: nat, c: Choice, best: int)
    requires Bounded(ws, m) && Recorded(ws, cs, m, i + 1)
    requires i < w <= |ws| < |cs| && |cs| == |ds| && Leads(ws, cs, m, i, w, c, best)
    requires w < |ws| ==> LineLength(ws, m, i, w + 1) >= m.maxWidth
    requires ds == cs[i := Choice(c.lineLength, best + BaseCost(ws, i), c.nextBreak)]
    ensures Recorded(ws, ds, m, i)
  {
    hide BreakCost, LineLength, Best, BaseCost, Recorded;
    BreakCostBound(ws, cs, m, i, c.nextBreak);
    LineLengthBound(ws, m, i, c.nextBreak);
    LeaderIsBest(ws, cs, ds, m, i, w, c, best);
    RecordedFrame(ws, cs, ds, m, i);
  }

  lemma LineStart(ws: seq<Word>, m: Margins, i: nat)
    requires i < |ws|
    ensures LineLength(ws, m, i, i + 1) == (if i == 0 then m.firstIndent else m.otherIndent) + ws[i].length
    ensures Admissible(ws, m, i, i + 1)
  {
  }

  lemma LineMore(ws: seq<Word>, m: Margins, i: nat, j: nat)
    requires i + 1 < j <= |ws|
    ensures LineLength(ws, m, i, j) == LineLength(ws, m, i, j - 1) + ws[j - 2].space + ws[j - 1].length
    ensures Admissible(ws, m, i, j) <==> LineLength(ws, m, i, j) < m.maxWidth
  {
  }

  // The cost is read from choices that agree behind i.
  lemma BreakCostIs(ws: seq<Word>, cs: seq<Choice>, ds: seq<Choice>, m: Margins, i: nat, j: nat)
    requires i < j <= |ws| < |cs| == |ds| && cs[j] == ds[j]
    ensures BreakCost(ws, cs, m, i, j) ==
            LineCost(ds, |ws|, m.goalWidth, j, LineLength(ws, m, i, j)) + ds[j].bestCost
            + (if i == 0 && m.lastLineLength > 0 then RaggedCost(LineLength(ws, m, i, j) - m.lastLineLength) else 0)
  {
  }

  /** The inner loop: the choice for word start. */
  method ChooseBreak(word: array<Word>, choice: array<Choice>, limit: nat, m: Margins, start: nat, ghost ws: seq<Word>)
    requires start < limit < choice.Length && limit < word.Length && ws == word[..limit] && Bounded(ws, m)
    requires Recorded(ws, choice[..], m, start + 1)
    modifies choice
    ensures Recorded(ws, choice[..], m, start)
    ensures forall j :: 0 <= j < choice.Length && j != start ==> choice[j] == old(choice[j])
  {
    hide *;
    ghost var cs := choice[..];
    var best := MAXCOST;
    var len := if start == 0 then m.firstIndent else m.otherIndent;
    var w := start;
    len := len + word[w].length;
    LineStart(ws, m, start);
    while true
      invariant start <= w < limit && len == LineLength(ws, m, start, w + 1) && Admissible(ws, m, start, w + 1)
      invariant forall j :: 0 <= j < choice.Length && j != start ==> choice[j] == cs[j]
      invariant if w == start then best == MAXCOST else Leads(ws, cs, m, start, w, choice[start], best)
      decreases limit - w
    {
      w := w + 1;
      var wcost := LineCost(choice[..], limit, m.goalWidth, w, len) + choice[w].bestCost;
      if start == 0 && m.lastLineLength > 0 {
        wcost := wcost + RaggedCost(len - m.lastLineLength);
      }
      BreakCostIs(ws, cs, choice[..], m, start, w);
      LeadsNext(ws, cs, m, start, w, choice[start], best,
                if wcost < best then choice[start].(nextBreak := w, lineLength := len) else choice[start], wcost);
      if wcost < best {
        best := wcost;
        choice[start] := choice[start].(nextBreak := w, lineLength := len);
      }
      if w == limit {
        break;
      }
      len := len + word[w - 1].space + word[w].length;
      LineMore(ws, m, start, w + 1);
      if len >= m.maxWidth {
        break;
      }
    }
    ghost var c := choice[start];
    choice[start] := choice[start].(bestCost := best + BaseCost(word[..limit], start));
    assert choice[..] == cs[start := Choice(c.lineLength, best + BaseCost(ws, start), c.nextBreak)];
    ChoiceMade(ws, cs, choice[..], m, start, w, c, best);
  }

  /** fmt_paragraph: afterwards every word carries the best choice, given those behind it, and
      the words are as they were, the place behind the last one included. */
  method FmtParagraph(word: array<Word>, choice: array<Choice>, limit: nat, m: Margins)
    requires limit < choice.Length && limit < word.Length && Bounded(word[..limit], m)
    modifies word, choice
    ensures word[..] == old(word[..])
    ensures Recorded(word[..limit], choice[..], m, 0) && AllBest(word[..limit], choice[..], m)
    ensures forall j :: limit < j < choice.Length ==> choice[j] == old(choice[j])
  {
    ghost var ws := word[..limit];
    choice[limit] := choice[limit].(bestCost := 0);
    var saved := word[limit];
    word[limit] := saved.(length := m.maxWidth);
    var start := limit;
    while start > 0
      invariant start <= limit && word[..limit] == ws
      invariant forall j :: limit < j < word.Length ==> word[j] == old(word[j])
      invariant Recorded(ws, choice[..], m, start)
      invariant forall j :: limit < j < choice.Length ==> choice[j] == old(choice[j])
    {
      start := start - 1;
      ChooseBreak(word, choice, limit, m, start, ws);
    }
    word[limit] := saved;
    assert word[..limit] == ws;
  }
}
