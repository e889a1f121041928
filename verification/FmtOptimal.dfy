/** Among which layouts the recorded one is cheapest.  Each line was chosen with regard to the line
    recorded behind it, and without regard to the line that will come before it. */
module FmtOptimal {
  import opened FmtSpec

  // The cost of a layout, with the difference to the next line taken from the line recorded
  // for its first word, whether or not the layout has that line.
  ghost function ReckonedCost(ws: seq<Word>, cs: seq<Choice>, m: Margins, b: seq<nat>): int
    requires IsLayout(ws, b) && |ws| < |cs|
    decreases |b|
  {
    if |b| == 1 then 0
    else
      assert IsLayout(ws, b[1..]);
      LineTerm(ws, m, b[0], b[1], cs[b[1]].nextBreak == |ws|, cs[b[1]].lineLength) + ReckonedCost(ws, cs, m, b[1..])
  }

  /** No layout at all is cheaper than the recorded cost, if its lines are compared with the
      lines recorded. */
  lemma {:induction false} NoneIsCheaper(ws: seq<Word>, cs: seq<Choice>, m: Margins, b: seq<nat>)
    requires AllBest(ws, cs, m) && IsLayout(ws, b) && Fitting(ws, m, b)
    ensures b[0] <= |ws| < |cs|
    ensures cs[b[0]].bestCost <= ReckonedCost(ws, cs, m, b)
    decreases |b|
  {
    hide ShortCost, RaggedCost, BaseCost, LineLength;
    if |b| > 1 {
      NoneIsCheaper(ws, cs, m, b[1..]);
      assert Best(ws, cs, m, b[0]);
      assert Admissible(ws, m, b[0], b[1]);
      assert BreakCost(ws, cs, m, b[0], b[1]) >= BreakCost(ws, cs, m, b[0], cs[b[0]].nextBreak);
    }
  }

  lemma {:induction false} NoCostBelow(ws: seq<Word>, cs: seq<Choice>, m: Margins, i: nat)
    requires AllBest(ws, cs, m) && i < |ws|
    ensures cs[i].bestCost >= 800
    decreases |ws| - i
  {
    hide LineLength, BaseCost;
    CostFalls(ws, cs, m, i);
    if cs[i].nextBreak < |ws| {
      NoCostBelow(ws, cs, m, cs[i].nextBreak);
    }
  }

  lemma EarlierBreakCosts(ws: seq<Word>, cs: seq<Choice>, m: Margins, i: nat, j: nat)
    requires AllBest(ws, cs, m) && i < j < |ws|
    ensures BreakCost(ws, cs, m, i, j) >= 800
  {
    hide LineLength, BaseCost, Best;
    NoCostBelow(ws, cs, m, j);
    var len := LineLength(ws, m, i, j);
    ShortCostNotNegative(m.goalWidth - len);
    ShortCostNotNegative(len - cs[j].lineLength);
    ShortCostNotNegative(len - m.lastLineLength);
  }

  lemma ShortCostNotNegative(n: int)
    ensures ShortCost(n) >= 0
  {
  }

  /** Words that fit on one line are put on one line; where they are compared with a line flushed
      before, that is certain if the two lengths differ by less than four. */
  lemma LastLineTaken(ws: seq<Word>, cs: seq<Choice>, m: Margins, i: nat)
    requires AllBest(ws, cs, m) && i < |ws| && Admissible(ws, m, i, |ws|)
    requires i > 0 || m.lastLineLength == 0 || -4 < LineLength(ws, m, i, |ws|) - m.lastLineLength < 4
    ensures cs[i].nextBreak == |ws|
  {
    hide LineLength, BaseCost, ShortCost;
    assert Best(ws, cs, m, i);
    var len := LineLength(ws, m, i, |ws|);
    assert BreakCost(ws, cs, m, i, |ws|) < 800 by {
      if i == 0 && m.lastLineLength > 0 {
        NearlySame(len - m.lastLineLength);
      }
    }
    if cs[i].nextBreak < |ws| {
      EarlierBreakCosts(ws, cs, m, i, cs[i].nextBreak);
    }
  }

  lemma NearlySame(n: int)
    requires -4 < n < 4
    ensures 0 <= RaggedCost(n) < 800
  {
    assert n == 0 || n == 1 || n == 2 || n == 3 || n == -1 || n == -2 || n == -3;
  }

  // ---------- what every layout costs ----------

  // What two adjacent lines cost for their difference: nothing, if the second is the last.
  function Raggedness(ws: seq<Word>, m: Margins, i: nat, j: nat, k: nat): int
    requires i < j < k <= |ws|
  {
    if k == |ws| then 0 else RaggedCost(LineLength(ws, m, i, j) - LineLength(ws, m, j, k))
  }

  // The cost of breaking before k in a paragraph that starts with j, behind a line from i.
  function CostBehind(ws: seq<Word>, cs: seq<Choice>, m: Margins, i: nat, j: nat, k: nat): int
    requires i < j < k <= |ws| < |cs|
  {
    Raggedness(ws, m, i, j, k) + BreakCost(ws, cs, m, j, k)
  }

  // What is lost by breaking before k instead of the recorded break, behind a line from i to j.
  function Loss(ws: seq<Word>, cs: seq<Choice>, m: Margins, i: nat, j: nat, k: nat): int
    requires i < j < k <= |ws| < |cs| && j < cs[j].nextBreak <= |ws|
  {
    CostBehind(ws, cs, m, i, j, k) - CostBehind(ws, cs, m, i, j, cs[j].nextBreak)
  }

  // What all lines of a layout but the first lose.
  ghost function Losses(ws: seq<Word>, cs: seq<Choice>, m: Margins, b: seq<nat>): int
    requires AllBest(ws, cs, m) && IsLayout(ws, b)
    decreases |b|
  {
    if |b| <= 2 then 0
    else
      assert IsLayout(ws, b[1..]) && Best(ws, cs, m, b[1]);
      Loss(ws, cs, m, b[0], b[1], b[2]) + Losses(ws, cs, m, b[1..])
  }

  /** Exact accounting: any layout costs what the recorded one costs, and what its first line
      costs more than the recorded first line, and the losses of its other lines. */
  lemma {:induction false} CostOfLayout(ws: seq<Word>, cs: seq<Choice>, m: Margins, b: seq<nat>)
    requires AllBest(ws, cs, m) && IsLayout(ws, b) && |b| > 1
    ensures b[0] < b[1] <= |ws| < |cs| && b[0] < cs[b[0]].nextBreak <= |ws|
    ensures LayoutCost(ws, m, b) == cs[b[0]].bestCost + Losses(ws, cs, m, b)
                                    + BreakCost(ws, cs, m, b[0], b[1]) - BreakCost(ws, cs, m, b[0], cs[b[0]].nextBreak)
    decreases |b|
  {
    hide ShortCost, RaggedCost, BaseCost, LineLength;
    assert Best(ws, cs, m, b[0]);
    assert IsLayout(ws, b[1..]);
    if |b| > 2 {
      CostOfLayout(ws, cs, m, b[1..]);
      assert Best(ws, cs, m, b[1]);
      assert |b| == 3 <==> b[2] == |ws| by {
        assert IsLayout(ws, b[1..][1..]);
      }
    } else {
      assert b[1..] == [|ws|];
    }
  }

  /** From word a on, no line loses by taking the recorded break, whichever line comes before. */
  ghost predicate Steady(ws: seq<Word>, cs: seq<Choice>, m: Margins, a: nat)
    requires AllBest(ws, cs, m)
  {
    forall i: nat, j: nat, k: nat :: a <= i && Admissible(ws, m, i, j) && Admissible(ws, m, j, k) ==>
      assert Best(ws, cs, m, j);
      Loss(ws, cs, m, i, j, k) >= 0
  }

  lemma {:induction false} NoLosses(ws: seq<Word>, cs: seq<Choice>, m: Margins, a: nat, b: seq<nat>)
    requires AllBest(ws, cs, m) && Steady(ws, cs, m, a) && IsLayout(ws, b) && Fitting(ws, m, b) && a <= b[0]
    ensures Losses(ws, cs, m, b) >= 0
    decreases |b|
  {
    hide Loss, LineLength;
    if |b| > 2 {
      NoLosses(ws, cs, m, a, b[1..]);
      assert Best(ws, cs, m, b[1]);
    }
  }

  /** Where that is so, the recorded cost is least among all layouts, of any number of lines. */
  lemma SteadyIsBest(ws: seq<Word>, cs: seq<Choice>, m: Margins, a: nat, b: seq<nat>)
    requires AllBest(ws, cs, m) && IsLayout(ws, b) && Fitting(ws, m, b) && Steady(ws, cs, m, b[0])
    ensures b[0] <= |ws| < |cs| && cs[b[0]].bestCost <= LayoutCost(ws, m, b)
  {
    hide Loss, LineLength, Steady, Losses, BreakCost, BaseCost;
    if |b| > 1 {
      CostOfLayout(ws, cs, m, b);
      NoLosses(ws, cs, m, b[0], b);
      assert Best(ws, cs, m, b[0]) && Admissible(ws, m, b[0], b[1]);
    }
  }

  /** From word a on, behind every admissible line, no layout of the rest is cheaper than the
      recorded one. */
  ghost predicate CheapestBehind(ws: seq<Word>, cs: seq<Choice>, m: Margins, a: nat)
    requires AllBest(ws, cs, m)
  {
    forall i: nat, j: nat, b: seq<nat> :: a <= i && Admissible(ws, m, i, j) && RestFits(ws, m, j, b) ==>
      NoCheaperBehind(ws, cs, m, i, j, b)
  }

  ghost predicate RestFits(ws: seq<Word>, m: Margins, j: nat, b: seq<nat>) {
    IsLayout(ws, b) && |b| > 1 && b[0] == j && Fitting(ws, m, b)
  }

  ghost predicate NoCheaperBehind(ws: seq<Word>, cs: seq<Choice>, m: Margins, i: nat, j: nat, b: seq<nat>)
    requires AllBest(ws, cs, m) && i < j && RestFits(ws, m, j, b)
  {
    assert Best(ws, cs, m, j);
    Raggedness(ws, m, i, j, b[1]) + LayoutCost(ws, m, b) >= Raggedness(ws, m, i, j, cs[j].nextBreak) + cs[j].bestCost
  }

  // How much dearer a layout of the rest is behind a line.
  lemma {:induction false} ExcessBehind(ws: seq<Word>, cs: seq<Choice>, m: Margins, i: nat, j: nat, b: seq<nat>)
    requires AllBest(ws, cs, m) && i < j && RestFits(ws, m, j, b)
    ensures j < cs[j].nextBreak <= |ws| && j < b[1] <= |ws|
    ensures Raggedness(ws, m, i, j, b[1]) + LayoutCost(ws, m, b)
            == Raggedness(ws, m, i, j, cs[j].nextBreak) + cs[j].bestCost + Loss(ws, cs, m, i, j, b[1]) + Losses(ws, cs, m, b)
  {
    hide LineLength, Losses, BreakCost, Raggedness;
    CostOfLayout(ws, cs, m, b);
  }

  // The recorded layout of the rest, once its first line goes up to k instead.
  lemma {:induction false} Deviation(ws: seq<Word>, cs: seq<Choice>, m: Margins, j: nat, k: nat)
    requires AllBest(ws, cs, m) && Admissible(ws, m, j, k)
    ensures RestFits(ws, m, j, [j] + Chain(ws, cs, m, k)) && Chain(ws, cs, m, k)[0] == k
    ensures Losses(ws, cs, m, [j] + Chain(ws, cs, m, k)) == 0
  {
    hide LineLength, BreakCost;
    var r := Chain(ws, cs, m, k);
    ChainIsLayout(ws, cs, m, k);
    assert ([j] + r)[1..] == r;
    ChainLosesNothing(ws, cs, m, j, k);
  }

  lemma {:induction false} ChainLosesNothing(ws: seq<Word>, cs: seq<Choice>, m: Margins, j: nat, k: nat)
    requires AllBest(ws, cs, m) && j < k <= |ws|
    ensures IsLayout(ws, [j] + Chain(ws, cs, m, k)) && Losses(ws, cs, m, [j] + Chain(ws, cs, m, k)) == 0
    decreases |ws| - k
  {
    hide LineLength, BreakCost, Raggedness;
    var r := Chain(ws, cs, m, k);
    ChainIsLayout(ws, cs, m, k);
    assert ([j] + r)[1..] == r;
    if k < |ws| {
      assert Best(ws, cs, m, k);
      ChainLosesNothing(ws, cs, m, k, cs[k].nextBreak);
    }
  }

  /** The condition is exact: it holds if and only if, behind every admissible line, the recorded
      layout of the rest is the cheapest. */
  lemma {:induction false} SteadyExactly(ws: seq<Word>, cs: seq<Choice>, m: Margins, a: nat)
    requires AllBest(ws, cs, m)
    ensures Steady(ws, cs, m, a) <==> CheapestBehind(ws, cs, m, a)
  {
    hide LineLength, BreakCost, Raggedness, Losses, Loss, Fitting, IsLayout, BaseCost, Best;
    if Steady(ws, cs, m, a) {
      forall i: nat, j: nat, b: seq<nat> | a <= i && Admissible(ws, m, i, j) && RestFits(ws, m, j, b)
        ensures NoCheaperBehind(ws, cs, m, i, j, b)
      {
        FirstFits(ws, m, j, b);
        ExcessBehind(ws, cs, m, i, j, b);
        NoLosses(ws, cs, m, a, b);
      }
    }
    if CheapestBehind(ws, cs, m, a) {
      forall i: nat, j: nat, k: nat | a <= i && Admissible(ws, m, i, j) && Admissible(ws, m, j, k)
        ensures j < cs[j].nextBreak <= |ws| && Loss(ws, cs, m, i, j, k) >= 0
      {
        Deviation(ws, cs, m, j, k);
        ExcessBehind(ws, cs, m, i, j, [j] + Chain(ws, cs, m, k));
        assert NoCheaperBehind(ws, cs, m, i, j, [j] + Chain(ws, cs, m, k));
      }
    }
  }

  lemma {:induction false} FirstFits(ws: seq<Word>, m: Margins, j: nat, b: seq<nat>)
    requires RestFits(ws, m, j, b)
    ensures |b| > 1 && Admissible(ws, m, j, b[1])
  {
  }

  // ---------- an exact test ----------

  /** The least that the lines behind the one from i to j can lose in all, over all layouts of the
      words from j on; LeastFrom, if the first of them ends at k or later. */
  ghost function LeastLosses(ws: seq<Word>, cs: seq<Choice>, m: Margins, i: nat, j: nat): int
    requires AllBest(ws, cs, m) && i < j <= |ws|
    decreases |ws| - j, 1, 0
  {
    if j == |ws| then 0 else LeastFrom(ws, cs, m, i, j, j + 1)
  }

  ghost function LeastFrom(ws: seq<Word>, cs: seq<Choice>, m: Margins, i: nat, j: nat, k: nat): int
    requires AllBest(ws, cs, m) && i < j && Admissible(ws, m, j, k)
    decreases |ws| - j, 0, |ws| - k
  {
    assert Best(ws, cs, m, j);
    var here := Loss(ws, cs, m, i, j, k) + LeastLosses(ws, cs, m, j, k);
    if !Admissible(ws, m, j, k + 1) then here
    else
      var later := LeastFrom(ws, cs, m, i, j, k + 1);
      if here <= later then here else later
  }

  lemma {:induction false} LeastFromIsLeast(ws: seq<Word>, cs: seq<Choice>, m: Margins, i: nat, j: nat, k: nat, l: nat)
    requires AllBest(ws, cs, m) && i < j < k <= l && Admissible(ws, m, j, k) && Admissible(ws, m, j, l)
    ensures j < cs[j].nextBreak <= |ws| < |cs|
    ensures LeastFrom(ws, cs, m, i, j, k) <= Loss(ws, cs, m, i, j, l) + LeastLosses(ws, cs, m, j, l)
    decreases l - k
  {
    hide LineLength, Loss;
    assert Best(ws, cs, m, j);
    if k < l {
      AdmissibleBefore(ws, m, j, k + 1, l);
      LeastFromIsLeast(ws, cs, m, i, j, k + 1, l);
    }
  }

  lemma {:induction false} AdmissibleBefore(ws: seq<Word>, m: Margins, j: nat, k: nat, l: nat)
    requires j < k <= l && Admissible(ws, m, j, l)
    ensures Admissible(ws, m, j, k)
  {
    LineLengthGrows(ws, m, j, k, l);
  }

  lemma {:induction false} LossesAreLeast(ws: seq<Word>, cs: seq<Choice>, m: Margins, b: seq<nat>)
    requires AllBest(ws, cs, m) && IsLayout(ws, b) && Fitting(ws, m, b) && |b| > 1
    ensures b[0] < b[1] <= |ws| && LeastLosses(ws, cs, m, b[0], b[1]) <= Losses(ws, cs, m, b)
    decreases |b|
  {
    hide LineLength, Loss, LeastFrom, LeastLosses;
    if |b| > 2 {
      LossesAreLeast(ws, cs, m, b[1..]);
      assert Fitting(ws, m, b[1..]) && Admissible(ws, m, b[1], b[2]);
      LeastFromIsLeast(ws, cs, m, b[0], b[1], b[1] + 1, b[2]);
      LeastStart(ws, cs, m, b[0], b[1]);
    } else {
      LeastStart(ws, cs, m, b[0], b[1]);
    }
  }

  lemma LeastStart(ws: seq<Word>, cs: seq<Choice>, m: Margins, i: nat, j: nat)
    requires AllBest(ws, cs, m) && i < j <= |ws|
    ensures LeastLosses(ws, cs, m, i, j) == if j == |ws| then 0 else LeastFrom(ws, cs, m, i, j, j + 1)
  {
  }

  // There is a layout that loses no more.
  lemma {:induction false} LeastLayout(ws: seq<Word>, cs: seq<Choice>, m: Margins, i: nat, j: nat) returns (b: seq<nat>)
    requires AllBest(ws, cs, m) && Admissible(ws, m, i, j)
    ensures |b| > 1 && b[0] == i && b[1] == j && IsLayout(ws, b) && Fitting(ws, m, b)
    ensures Losses(ws, cs, m, b) == LeastLosses(ws, cs, m, i, j)
    decreases |ws| - j, 1, 0
  {
    hide LineLength, Loss, LeastFrom;
    if j == |ws| {
      b := [i, j];
      assert b[1..] == [j];
    } else {
      b := LeastLayoutFrom(ws, cs, m, i, j, j + 1);
    }
  }

  lemma {:induction false} LeastLayoutFrom(ws: seq<Word>, cs: seq<Choice>, m: Margins, i: nat, j: nat, k: nat)
    returns (b: seq<nat>)
    requires AllBest(ws, cs, m) && Admissible(ws, m, i, j) && Admissible(ws, m, j, k)
    ensures |b| > 1 && b[0] == i && b[1] == j && IsLayout(ws, b) && Fitting(ws, m, b)
    ensures Losses(ws, cs, m, b) == LeastFrom(ws, cs, m, i, j, k)
    decreases |ws| - j, 0, |ws| - k
  {
    hide LineLength, Loss, LeastLosses;
    assert Best(ws, cs, m, j);
    var r := LeastLayout(ws, cs, m, j, k);
    b := [i] + r;
    assert b[1..] == r;
    if Admissible(ws, m, j, k + 1) {
      var later := LeastLayoutFrom(ws, cs, m, i, j, k + 1);
      b := if Losses(ws, cs, m, b) <= Losses(ws, cs, m, later) then b else later;
    }
  }

  // The recorded layout of the words from a on is the cheapest.
  ghost predicate Cheapest(ws: seq<Word>, cs: seq<Choice>, m: Margins, a: nat)
    requires AllBest(ws, cs, m) && a < |ws|
  {
    forall b: seq<nat> :: RestFits(ws, m, a, b) ==> cs[a].bestCost <= LayoutCost(ws, m, b)
  }

  /** For every first line, what it costs more than the recorded one outweighs what can be
      gained by the lines behind it. */
  ghost predicate NothingToGain(ws: seq<Word>, cs: seq<Choice>, m: Margins, a: nat)
    requires AllBest(ws, cs, m) && a < |ws|
  {
    forall k: nat :: Admissible(ws, m, a, k) ==> Outweighs(ws, cs, m, a, k)
  }

  ghost predicate Outweighs(ws: seq<Word>, cs: seq<Choice>, m: Margins, a: nat, k: nat)
    requires AllBest(ws, cs, m) && a < k <= |ws|
  {
    assert Best(ws, cs, m, a);
    BreakCost(ws, cs, m, a, k) + LeastLosses(ws, cs, m, a, k) >= BreakCost(ws, cs, m, a, cs[a].nextBreak)
  }

  /** The recorded layout is cheapest among all layouts if and only if this test succeeds, which
      looks at pairs of adjacent lines, not at layouts. */
  lemma {:induction false} CheapestExactly(ws: seq<Word>, cs: seq<Choice>, m: Margins, a: nat)
    requires AllBest(ws, cs, m) && a < |ws|
    ensures Cheapest(ws, cs, m, a) <==> NothingToGain(ws, cs, m, a)
  {
    hide LineLength, BreakCost, Losses, LeastLosses, Fitting, IsLayout, BaseCost, LayoutCost, Best;
    if NothingToGain(ws, cs, m, a) {
      forall b: seq<nat> | RestFits(ws, m, a, b)
        ensures cs[a].bestCost <= LayoutCost(ws, m, b)
      {
        FirstFits(ws, m, a, b);
        CostOfLayout(ws, cs, m, b);
        LossesAreLeast(ws, cs, m, b);
        assert Outweighs(ws, cs, m, a, b[1]);
      }
    }
    if Cheapest(ws, cs, m, a) {
      forall k: nat | Admissible(ws, m, a, k)
        ensures Outweighs(ws, cs, m, a, k)
      {
        var b := LeastLayout(ws, cs, m, a, k);
        CostOfLayout(ws, cs, m, b);
      }
    }
  }

  // ---------- what can be seen beforehand ----------

  /** Behind word a, wherever a line may start, all the words from there on fit on it, or not
      even two. */
  predicate Settled(ws: seq<Word>, m: Margins, a: nat) {
    forall j :: a < j < |ws| ==> Admissible(ws, m, j, |ws|) || !Admissible(ws, m, j, j + 2)
  }

  lemma {:induction false} SettledIsSteady(ws: seq<Word>, cs: seq<Choice>, m: Margins, a: nat)
    requires AllBest(ws, cs, m) && Settled(ws, m, a)
    ensures Steady(ws, cs, m, a)
  {
    hide LineLength, BaseCost, ShortCost, RaggedCost;
    forall i: nat, j: nat, k: nat | a <= i && Admissible(ws, m, i, j) && Admissible(ws, m, j, k)
      ensures j < cs[j].nextBreak <= |ws| && Loss(ws, cs, m, i, j, k) >= 0
    {
      assert Best(ws, cs, m, j);
      if Admissible(ws, m, j, |ws|) {
        LastLineTaken(ws, cs, m, j);
        CostNotNegative(ws, cs, m, i, j, k);
      } else {
        OneWordOnly(ws, m, j, k);
        OneWordOnly(ws, m, j, cs[j].nextBreak);
      }
    }
  }

  lemma CostNotNegative(ws: seq<Word>, cs: seq<Choice>, m: Margins, i: nat, j: nat, k: nat)
    requires AllBest(ws, cs, m) && i < j < k <= |ws|
    ensures k < |cs| && CostBehind(ws, cs, m, i, j, k) >= 0
  {
    hide LineLength, BaseCost, Best;
    if k < |ws| {
      EarlierBreakCosts(ws, cs, m, j, k);
      ShortCostNotNegative(LineLength(ws, m, i, j) - LineLength(ws, m, j, k));
    }
  }

  lemma {:induction false} OneWordOnly(ws: seq<Word>, m: Margins, j: nat, k: nat)
    requires Admissible(ws, m, j, k) && !Admissible(ws, m, j, j + 2)
    ensures k == j + 1
  {
    if k > j + 1 {
      LineLengthGrows(ws, m, j, j + 2, k);
    }
  }

  /** A condition on the words and margins alone under which no layout at all is cheaper than the
      recorded one. */
  lemma SettledIsBest(ws: seq<Word>, cs: seq<Choice>, m: Margins, b: seq<nat>)
    requires AllBest(ws, cs, m) && IsLayout(ws, b) && Fitting(ws, m, b) && Settled(ws, m, b[0])
    ensures b[0] <= |ws| < |cs| && cs[b[0]].bestCost <= LayoutCost(ws, m, b)
  {
    SettledIsSteady(ws, cs, m, b[0]);
    SteadyIsBest(ws, cs, m, b[0], b);
  }

  /** In particular where all words but the first fit on one line. */
  lemma RestOnOneLineIsBest(ws: seq<Word>, cs: seq<Choice>, m: Margins, b: seq<nat>)
    requires AllBest(ws, cs, m) && IsLayout(ws, b) && Fitting(ws, m, b) && Admissible(ws, m, b[0] + 1, |ws|)
    ensures b[0] <= |ws| < |cs| && cs[b[0]].bestCost <= LayoutCost(ws, m, b)
  {
    forall j | b[0] < j < |ws|
      ensures Admissible(ws, m, j, |ws|)
    {
      LaterStart(ws, m, b[0] + 1, j, |ws|);
    }
    SettledIsBest(ws, cs, m, b);
  }

  lemma {:induction false} LaterStart(ws: seq<Word>, m: Margins, i: nat, j: nat, k: nat)
    requires 0 < i <= j < k <= |ws|
    ensures LineLength(ws, m, j, k) <= LineLength(ws, m, i, k)
    decreases k
  {
    if j + 1 < k {
      LaterStart(ws, m, i, j, k - 1);
    } else if i < j {
      LineLengthGrows(ws, m, i, i + 1, j);
    }
  }

  /** Among all layouts of at most two lines none is cheaper, whatever the paragraph. */
  lemma TwoLinesAreBest(ws: seq<Word>, cs: seq<Choice>, m: Margins, b: seq<nat>)
    requires AllBest(ws, cs, m) && IsLayout(ws, b) && Fitting(ws, m, b) && 2 <= |b| <= 3
    ensures b[0] <= |ws| < |cs|
    ensures cs[b[0]].bestCost <= LayoutCost(ws, m, b)
  {
    hide LineLength, BaseCost, ShortCost, RaggedCost;
    CostOfLayout(ws, cs, m, b);
    assert Best(ws, cs, m, b[0]) && Admissible(ws, m, b[0], b[1]);
    if |b| == 3 {
      assert IsLayout(ws, b[1..]) && Fitting(ws, m, b[1..]);
      assert b[2] == |ws| by {
        assert IsLayout(ws, b[1..][1..]);
      }
      LastLineTaken(ws, cs, m, b[1]);
    }
  }

  // Four words of 7, 1, 2 and 4 characters, the last with a full stop.
  function SampleWords(): seq<Word> {
    [Word(0, 7, 1, false, false, false, false), Word(7, 1, 1, false, false, false, false),
     Word(8, 2, 1, false, false, false, false), Word(10, 4, 2, false, true, true, true)]
  }

  function SampleChoices(): seq<Choice> {
    [Choice(7, 20_100, 1), Choice(1, 13_400, 2), Choice(7, 4_900, 4), Choice(4, 8_650, 4), Choice(0, 0, 0)]
  }

  const SAMPLE_MARGINS := Margins(8, 7, 0, 0, 0)

  lemma SampleBest()
    ensures AllBest(SampleWords(), SampleChoices(), SAMPLE_MARGINS)
    ensures |SampleChoices()| > 0 && SampleChoices()[0].nextBreak == 1 && SampleChoices()[0].bestCost == 20_100
  {
    var ws, cs, m := SampleWords(), SampleChoices(), SAMPLE_MARGINS;
    SampleLengths();
    hide LineLength;
    assert Best(ws, cs, m, 3);
    assert Best(ws, cs, m, 2);
    assert Best(ws, cs, m, 1);
    assert Best(ws, cs, m, 0);
  }

  /** Layouts of three lines may be cheaper: here the line recorded for the second word loses 300
      behind the first, because the choice is made without regard to the line before. */
  lemma ThreeLinesNeedNotBeBest()
    ensures var ws, cs, m, b := SampleWords(), SampleChoices(), SAMPLE_MARGINS, [0, 1, 3, 4];
            && AllBest(ws, cs, m) && IsLayout(ws, b) && Fitting(ws, m, b)
            && LayoutCost(ws, m, b) == 19_800 < cs[0].bestCost && Losses(ws, cs, m, b) == -300
            && !Settled(ws, m, 0) && !Cheapest(ws, cs, m, 0)
  {
    hide *;
    SampleBest();
    SampleLayout();
    SampleCost();
    CostOfLayout(SampleWords(), SampleChoices(), SAMPLE_MARGINS, [0, 1, 3, 4]);
    LayoutBeats(SampleWords(), SampleChoices(), SAMPLE_MARGINS, 0, [0, 1, 3, 4]);
  }

  lemma LayoutBeats(ws: seq<Word>, cs: seq<Choice>, m: Margins, a: nat, b: seq<nat>)
    requires AllBest(ws, cs, m) && RestFits(ws, m, a, b) && LayoutCost(ws, m, b) < cs[a].bestCost
    ensures a < |ws| && !Cheapest(ws, cs, m, a) && !Settled(ws, m, a)
  {
    if Settled(ws, m, a) {
      SettledIsBest(ws, cs, m, b);
    }
  }

  lemma SampleLayout()
    ensures RestFits(SampleWords(), SAMPLE_MARGINS, 0, [0, 1, 3, 4])
    ensures Fitting(SampleWords(), SAMPLE_MARGINS, [0, 1, 3, 4])
  {
    var b: seq<nat> := [0, 1, 3, 4];
    SampleLengths();
    hide LineLength;
    assert b[1..] == [1, 3, 4] && b[1..][1..] == [3, 4] && b[1..][1..][1..] == [4];
  }

  lemma SampleCost()
    ensures IsLayout(SampleWords(), [0, 1, 3, 4])
    ensures LayoutCost(SampleWords(), SAMPLE_MARGINS, [0, 1, 3, 4]) == 19_800
  {
    var ws, m := SampleWords(), SAMPLE_MARGINS;
    SampleLengths();
    hide LineLength;
    assert LineTerm(ws, m, 3, 4, true, 0) == 8_650;
    assert LineTerm(ws, m, 1, 3, true, 4) == 5_800;
    assert LineTerm(ws, m, 0, 1, false, 4) == 5_350;
    SampleLayout();
    hide LineTerm, SampleWords;
    CostOfThree(ws, m, 0, 1, 3, 4);
  }

  lemma CostOfThree(ws: seq<Word>, m: Margins, i: nat, j: nat, k: nat, l: nat)
    requires IsLayout(ws, [i, j, k, l])
    ensures i < j < k < l <= |ws|
    ensures LayoutCost(ws, m, [i, j, k, l])
            == LineTerm(ws, m, i, j, false, LineLength(ws, m, j, k)) + LineTerm(ws, m, j, k, true, LineLength(ws, m, k, l))
               + LineTerm(ws, m, k, l, true, 0)
  {
    hide LineLength, LineTerm;
    assert [i, j, k, l][1..] == [j, k, l] && [j, k, l][1..] == [k, l] && [k, l][1..] == [l];
    assert IsLayout(ws, [j, k, l]) && IsLayout(ws, [k, l]) && IsLayout(ws, [l]);
    assert LayoutCost(ws, m, [k, l]) == LineTerm(ws, m, k, l, true, 0);
    assert LayoutCost(ws, m, [j, k, l]) == LineTerm(ws, m, j, k, true, LineLength(ws, m, k, l)) + LayoutCost(ws, m, [k, l]);
  }

  lemma SampleLengths()
    ensures var ws, m := SampleWords(), SAMPLE_MARGINS;
            && LineLength(ws, m, 0, 1) == 7 && LineLength(ws, m, 0, 2) == 9
            && LineLength(ws, m, 0, 3) == 12 && LineLength(ws, m, 0, 4) == 17
            && LineLength(ws, m, 1, 2) == 1 && LineLength(ws, m, 1, 3) == 4 && LineLength(ws, m, 1, 4) == 9
            && LineLength(ws, m, 2, 3) == 2 && LineLength(ws, m, 2, 4) == 7
            && LineLength(ws, m, 3, 4) == 4
  {
  }
}
