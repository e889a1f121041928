/** The buffers of fmt: reading words into them (get_line), and making room by printing a
    part of the paragraph and moving the rest down (flush_paragraph). */
module FmtParagraph {
  import opened FmtSpec
  import opened FmtOutput
  import opened FmtLayout
  import FmtChoice

  const DEF_INDENT: nat := 3
  const LINE_CREDIT: int := 9

  datatype Read = Eof | Got(c: char)

  // Word k directly precedes the next one, or the end of the words.
  ghost predicate Follows(ws: seq<Word>, end: nat, k: nat)
    requires k < |ws|
  {
    && ws[k].length > 0
    && ws[k].text + ws[k].length == (if k + 1 < |ws| then ws[k + 1].text else end)
    && (k == 0 ==> ws[k].text == 0)
  }

  /** The words fill the buffer up to end, without gaps. */
  ghost predicate Filled(ws: seq<Word>, end: nat) {
    && (ws == [] ==> end == 0)
    && forall k: nat :: k < |ws| ==> Follows(ws, end, k)
  }

  lemma {:induction false} FilledUpTo(ws: seq<Word>, end: nat, k: nat)
    requires Filled(ws, end) && k < |ws|
    ensures ws[k].text >= k && ws[k].text + ws[k].length + (|ws| - k - 1) <= end
    decreases |ws| - k
  {
    assert Follows(ws, end, k);
    if k + 1 < |ws| {
      FilledUpTo(ws, end, k + 1);
      assert Follows(ws, end, k + 1);
    }
    FilledFrom(ws, end, k);
  }

  lemma {:induction false} FilledFrom(ws: seq<Word>, end: nat, k: nat)
    requires Filled(ws, end) && k < |ws|
    ensures ws[k].text >= k
  {
    assert Follows(ws, end, k);
    if k > 0 {
      FilledFrom(ws, end, k - 1);
      assert Follows(ws, end, k - 1);
    }
  }

  lemma {:induction false} FilledInBuffer(ws: seq<Word>, end: nat, buf: seq<char>, limit: nat)
    requires Filled(ws, end) && end <= limit <= |buf| && NoBlank(buf[..limit])
    ensures InBuffer(buf, ws)
  {
    forall k: nat | k < |ws|
      ensures WordAt(buf, ws, k)
    {
      FilledUpTo(ws, end, k);
      assert Follows(ws, end, k);
      assert forall i :: 0 <= i < ws[k].length ==> Text(buf, ws[k])[i] == buf[..limit][ws[k].text + i];
    }
  }

  lemma {:induction false} FilledSnoc(ws: seq<Word>, w: Word, end: nat)
    requires Filled(ws, w.text) && w.length > 0 && w.text + w.length == end
    ensures Filled(ws + [w], end)
  {
    forall k: nat | k < |ws| + 1
      ensures Follows(ws + [w], end, k)
    {
      if k < |ws| {
        assert Follows(ws, w.text, k);
      }
    }
  }

  // The word, with its text moved down.
  function Moved(w: Word, shift: nat): Word
    requires shift <= w.text
  {
    w.(text := w.text - shift)
  }

  ghost predicate IsMoved(ws: seq<Word>, vs: seq<Word>, split: nat, shift: nat, k: nat)
    requires k < |vs| && split + k < |ws|
  {
    shift <= ws[split + k].text && vs[k] == Moved(ws[split + k], shift)
  }

  // The words of ws from split on, moved down.
  ghost predicate MovedDown(ws: seq<Word>, vs: seq<Word>, split: nat, shift: nat) {
    && split <= |ws| && |vs| == |ws| - split
    && forall k: nat {:trigger IsMoved(ws, vs, split, shift, k)} :: k < |vs| ==> IsMoved(ws, vs, split, shift, k)
  }

  lemma {:induction false} FilledMoved(ws: seq<Word>, end: nat, vs: seq<Word>, split: nat, shift: nat)
    requires Filled(ws, end) && MovedDown(ws, vs, split, shift) && 0 < split
    requires shift == (if split < |ws| then ws[split].text else end)
    ensures shift <= end && Filled(vs, end - shift)
  {
    if split < |ws| {
      FilledUpTo(ws, end, split);
    }
    var e := end - shift;
    forall k: nat | k < |vs|
      ensures Follows(vs, e, k)
    {
      assert Follows(ws, end, split + k);
      assert IsMoved(ws, vs, split, shift, k);
      if k + 1 < |vs| {
        assert IsMoved(ws, vs, split, shift, k + 1);
      }
    }
  }

  /** The drop in cost over the line that starts at b[k], each line further on being credited
      with LINE_CREDIT. */
  function Credited(cs: seq<Choice>, b: seq<nat>, k: nat): int {
    if k < |b| && b[k] < |cs| && cs[b[k]].nextBreak < |cs|
    then cs[b[k]].bestCost - cs[cs[b[k]].nextBreak].bestCost - k * LINE_CREDIT
    else 0
  }

  /** Among the breaks b[1..n] the one at s is the first of those with the least credited drop. */
  ghost predicate GoodSplit(cs: seq<Choice>, b: seq<nat>, n: nat, s: nat) {
    && 1 <= s < n <= |b|
    && forall k: nat :: 1 <= k < n ==>
         Credited(cs, b, s) <= Credited(cs, b, k) && (k < s ==> Credited(cs, b, s) < Credited(cs, b, k))
  }

  ghost predicate SplitsWell(cs: seq<Choice>, b: seq<nat>, split: nat) {
    exists s: nat :: s < |b| && split == b[s] && GoodSplit(cs, b, |b| - 1, s)
  }

  // The drop in cost over the line that starts at b[k].
  function Drop(cs: seq<Choice>, b: seq<nat>, k: nat): int
    requires k + 1 < |b| && b[k] < |cs| && b[k + 1] < |cs|
  {
    cs[b[k]].bestCost - cs[b[k + 1]].bestCost
  }

  /** A split point against the other breaks: the drop at one behind it is greater by at least 9
      for every line from here to there, and the one at a break before it is less by less than that. */
  lemma SplitMeans(cs: seq<Choice>, b: seq<nat>, s: nat, k: nat)
    requires b != [] && Path(cs, b, b[|b| - 1]) && (forall i :: 0 <= i < |b| ==> b[i] < |cs|)
    requires GoodSplit(cs, b, |b| - 1, s) && 1 <= k < |b| - 1
    ensures k > s ==> Drop(cs, b, k) >= Drop(cs, b, s) + 9 * (k - s)
    ensures k < s ==> Drop(cs, b, s) < Drop(cs, b, k) + 9 * (s - k)
  {
    assert Recorded(cs, b, k) && Recorded(cs, b, s);
    assert Credited(cs, b, k) == Drop(cs, b, k) - 9 * k && Credited(cs, b, s) == Drop(cs, b, s) - 9 * s;
    assert Credited(cs, b, s) <= Credited(cs, b, k) && (k < s ==> Credited(cs, b, s) < Credited(cs, b, k));
  }

  // b leads along the recorded breaks from word 0 to w.
  ghost predicate Path(cs: seq<Choice>, b: seq<nat>, w: nat) {
    && b != [] && b[0] == 0 && b[|b| - 1] == w
    && forall k: nat :: k + 1 < |b| ==> Recorded(cs, b, k)
  }

  ghost predicate Recorded(cs: seq<Choice>, b: seq<nat>, k: nat) {
    k + 1 < |b| && b[k] < |cs| && b[k + 1] == cs[b[k]].nextBreak
  }

  // The search for a split point has come to w.
  ghost predicate Splitting(cs: seq<Choice>, b: seq<nat>, s: nat, w: nat, limit: nat, split: nat, best: int) {
    && Path(cs, b, w) && 2 <= |b| <= w + 1
    && if |b| == 2 then split == limit && best == MAXCOST
       else
         && GoodSplit(cs, b, |b| - 1, s) && split == b[s]
         && best == Credited(cs, b, s) + (|b| - 1) * LINE_CREDIT
         && best <= MAXWORDS * MAXLINECOST + (|b| - 1) * LINE_CREDIT
  }

  lemma {:induction false} SplitNext(cs: seq<Choice>, b: seq<nat>, s: nat, w: nat, limit: nat, split: nat, best: int, drop: int)
    requires Splitting(cs, b, s, w, limit, split, best) && w < |cs| && w < cs[w].nextBreak < |cs| && w <= MAXWORDS
    requires drop == cs[w].bestCost - cs[cs[w].nextBreak].bestCost <= MAXWORDS * MAXLINECOST
    ensures (if drop < best then drop else best) <= MAXCOST - LINE_CREDIT
    ensures Splitting(cs, b + [cs[w].nextBreak], if drop < best then |b| - 1 else s, cs[w].nextBreak, limit,
                      if drop < best then w else split, (if drop < best then drop else best) + LINE_CREDIT)
  {
    var c := b + [cs[w].nextBreak];
    assert Path(cs, c, cs[w].nextBreak) by {
      forall k: nat | k + 1 < |c|
        ensures Recorded(cs, c, k)
      {
        if k + 1 < |b| {
          assert Recorded(cs, b, k);
        }
      }
    }
    assert Credited(cs, c, |b| - 1) == drop - (|b| - 1) * LINE_CREDIT;
    assert forall k: nat :: k < |b| ==> Credited(cs, c, k) == Credited(cs, b, k);
  }

  lemma {:induction false} SplitStart(cs: seq<Choice>, limit: nat)
    requires cs != [] && cs[0].nextBreak > 0
    ensures Splitting(cs, [0, cs[0].nextBreak], 0, cs[0].nextBreak, limit, limit, MAXCOST)
  {
  }

  lemma {:induction false} SplitEnd(cs: seq<Choice>, b: seq<nat>, s: nat, w: nat, limit: nat, split: nat, best: int)
    requires Splitting(cs, b, s, w, limit, split, best)
    ensures Path(cs, b, w) && |b| >= 2
    ensures if |b| == 2 then split == limit else SplitsWell(cs, b, split)
  {
  }

  /** The choice of a split point: the last break, if there is but one line. */
  method ChooseSplit(choice: array<Choice>, limit: nat, ghost ws: seq<Word>, ghost m: Margins)
    returns (split: nat, ghost b: seq<nat>)
    requires |ws| == limit && 0 < limit <= MAXWORDS && FmtChoice.Recorded(ws, choice[..], m, 0) && AllBest(ws, choice[..], m)
    ensures 0 < split <= limit && split in Chain(ws, choice[..], m, 0)
    ensures Path(choice[..], b, limit) && |b| >= 2
    ensures if |b| == 2 then split == limit else SplitsWell(choice[..], b, split)
  {
    hide *;
    ghost var cs := choice[..];
    AllBestLength(ws, cs, m);
    split := limit;
    var bestBreak := MAXCOST;
    ChainEnds(ws, cs, m, 0);
    ChainNext(ws, cs, m, 0, limit);
    ChainOn(ws, cs, m, 0, 0);
    var w := choice[0].nextBreak;
    b := [0, w];
    ghost var s: nat := 0;
    SplitStart(cs, limit);
    while w != limit
      invariant 0 < w <= limit && limit in Chain(ws, cs, m, w) && w in Chain(ws, cs, m, 0)
      invariant Splitting(cs, b, s, w, limit, split, bestBreak)
      invariant 0 < split <= limit && split in Chain(ws, cs, m, 0)
      decreases limit - w
    {
      ChainNext(ws, cs, m, w, limit);
      ChainOn(ws, cs, m, 0, w);
      DropBound(ws, cs, m, w);
      var drop := choice[w].bestCost - choice[choice[w].nextBreak].bestCost;
      SplitNext(cs, b, s, w, limit, split, bestBreak, drop);
      if drop < bestBreak {
        split := w;
        bestBreak := drop;
        s := |b| - 1;
      }
      if bestBreak <= MAXCOST - LINE_CREDIT {
        bestBreak := bestBreak + LINE_CREDIT;
      }
      b := b + [choice[w].nextBreak];
      w := choice[w].nextBreak;
    }
    SplitEnd(cs, b, s, w, limit, split, bestBreak);
  }

  lemma {:induction false} ChainEnds(ws: seq<Word>, cs: seq<Choice>, m: Margins, i: nat)
    requires AllBest(ws, cs, m) && i <= |ws|
    ensures |ws| in Chain(ws, cs, m, i)
    decreases |ws| - i
  {
    hide BreakCost, LineLength, BaseCost;
    if i < |ws| {
      assert Best(ws, cs, m, i);
      ChainEnds(ws, cs, m, cs[i].nextBreak);
    }
  }

  lemma {:induction false} ChainOn(ws: seq<Word>, cs: seq<Choice>, m: Margins, i: nat, x: nat)
    requires AllBest(ws, cs, m) && i <= |ws| && x in Chain(ws, cs, m, i) && x < |ws|
    ensures i <= x && cs[x].nextBreak in Chain(ws, cs, m, i)
    decreases |ws| - i
  {
    hide BreakCost, LineLength, BaseCost;
    if i < |ws| {
      assert Best(ws, cs, m, i);
      if x != i {
        ChainOn(ws, cs, m, cs[i].nextBreak, x);
      } else {
        ChainStart(ws, cs, m, cs[i].nextBreak);
      }
    }
  }

  lemma {:induction false} ChainStart(ws: seq<Word>, cs: seq<Choice>, m: Margins, i: nat)
    requires AllBest(ws, cs, m) && i <= |ws|
    ensures i in Chain(ws, cs, m, i)
  {
    assert Chain(ws, cs, m, i)[0] == i;
  }

  lemma {:induction false} DropBound(ws: seq<Word>, cs: seq<Choice>, m: Margins, w: nat)
    requires FmtChoice.Recorded(ws, cs, m, 0) && w < |ws| <= MAXWORDS
    ensures w < cs[w].nextBreak <= |ws|
    ensures cs[w].bestCost - cs[cs[w].nextBreak].bestCost <= MAXWORDS * MAXLINECOST
  {
    hide BreakCost, LineLength, BaseCost;
    assert Best(ws, cs, m, w) && FmtChoice.Affordable(cs[w], |ws| - w);
    if cs[w].nextBreak < |ws| {
      assert FmtChoice.Affordable(cs[cs[w].nextBreak], |ws| - cs[w].nextBreak);
    }
  }
}
