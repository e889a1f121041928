/** mergefps: the k-way merge of sorted files, driven by a permutation table that is
    kept in order by binary re-insertion. */
module KWayMerge {
  import opened StableSpec

  // The merge of all files, ties going to the file that comes first.
  function MergeAll(cmp: Order, fs: seq<seq<Line>>): seq<Line> {
    if fs == [] then [] else Merge(cmp, fs[0], MergeAll(cmp, fs[1..]))
  }

  function Flatten(fs: seq<seq<Line>>): seq<Line> {
    if fs == [] then [] else fs[0] + Flatten(fs[1..])
  }

  // Sorted files merge to the stable sort of their concatenation.
  lemma {:induction false} MergeAllStable(cmp: Order, fs: seq<seq<Line>>)
    requires TotalPreorder(cmp) && forall i :: 0 <= i < |fs| ==> Sorted(cmp, fs[i])
    ensures StableSortOf(cmp, Flatten(fs), MergeAll(cmp, fs))
  {
    if fs != [] {
      MergeAllStable(cmp, fs[1..]);
      MergeStable(cmp, fs[0], Flatten(fs[1..]), fs[0], MergeAll(cmp, fs[1..]));
    }
  }

  predicate Heads(fs: seq<seq<Line>>) { forall i :: 0 <= i < |fs| ==> fs[i] != [] }

  // A merge starts with the first line of some file.
  lemma {:induction false} MergeAllFirst(cmp: Order, fs: seq<seq<Line>>) returns (y: nat)
    requires fs != [] && Heads(fs)
    ensures y < |fs| && MergeAll(cmp, fs) != [] && MergeAll(cmp, fs)[0] == fs[y][0]
  {
    if |fs| == 1 {
      y := 0;
    } else {
      var k := MergeAllFirst(cmp, fs[1..]);
      y := if cmp(fs[0][0], MergeAll(cmp, fs[1..])[0]) <= 0 then 0 else k + 1;
    }
  }

  // The first line of file a goes out before that of file b.
  predicate Before(cmp: Order, x: Line, a: nat, y: Line, b: nat) {
    cmp(x, y) < 0 || (cmp(x, y) == 0 && a < b)
  }

  // Taking the least first line, lowest file first, is taking the first line of the merge.
  lemma {:induction false} MergeAllTake(cmp: Order, fs: seq<seq<Line>>, o: nat)
    requires TotalPreorder(cmp) && Heads(fs) && o < |fs|
    requires forall i :: 0 <= i < |fs| && i != o ==> Before(cmp, fs[o][0], o, fs[i][0], i)
    ensures MergeAll(cmp, fs) == [fs[o][0]] + MergeAll(cmp, fs[o := fs[o][1..]])
  {
    var fs' := fs[o := fs[o][1..]];
    if o == 0 {
      assert fs'[1..] == fs[1..];
      if |fs| > 1 {
        var y := MergeAllFirst(cmp, fs[1..]);
        assert Before(cmp, fs[0][0], 0, fs[y + 1][0], y + 1);
      }
    } else {
      forall i | 0 <= i < |fs[1..]| && i != o - 1
        ensures Before(cmp, fs[1..][o - 1][0], o - 1, fs[1..][i][0], i)
      {
        assert Before(cmp, fs[o][0], o, fs[i + 1][0], i + 1);
      }
      MergeAllTake(cmp, fs[1..], o - 1);
      assert fs'[1..] == fs[1..][o - 1 := fs[o][1..]] && fs'[0] == fs[0];
      assert Before(cmp, fs[o][0], o, fs[0][0], 0);
      Opposite(cmp, fs[o][0], fs[0][0]);
    }
  }

  function Without<T>(s: seq<T>, i: nat): (r: seq<T>)
    requires i < |s|
    ensures |r| == |s| - 1
    ensures forall k :: 0 <= k < |r| ==> r[k] == s[if k < i then k else k + 1]
  {
    s[..i] + s[i + 1..]
  }

  lemma {:induction false} MergeAllDrop(cmp: Order, fs: seq<seq<Line>>, o: nat)
    requires o < |fs| && fs[o] == []
    ensures MergeAll(cmp, Without(fs, o)) == MergeAll(cmp, fs)
  {
    if o == 0 {
      assert Without(fs, 0) == fs[1..];
    } else {
      MergeAllDrop(cmp, fs[1..], o - 1);
      assert Without(fs, o)[0] == fs[0] && Without(fs, o)[1..] == Without(fs[1..], o - 1);
    }
  }

  // ---------------------------------------------------------------- the ord table

  predicate Precedes(cmp: Order, cur: seq<Line>, a: nat, b: nat)
    requires a < |cur| && b < |cur|
  {
    Before(cmp, cur[a], a, cur[b], b)
  }

  // ord lists every file once.
  predicate Covers(ord: seq<nat>, n: nat) {
    && |ord| == n
    && (forall p :: 0 <= p < n ==> ord[p] < n)
    && (forall p, q :: 0 <= p < q < n ==> ord[p] != ord[q])
    && (forall x :: 0 <= x < n ==> x in ord)
  }

  // Files come in the order of their current lines, equal lines in the order of the files.
  predicate InOrder(cmp: Order, cur: seq<Line>, ord: seq<nat>)
    requires forall p :: 0 <= p < |ord| ==> ord[p] < |cur|
  {
    forall p, q :: 0 <= p < q < |ord| ==> Precedes(cmp, cur, ord[p], ord[q])
  }

  lemma PrecedesTransitive(cmp: Order, cur: seq<Line>, a: nat, b: nat, d: nat)
    requires TotalPreorder(cmp) && a < |cur| && b < |cur| && d < |cur|
    requires Precedes(cmp, cur, a, b) && Precedes(cmp, cur, b, d)
    ensures Precedes(cmp, cur, a, d)
  {
    Transitive(cmp, cur[a], cur[b], cur[d]);
    Opposite(cmp, cur[a], cur[b]);
    Opposite(cmp, cur[b], cur[d]);
    Opposite(cmp, cur[a], cur[d]);
  }

  // Pairs of files whose current lines are the wrong way round.
  ghost function Inversions(cmp: Order, cur: seq<Line>, ord: seq<nat>): set<(nat, nat)>
    requires forall p :: 0 <= p < |ord| ==> ord[p] < |cur|
  {
    set p, q | 0 <= p < q < |ord| && cmp(cur[ord[p]], cur[ord[q]]) > 0 :: (ord[p], ord[q])
  }

  function Swapped(ord: seq<nat>, i: nat): seq<nat>
    requires 0 < i < |ord|
  {
    ord[i - 1 := ord[i]][i := ord[i - 1]]
  }

  lemma SwapCovers(ord: seq<nat>, i: nat, n: nat)
    requires 0 < i < |ord| && Covers(ord, n)
    ensures Covers(Swapped(ord, i), n)
  {
    var s := Swapped(ord, i);
    forall x | 0 <= x < n
      ensures x in s
    {
      assert x in ord;
      var p :| 0 <= p < n && ord[p] == x;
      assert s[if p == i then i - 1 else if p == i - 1 then i else p] == x;
    }
  }

  function Across(i: nat, p: nat): nat
    requires 0 < i
  {
    if p == i then i - 1 else if p == i - 1 then i else p
  }

  lemma InversionAt(cmp: Order, cur: seq<Line>, ord: seq<nat>, p: nat, q: nat)
    requires forall p :: 0 <= p < |ord| ==> ord[p] < |cur|
    requires p < q < |ord| && cmp(cur[ord[p]], cur[ord[q]]) > 0
    ensures (ord[p], ord[q]) in Inversions(cmp, cur, ord)
  {
  }

  lemma InversionFrom(cmp: Order, cur: seq<Line>, ord: seq<nat>, ab: (nat, nat)) returns (p: nat, q: nat)
    requires forall p :: 0 <= p < |ord| ==> ord[p] < |cur|
    requires ab in Inversions(cmp, cur, ord)
    ensures p < q < |ord| && cmp(cur[ord[p]], cur[ord[q]]) > 0 && ab == (ord[p], ord[q])
  {
    p, q :| 0 <= p < q < |ord| && cmp(cur[ord[p]], cur[ord[q]]) > 0 && ab == (ord[p], ord[q]);
  }

  // An inversion left after a swap was there before, and is not the pair that was swapped.
  lemma InversionKept(cmp: Order, cur: seq<Line>, ord: seq<nat>, i: nat, ab: (nat, nat))
    requires TotalPreorder(cmp) && Covers(ord, |cur|) && 0 < i < |ord|
    requires cmp(cur[ord[i - 1]], cur[ord[i]]) > 0
    requires Covers(Swapped(ord, i), |cur|) && ab in Inversions(cmp, cur, Swapped(ord, i))
    ensures ab in Inversions(cmp, cur, ord) && ab != (ord[i - 1], ord[i])
  {
    var s := Swapped(ord, i);
    Opposite(cmp, cur[ord[i - 1]], cur[ord[i]]);
    var p, q := InversionFrom(cmp, cur, s, ab);
    hide TotalPreorder, Inversions;
    assert s[p] == ord[Across(i, p)] && s[q] == ord[Across(i, q)];
    InversionAt(cmp, cur, ord, Across(i, p), Across(i, q));
  }

  // Swapping neighbours that are the wrong way round removes one inversion and adds none.
  lemma SwapRemovesInversion(cmp: Order, cur: seq<Line>, ord: seq<nat>, i: nat)
    requires TotalPreorder(cmp) && Covers(ord, |cur|) && 0 < i < |ord|
    requires cmp(cur[ord[i - 1]], cur[ord[i]]) > 0
    ensures Covers(Swapped(ord, i), |cur|)
    ensures Inversions(cmp, cur, Swapped(ord, i)) < Inversions(cmp, cur, ord)
  {
    SwapCovers(ord, i, |cur|);
    hide TotalPreorder, Inversions, Swapped;
    forall ab | ab in Inversions(cmp, cur, Swapped(ord, i))
      ensures ab in Inversions(cmp, cur, ord) && ab != (ord[i - 1], ord[i])
    {
      InversionKept(cmp, cur, ord, i, ab);
    }
    InversionAt(cmp, cur, ord, i - 1, i);
  }

  // Files with equal lines are in the order of the files.
  predicate Stable(cmp: Order, cur: seq<Line>, ord: seq<nat>)
    requires forall p :: 0 <= p < |ord| ==> ord[p] < |cur|
  {
    forall p, q :: 0 <= p < q < |ord| && cmp(cur[ord[p]], cur[ord[q]]) == 0 ==> ord[p] < ord[q]
  }

  lemma SwapStable(cmp: Order, cur: seq<Line>, ord: seq<nat>, i: nat)
    requires TotalPreorder(cmp) && Covers(ord, |cur|) && 0 < i < |ord|
    requires cmp(cur[ord[i - 1]], cur[ord[i]]) > 0 && Stable(cmp, cur, ord)
    ensures Covers(Swapped(ord, i), |cur|) && Stable(cmp, cur, Swapped(ord, i))
  {
    SwapCovers(ord, i, |cur|);
    var s := Swapped(ord, i);
    Opposite(cmp, cur[ord[i - 1]], cur[ord[i]]);
    hide TotalPreorder;
    forall p, q | 0 <= p < q < |s| && cmp(cur[s[p]], cur[s[q]]) == 0
      ensures s[p] < s[q]
    {
      assert s[p] == ord[Across(i, p)] && s[q] == ord[Across(i, q)];
    }
  }

  function Lines(cur: seq<Line>, ord: seq<nat>): (r: seq<Line>)
    requires forall p :: 0 <= p < |ord| ==> ord[p] < |cur|
    ensures |r| == |ord| && forall p :: 0 <= p < |ord| ==> r[p] == cur[ord[p]]
  {
    seq(|ord|, p requires 0 <= p < |ord| => cur[ord[p]])
  }

  // Neighbours in order and equal lines in order make the whole table in order.
  lemma NeighboursInOrder(cmp: Order, cur: seq<Line>, ord: seq<nat>)
    requires TotalPreorder(cmp) && Covers(ord, |cur|) && Stable(cmp, cur, ord)
    requires forall p :: 0 < p < |ord| ==> cmp(cur[ord[p - 1]], cur[ord[p]]) <= 0
    ensures InOrder(cmp, cur, ord)
  {
    var s := Lines(cur, ord);
    NeighboursAscending(cmp, s);
    AscendingSorted(cmp, s);
    hide TotalPreorder;
    forall p, q | 0 <= p < q < |ord|
      ensures Precedes(cmp, cur, ord[p], ord[q])
    {
      assert cmp(s[p], s[q]) <= 0;
    }
  }

  lemma {:induction false} NeighboursAscending(cmp: Order, s: seq<Line>)
    requires forall p :: 0 < p < |s| ==> cmp(s[p - 1], s[p]) <= 0
    ensures Ascending(cmp, s)
  {
    if |s| > 1 {
      assert cmp(s[1 - 1], s[1]) <= 0;
      forall p | 0 < p < |s[1..]|
        ensures cmp(s[1..][p - 1], s[1..][p]) <= 0
      {
        assert cmp(s[p + 1 - 1], s[p + 1]) <= 0;
      }
      NeighboursAscending(cmp, s[1..]);
    }
  }

  /** Set up the table: swap neighbours that are the wrong way round, starting over
      after each swap. */
  method SetUpOrd(cmp: Order, cur: seq<Line>) returns (ord: seq<nat>)
    requires TotalPreorder(cmp)
    ensures Covers(ord, |cur|) && InOrder(cmp, cur, ord)
  {
    ord := seq(|cur|, i => i);
    assert forall x :: 0 <= x < |cur| ==> ord[x] == x;
    assert forall x :: 0 <= x < |cur| ==> x in ord by {
      forall x | 0 <= x < |cur|
        ensures x in ord
      {
        assert ord[x] == x;
      }
    }
    var i := 1;
    while i < |cur|
      invariant 1 <= i && Covers(ord, |cur|) && Stable(cmp, cur, ord)
      invariant forall p :: 0 < p < i && p < |ord| ==> cmp(cur[ord[p - 1]], cur[ord[p]]) <= 0
      decreases Inversions(cmp, cur, ord), |cur| - i
    {
      if 0 < cmp(cur[ord[i - 1]], cur[ord[i]]) {
        SwapRemovesInversion(cmp, cur, ord, i);
        SwapStable(cmp, cur, ord, i);
        ord := Swapped(ord, i);
        i := 0;
      }
      i := i + 1;
    }
    NeighboursInOrder(cmp, cur, ord);
  }

  /** The current line of file ord[0] has changed: find its place among the others. */
  method Reinsert(cmp: Order, cur: seq<Line>, ord: seq<nat>) returns (ord': seq<nat>)
    requires TotalPreorder(cmp) && Covers(ord, |cur|) && ord != []
    requires InOrder(cmp, cur, ord[1..])
    ensures Covers(ord', |cur|) && InOrder(cmp, cur, ord')
  {
    var lo, hi := 1, |ord|;
    var probe, ord0 := lo, ord[0];
    while lo < hi
      invariant 1 <= lo <= hi <= |ord| && (lo < hi ==> lo <= probe < hi)
      invariant forall p :: 1 <= p < lo ==> Precedes(cmp, cur, ord[p], ord0)
      invariant forall p :: hi <= p < |ord| ==> Precedes(cmp, cur, ord0, ord[p])
    {
      var c := cmp(cur[ord0], cur[ord[probe]]);
      ProbeTells(cmp, cur, ord, probe);
      if c < 0 || (c == 0 && ord0 < ord[probe]) {
        hi := probe;
      } else {
        lo := probe + 1;
      }
      probe := (lo + hi) / 2;
    }
    ord' := Inserted(ord, lo);
    InsertedInOrder(cmp, cur, ord, lo);
  }

  lemma ProbeTells(cmp: Order, cur: seq<Line>, ord: seq<nat>, probe: nat)
    requires TotalPreorder(cmp) && Covers(ord, |cur|) && 1 <= probe < |ord| && InOrder(cmp, cur, ord[1..])
    ensures Precedes(cmp, cur, ord[0], ord[probe]) ==>
              forall p :: probe <= p < |ord| ==> Precedes(cmp, cur, ord[0], ord[p])
    ensures !Precedes(cmp, cur, ord[0], ord[probe]) ==>
              forall p :: 1 <= p <= probe ==> Precedes(cmp, cur, ord[p], ord[0])
  {
    Opposite(cmp, cur[ord[0]], cur[ord[probe]]);
    hide TotalPreorder;
    var rest := ord[1..];
    forall p | 1 <= p < |ord|
      ensures Precedes(cmp, cur, ord[0], ord[probe]) && probe <= p ==> Precedes(cmp, cur, ord[0], ord[p])
      ensures !Precedes(cmp, cur, ord[0], ord[probe]) && p <= probe ==> Precedes(cmp, cur, ord[p], ord[0])
    {
      assert rest[p - 1] == ord[p] && rest[probe - 1] == ord[probe];
      if p > probe && Precedes(cmp, cur, ord[0], ord[probe]) {
        assert Precedes(cmp, cur, rest[probe - 1], rest[p - 1]);
        PrecedesTransitive(cmp, cur, ord[0], ord[probe], ord[p]);
      }
      if p < probe && !Precedes(cmp, cur, ord[0], ord[probe]) {
        assert Precedes(cmp, cur, rest[p - 1], rest[probe - 1]);
        PrecedesTransitive(cmp, cur, ord[p], ord[probe], ord[0]);
      }
    }
  }

  function Inserted(ord: seq<nat>, lo: nat): seq<nat>
    requires 1 <= lo <= |ord|
  {
    ord[1..lo] + [ord[0]] + ord[lo..]
  }

  // Where in ord the entry at p of the new table was.
  function Origin(lo: nat, p: nat): nat {
    if p + 1 == lo then 0 else if p < lo then p + 1 else p
  }

  lemma InsertedAt(ord: seq<nat>, lo: nat)
    requires 1 <= lo <= |ord|
    ensures |Inserted(ord, lo)| == |ord|
    ensures forall p :: 0 <= p < |ord| ==> Inserted(ord, lo)[p] == ord[Origin(lo, p)]
  {
  }

  lemma InsertedCovers(ord: seq<nat>, lo: nat, n: nat)
    requires Covers(ord, n) && 1 <= lo <= |ord|
    ensures Covers(Inserted(ord, lo), n)
  {
    InsertedAt(ord, lo);
    var ord' := Inserted(ord, lo);
    forall x | 0 <= x < n
      ensures x in ord'
    {
      assert x in ord;
      var p :| 0 <= p < |ord| && ord[p] == x;
      assert ord'[if p == 0 then lo - 1 else if p < lo then p - 1 else p] == x;
    }
  }

  lemma InsertedInOrder(cmp: Order, cur: seq<Line>, ord: seq<nat>, lo: nat)
    requires Covers(ord, |cur|) && 1 <= lo <= |ord| && InOrder(cmp, cur, ord[1..])
    requires forall p :: 1 <= p < lo ==> Precedes(cmp, cur, ord[p], ord[0])
    requires forall p :: lo <= p < |ord| ==> Precedes(cmp, cur, ord[0], ord[p])
    ensures Covers(Inserted(ord, lo), |cur|) && InOrder(cmp, cur, Inserted(ord, lo))
  {
    InsertedCovers(ord, lo, |cur|);
    InsertedAt(ord, lo);
    hide Inserted, Covers, Before;
    var ord', rest := Inserted(ord, lo), ord[1..];
    forall p, q | 0 <= p < q < |ord'|
      ensures Precedes(cmp, cur, ord'[p], ord'[q])
    {
      var p', q' := Origin(lo, p), Origin(lo, q);
      if p' > 0 && q' > 0 {
        assert Precedes(cmp, cur, rest[p' - 1], rest[q' - 1]);
      }
    }
  }
}
