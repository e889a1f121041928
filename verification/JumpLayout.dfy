/** What objdump does to its list of jumps: merge those with one target, sort them, and
    group them by level, all by relinking the list in place. */
module JumpLayout {
  import opened JumpSpec
  import opened JumpList

  /** jump_info_min_address */
  method MinAddressOf(j: Jump) returns (m: nat)
    ensures m == MinAddress(Arc(j.starts, j.end))
  {
    m := j.end;
    var i := |j.starts|;
    assert j.starts[..i] == j.starts;
    while i > 0
      invariant 0 <= i <= |j.starts| && Least(j.starts[..i], m) == Least(j.starts, j.end)
    {
      i := i - 1;
      assert j.starts[..i + 1][..i] == j.starts[..i];
      if j.starts[i] < m {
        m := j.starts[i];
      }
    }
  }

  /** jump_info_max_address */
  method MaxAddressOf(j: Jump) returns (m: nat)
    ensures m == MaxAddress(Arc(j.starts, j.end))
  {
    m := j.end;
    var i := |j.starts|;
    assert j.starts[..i] == j.starts;
    while i > 0
      invariant 0 <= i <= |j.starts| && Greatest(j.starts[..i], m) == Greatest(j.starts, j.end)
    {
      i := i - 1;
      assert j.starts[..i + 1][..i] == j.starts[..i];
      if j.starts[i] > m {
        m := j.starts[i];
      }
    }
  }

  /** jump_info_size */
  method SizeOf(j: Jump) returns (n: int)
    ensures n == Size(Arc(j.starts, j.end))
  {
    var hi := MaxAddressOf(j);
    var lo := MinAddressOf(j);
    n := hi as int - lo as int;
  }

  /** jump_info_intersect */
  method IntersectOf(a: Jump, b: Jump) returns (r: bool)
    ensures r == Intersect(Arc(a.starts, a.end), Arc(b.starts, b.end))
  {
    var maxA := MaxAddressOf(a);
    var minB := MinAddressOf(b);
    if maxA >= minB {
      var minA := MinAddressOf(a);
      var maxB := MaxAddressOf(b);
      r := minA <= maxB;
    } else {
      r := false;
    }
  }

  // The node at position k of the list, or null behind its end.
  ghost predicate At(nodes: seq<Jump>, k: nat, j: Jump?) {
    k <= |nodes| && j == if k < |nodes| then nodes[k] else null
  }

  lemma Node(list: Jumps, k: nat)
    requires list.Valid() && k < |list.nodes|
    ensures |list.arcs| == |list.levels| == |list.nodes|
    ensures list.arcs[k] == Arc(list.nodes[k].starts, list.nodes[k].end) && list.levels[k] == list.nodes[k].level
    ensures At(list.nodes, k + 1, list.nodes[k].next)
    ensures list.nodes[k].prev == PrevOf(list.nodes, k)
    ensures forall i :: 0 <= i < |list.nodes| && i != k ==> list.nodes[i] != list.nodes[k]
  {
    assert list.nodes[k].next == NextOf(list.nodes, k);
    assert list.nodes[k].prev == PrevOf(list.nodes, k);
  }

  lemma Base(list: Jumps)
    requires list.Valid()
    ensures At(list.nodes, 0, list.base) && |list.arcs| == |list.levels| == |list.nodes|
  {
  }

  // ---------------------------------------------------------------- merging

  // The outcome of merging when the first i jumps are done.
  ghost function MergedFrom(v: seq<Arc>, i: nat): seq<Arc>
    requires i <= |v|
  {
    v[..i] + Merged(v[i..])
  }

  // The list after the jumps from j on with the target of jump i have been merged into it.
  ghost function Absorbed(v: seq<Arc>, i: nat, j: nat): seq<Arc>
    requires i < j <= |v|
  {
    var e := v[i].end;
    v[..i] + [Arc(v[i].starts + Collected(e, v[j..]), e)] + v[i + 1..j] + Others(e, v[j..])
  }

  lemma AbsorbPass(v: seq<Arc>, i: nat, j: nat)
    requires i < j < |v| && v[j].end != v[i].end
    ensures Absorbed(v, i, j + 1) == Absorbed(v, i, j)
  {
    assert v[j..][0] == v[j] && v[j..][1..] == v[j + 1..];
    assert v[i + 1..j + 1] == v[i + 1..j] + [v[j]];
    assert [] + Collected(v[i].end, v[j + 1..]) == Collected(v[i].end, v[j + 1..]);
  }

  lemma AbsorbOne(v: seq<Arc>, i: nat, j: nat)
    requires i < j < |v| && v[j].end == v[i].end
    ensures var v' := Dropped(v[i := Arc(v[i].starts + v[j].starts, v[i].end)], j);
            Absorbed(v', i, j) == Absorbed(v, i, j)
  {
    var e := v[i].end;
    var v' := Dropped(v[i := Arc(v[i].starts + v[j].starts, e)], j);
    assert v[j..][0] == v[j] && v[j..][1..] == v[j + 1..];
    assert v'[j..] == v[j + 1..] && v'[..i] == v[..i] && v'[i + 1..j] == v[i + 1..j];
    assert v'[i].starts + Collected(e, v[j + 1..]) == v[i].starts + Collected(e, v[j..]);
  }

  lemma AbsorbEnds(v: seq<Arc>, i: nat)
    requires i < |v|
    ensures Absorbed(v, i, |v|) == v
    ensures |Absorbed(v, i, i + 1)| > i && MergedFrom(Absorbed(v, i, i + 1), i + 1) == MergedFrom(v, i)
  {
    assert v[|v|..] == [];
    assert v[i].starts + [] == v[i].starts;
    var e := v[i].end;
    var w := Absorbed(v, i, i + 1);
    assert v[i..][0] == v[i] && v[i..][1..] == v[i + 1..];
    assert w[..i + 1] == v[..i] + [Arc(v[i].starts + Collected(e, v[i + 1..]), e)];
    assert w[i + 1..] == Others(e, v[i + 1..]);
  }

  lemma MergeEnds(v: seq<Arc>)
    ensures MergedFrom(v, 0) == Merged(v) && MergedFrom(v, |v|) == v
  {
    assert v[0..] == v && v[|v|..] == [];
  }

  /** Merge b into a: append its starts, then unlink it. */
  method MergeOne(list: Jumps, a: Jump, b: Jump, ghost i: nat, ghost j: nat) returns (next: Jump?)
    requires list.Valid() && i < j < |list.nodes| && list.nodes[i] == a && list.nodes[j] == b && a.end == b.end
    modifies list, list.pool`next, list.pool`prev, a`starts
    ensures list.Valid() && list.pool == old(list.pool)
    ensures |list.arcs| == |list.nodes| == old(|list.nodes|) - 1 && old(|list.arcs|) == old(|list.nodes|)
    ensures list.nodes[i] == a
    ensures next == if j < |list.nodes| then list.nodes[j] else null
    ensures Absorbed(list.arcs, i, j) == old(Absorbed(list.arcs, i, j))
  {
    Node(list, i);
    Node(list, j);
    AbsorbOne(list.arcs, i, j);
    hide Absorbed, Jumps.Linked, Jumps.Described;
    list.AddStarts(a, b.starts, i);
    var tmp := b.prev;
    list.Unlink(b, j);
    Node(list, j - 1);
    next := tmp.next;
  }

  // One step of the inner loop: b is merged into a, or passed by.
  method MergeStep(list: Jumps, a: Jump, b: Jump, ghost i: nat, ghost j: nat) returns (next: Jump?, ghost j': nat)
    requires list.Valid() && i < j < |list.nodes| && list.nodes[i] == a && list.nodes[j] == b
    modifies list, list.pool`next, list.pool`prev, a`starts
    ensures list.Valid() && list.pool == old(list.pool)
    ensures |list.arcs| == |list.nodes| <= old(|list.nodes|) && old(|list.arcs|) == old(|list.nodes|)
    ensures i < j' <= |list.nodes| && |list.nodes| - j' < old(|list.nodes|) - j && list.nodes[i] == a
    ensures next == if j' < |list.nodes| then list.nodes[j'] else null
    ensures Absorbed(list.arcs, i, j') == old(Absorbed(list.arcs, i, j))
  {
    Node(list, i);
    Node(list, j);
    hide Jumps.Linked, Jumps.Described;
    if a.end == b.end {
      hide Absorbed;
      j' := j;
      next := MergeOne(list, a, b, i, j);
    } else {
      AbsorbPass(list.arcs, i, j);
      hide Absorbed;
      next, j' := b.next, j + 1;
    }
  }

  /** The inner loop of jump_info_merge: every later jump with the target of a goes into a. */
  method MergeRound(list: Jumps, a: Jump, ghost i: nat) returns (next: Jump?)
    requires list.Valid() && i < |list.nodes| && list.nodes[i] == a
    modifies list, list.pool`next, list.pool`prev, a`starts
    ensures list.Valid() && list.pool == old(list.pool)
    ensures i < |list.arcs| == |list.nodes| <= old(|list.nodes|) && old(|list.arcs|) == old(|list.nodes|)
    ensures next == if i + 1 < |list.nodes| then list.nodes[i + 1] else null
    ensures MergedFrom(list.arcs, i + 1) == old(MergedFrom(list.arcs, i))
  {
    Node(list, i);
    AbsorbEnds(list.arcs, i);
    hide Absorbed, MergedFrom, Jumps.Linked, Jumps.Described;
    ghost var j := i + 1;
    var b := a.next;
    while b != null
      invariant list.Valid() && list.pool == old(list.pool)
      invariant i < j <= |list.arcs| == |list.nodes| <= old(|list.nodes|) && list.nodes[i] == a
      invariant b == if j < |list.nodes| then list.nodes[j] else null
      invariant Absorbed(list.arcs, i, j) == old(Absorbed(list.arcs, i, i + 1))
      decreases |list.nodes| - j
    {
      b, j := MergeStep(list, a, b, i, j);
    }
    AbsorbEnds(list.arcs, i);
    Node(list, i);
    next := a.next;
  }

  /** jump_info_merge */
  method MergeJumps(list: Jumps)
    requires list.Valid()
    modifies list, list.pool
    ensures list.Valid() && list.pool == old(list.pool)
    ensures list.arcs == Merged(old(list.arcs))
  {
    Base(list);
    AtMeans(list, 0, list.base);
    MergeEnds(list.arcs);
    hide MergedFrom, Merged, Jumps.Linked, Jumps.Described;
    var a := list.base;
    ghost var i := 0;
    while a != null
      invariant list.Valid() && list.pool == old(list.pool) && i <= |list.arcs| == |list.nodes|
      invariant a == if i < |list.nodes| then list.nodes[i] else null
      invariant MergedFrom(list.arcs, i) == Merged(old(list.arcs))
      decreases |list.nodes| - i
    {
      InPool(list, i);
      a := MergeRound(list, a, i);
      i := i + 1;
    }
    MergeEnds(list.arcs);
  }

  lemma InPool(list: Jumps, i: nat)
    requires list.Valid() && i < |list.nodes|
    ensures list.nodes[i] in list.pool
  {
  }

  // ---------------------------------------------------------------- sorting

  // Where the first of the least jumps from position i on is.
  function BestAt(v: seq<Arc>, i: nat): (j: nat)
    requires i < |v|
    ensures i <= j < |v|
  {
    i + Best(v[i..])
  }

  /** One search of jump_info_sort: the first of the least jumps from current on. */
  method FindBest(list: Jumps, current: Jump, ghost i: nat) returns (best: Jump, ghost j: nat)
    requires list.Valid() && i < |list.nodes| && list.nodes[i] == current
    ensures |list.arcs| == |list.nodes| && j == BestAt(list.arcs, i) && best == list.nodes[j]
  {
    Node(list, i);
    ghost var v := list.arcs[i..];
    ghost var m := 0;
    best, j := current, i;
    var runner := current.next;
    ghost var r := 1;
    var bestSize := SizeOf(best);
    hide Size, MinAddress;
    while runner != null
      invariant m < r <= |v| && j == i + m && best == list.nodes[j] && bestSize == Size(v[m])
      invariant At(list.nodes, i + r, runner)
      invariant BestFrom(v, m, r) == Best(v)
      decreases |v| - r
    {
      Node(list, i + r);
      Node(list, i + m);
      hide Jumps.Linked, Jumps.Described;
      var runnerSize := SizeOf(runner);
      var minRunner := MinAddressOf(runner);
      var minBest := MinAddressOf(best);
      assert v[r] == list.arcs[i + r] && v[m] == list.arcs[i + m];
      if runnerSize < bestSize || (runnerSize == bestSize && minRunner < minBest) {
        best, m, j := runner, r, i + r;
        bestSize := runnerSize;
      }
      runner, r := runner.next, r + 1;
    }
  }

  // The outcome of the sort when the first i jumps are in place.
  ghost function SortedFrom(v: seq<Arc>, i: nat): seq<Arc>
    requires i <= |v|
  {
    v[..i] + SelectionSort(v[i..])
  }

  lemma SortStep(v: seq<Arc>, i: nat)
    requires i < |v|
    ensures SortedFrom(v, i) == SortedFrom(Moved(v, i, BestAt(v, i)), i + 1)
  {
    var m := Best(v[i..]);
    var v' := Moved(v, i, i + m);
    assert v[i..][m] == v[i + m];
    assert v'[i + 1..] == Without(v[i..], m);
    assert v'[..i + 1] == v[..i] + [v[i + m]];
  }

  lemma SortEnds(v: seq<Arc>)
    ensures SortedFrom(v, 0) == SelectionSort(v) && SortedFrom(v, |v|) == v
  {
    assert v[0..] == v && v[|v|..] == [];
  }

  /** One round of jump_info_sort: if current is not the best that is left, the best is
      moved in front of it. */
  method SortRound(list: Jumps, current: Jump, ghost i: nat) returns (next: Jump?)
    requires list.Valid() && i < |list.nodes| && list.nodes[i] == current
    modifies list, list.pool`next, list.pool`prev
    ensures list.Valid() && list.pool == old(list.pool)
    ensures |list.arcs| == |list.nodes| == old(|list.nodes|) && old(|list.arcs|) == old(|list.nodes|)
    ensures next == if i + 1 < |list.nodes| then list.nodes[i + 1] else null
    ensures SortedFrom(list.arcs, i + 1) == old(SortedFrom(list.arcs, i))
  {
    ghost var j;
    var best;
    best, j := FindBest(list, current, i);
    Node(list, j);
    Node(list, i);
    SortStep(list.arcs, i);
    hide SortedFrom, BestAt, Jumps.Linked, Jumps.Described;
    if best == current {
      assert j == i && Moved(list.arcs, i, j) == list.arcs;
      next := current.next;
    } else {
      list.MoveLinked(best, current, j, i);
      next := current;
    }
  }

  /** jump_info_sort */
  method SortJumps(list: Jumps)
    requires list.Valid()
    modifies list, list.pool`next, list.pool`prev
    ensures list.Valid() && list.pool == old(list.pool)
    ensures list.arcs == SelectionSort(old(list.arcs))
  {
    Base(list);
    AtMeans(list, 0, list.base);
    hide *;
    var current := list.base;
    ghost var i := 0;
    SortEnds(list.arcs);
    while current != null
      invariant list.Valid() && list.pool == old(list.pool) && |list.arcs| == |list.nodes|
      invariant i <= |list.arcs| && (current == null <==> i == |list.arcs|)
      invariant current != null ==> current == list.nodes[i]
      invariant SortedFrom(list.arcs, i) == SelectionSort(old(list.arcs))
      decreases |list.arcs| - i
    {
      current := SortRound(list, current, i);
      i := i + 1;
    }
    SortEnds(list.arcs);
  }

  lemma AtMeans(list: Jumps, i: nat, j: Jump?)
    requires list.Valid() && At(list.nodes, i, j)
    ensures |list.arcs| == |list.levels| == |list.nodes| && i <= |list.nodes| && (j == null <==> i == |list.nodes|)
    ensures j != null ==> j == list.nodes[i]
  {
  }

  // ---------------------------------------------------------------- levels

  // The order of the jumps after the round that fills the group g..x and has come to t.
  ghost function Filled(v: seq<Arc>, g: nat, x: nat, t: nat): (r: (seq<Arc>, nat))
    requires g < x <= t <= |v|
    ensures |r.0| == |v| && x <= r.1 <= |v|
  {
    var (group, rest) := Fill(v[g..x], v[t..]);
    (v[..g] + group + v[x..t] + rest, g + |group|)
  }

  lemma FilledClash(v: seq<Arc>, g: nat, x: nat, t: nat)
    requires g < x <= t < |v| && Clashes(v[g..x], v[t])
    ensures Filled(v, g, x, t + 1) == Filled(v, g, x, t)
  {
    assert v[t..][0] == v[t] && v[t..][1..] == v[t + 1..];
    var (group, rest) := Fill(v[g..x], v[t + 1..]);
    assert Fill(v[g..x], v[t..]) == (group, [v[t]] + rest);
    assert v[..g] + group + v[x..t + 1] + rest == v[..g] + group + v[x..t] + ([v[t]] + rest);
  }

  lemma FilledFits(v: seq<Arc>, g: nat, x: nat, t: nat)
    requires g < x <= t < |v| && !Clashes(v[g..x], v[t])
    ensures Filled(Moved(v, x, t), g, x + 1, t + 1) == Filled(v, g, x, t)
  {
    var w := Moved(v, x, t);
    assert v[t..][0] == v[t] && v[t..][1..] == v[t + 1..];
    assert w[..g] == v[..g] && w[g..x + 1] == v[g..x] + [v[t]] && w[x + 1..t + 1] == v[x..t] && w[t + 1..] == v[t + 1..];
    hide Clashes;
  }

  lemma FilledEnd(v: seq<Arc>, g: nat, x: nat)
    requires g < x <= |v|
    ensures Filled(v, g, x, |v|) == (v, x)
  {
    assert v[|v|..] == [];
    assert v[..g] + v[g..x] + v[x..|v|] + [] == v;
  }

  /** Does it intersect with a jump of the current group, from base up to exchange? */
  method Collides(list: Jumps, base: Jump, exchange: Jump?, it: Jump, ghost g: nat, ghost x: nat, ghost t: nat)
    returns (clash: bool)
    requires list.Valid() && g < x <= t < |list.nodes|
    requires list.nodes[g] == base && list.nodes[x] == exchange && list.nodes[t] == it
    ensures |list.arcs| == |list.nodes| && (clash <==> Clashes(list.arcs[g..x], list.arcs[t]))
  {
    Node(list, t);
    ghost var group := list.arcs[g..x];
    var other: Jump? := base;
    ghost var k := g;
    clash := false;
    while other != exchange
      invariant g <= k <= x && other == list.nodes[k]
      invariant forall i :: 0 <= i < k - g ==> !Intersect(group[i], list.arcs[t])
      decreases x - k
    {
      Node(list, k);
      Node(list, x);
      hide Intersect, Jumps.Linked, Jumps.Described;
      var meets := IntersectOf(other, it);
      assert group[k - g] == list.arcs[k];
      if meets {
        return true;
      }
      other, k := other.next, k + 1;
    }
    Node(list, x);
    hide Intersect;
    assert k == x;
  }

  // A jump joins the group from behind the exchange item: it is moved in front of that item.
  method MoveUp(list: Jumps, exchange: Jump, it: Jump, level: int, ghost x: nat, ghost t: nat) returns (it': Jump?)
    requires list.Valid() && 0 < x < t < |list.nodes|
    requires list.nodes[x] == exchange && list.nodes[t] == it
    modifies list, list.pool`next, list.pool`prev, it`level
    ensures list.Valid() && list.pool == old(list.pool)
    ensures list.nodes == Moved(old(list.nodes), x, t)
    ensures t < old(|list.arcs|) && list.arcs == Moved(old(list.arcs), x, t)
    ensures t < old(|list.levels|) && list.levels == Moved(old(list.levels), x, t)[x := level]
    ensures At(list.nodes, t + 1, it')
  {
    Node(list, t);
    hide Jumps.Linked, Jumps.Described;
    var save := it.prev;
    list.MoveLinked(it, exchange, t, x);
    list.SetLevel(it, level, x);
    Node(list, t);
    it' := save.next;
  }

  lemma MovedNowhere<T>(s: seq<T>, k: nat)
    requires k < |s|
    ensures Moved(s, k, k) == s
  {
  }

  method StayPut(list: Jumps, it: Jump, level: int, ghost x: nat)
    requires list.Valid() && x < |list.nodes| && list.nodes[x] == it
    modifies list`levels, it`level
    ensures list.Valid() && x < |old(list.levels)| && list.levels == old(list.levels)[x := level]
  {
    list.SetLevel(it, level, x);
  }

  // A jump joins the group.
  method Join(list: Jumps, exchange: Jump, it: Jump, level: int, ghost x: nat, ghost t: nat)
    returns (exchange': Jump?, it': Jump?)
    requires list.Valid() && 0 < x <= t < |list.nodes|
    requires list.nodes[x] == exchange && list.nodes[t] == it
    modifies list, list.pool`next, list.pool`prev, list.pool`level
    ensures list.Valid() && list.pool == old(list.pool)
    ensures list.nodes == Moved(old(list.nodes), x, t)
    ensures t < old(|list.arcs|) && list.arcs == Moved(old(list.arcs), x, t)
    ensures t < old(|list.levels|) && list.levels == Moved(old(list.levels), x, t)[x := level]
    ensures At(list.nodes, x + 1, exchange') && At(list.nodes, t + 1, it')
  {
    Node(list, x);
    Node(list, t);
    InPool(list, t);
    hide Jumps.Linked, Jumps.Described, Moved;
    if it != exchange {
      it' := MoveUp(list, exchange, it, level, x, t);
      exchange' := exchange;
    } else {
      MovedNowhere(list.arcs, x);
      MovedNowhere(list.nodes, x);
      MovedNowhere(list.levels, x);
      StayPut(list, it, level, x);
      exchange', it' := exchange.next, it.next;
    }
  }

  /** Where a round of the level-grouping loop stands: the group of base goes up to x, exchange is
      the jump behind it, the jumps before t have been considered, and the rest of the round leads
      to done. */
  ghost predicate Stand(nodes: seq<Jump>, arcs: seq<Arc>, levels: seq<int>, levels0: seq<int>, level: int, base: Jump,
                        exchange: Jump?, it: Jump?, g: nat, x: nat, t: nat, done: (seq<Arc>, nat))
  {
    && |nodes| == |arcs| == |levels| && g < x <= t <= |nodes| && nodes[g] == base
    && At(nodes, x, exchange) && At(nodes, t, it)
    && Filled(arcs, g, x, t) == done && LevelsSet(levels0, levels, g, x, level)
  }

  lemma {:induction false} StandClash(nodes: seq<Jump>, arcs: seq<Arc>, levels: seq<int>, levels0: seq<int>,
                                      level: int, base: Jump,
                                      exchange: Jump?, it: Jump?, it': Jump?, g: nat, x: nat, t: nat, done: (seq<Arc>, nat))
    requires Stand(nodes, arcs, levels, levels0, level, base, exchange, it, g, x, t, done)
    requires t < |nodes| && Clashes(arcs[g..x], arcs[t]) && At(nodes, t + 1, it')
    ensures Stand(nodes, arcs, levels, levels0, level, base, exchange, it', g, x, t + 1, done)
  {
    hide Filled, Clashes, LevelsSet;
    FilledClash(arcs, g, x, t);
  }

  lemma {:induction false} StandFits(nodes: seq<Jump>, arcs: seq<Arc>, levels: seq<int>, levels': seq<int>, levels0: seq<int>,
                                     level: int, base: Jump, exchange: Jump?, it: Jump?, exchange': Jump?, it': Jump?,
                                     g: nat, x: nat, t: nat, done: (seq<Arc>, nat))
    requires Stand(nodes, arcs, levels, levels0, level, base, exchange, it, g, x, t, done)
    requires t < |nodes| && !Clashes(arcs[g..x], arcs[t]) && levels' == Moved(levels, x, t)[x := level]
    requires At(Moved(nodes, x, t), x + 1, exchange') && At(Moved(nodes, x, t), t + 1, it')
    ensures Stand(Moved(nodes, x, t), Moved(arcs, x, t), levels', levels0, level, base, exchange', it', g, x + 1, t + 1, done)
  {
    FilledFits(arcs, g, x, t);
    hide Filled, Clashes;
    KeptLevels(levels0, levels, levels', g, x, x + 1, level);
  }

  lemma StandFacts(nodes: seq<Jump>, arcs: seq<Arc>, levels: seq<int>, levels0: seq<int>, level: int, base: Jump,
                   exchange: Jump?, it: Jump?, g: nat, x: nat, t: nat, done: (seq<Arc>, nat))
    requires Stand(nodes, arcs, levels, levels0, level, base, exchange, it, g, x, t, done)
    ensures |nodes| == |arcs| == |levels| && g < x <= t <= |nodes| && nodes[g] == base
    ensures (it != null <==> t < |nodes|) && (it != null ==> x < |nodes| && exchange == nodes[x] && it == nodes[t])
    ensures it == null ==> LevelsSet(levels0, levels, g, x, level) && (arcs, x) == done && At(nodes, x, exchange)
  {
    if it == null {
      FilledEnd(arcs, g, x);
    }
  }

  lemma StandStart(nodes: seq<Jump>, arcs: seq<Arc>, levels: seq<int>, levels0: seq<int>, level: int, base: Jump,
                   next: Jump?, g: nat)
    requires |nodes| == |arcs| == |levels| == |levels0| && g < |nodes| && nodes[g] == base && At(nodes, g + 1, next)
    requires levels == levels0[g := level]
    ensures Stand(nodes, arcs, levels, levels0, level, base, next, next, g, g + 1, g + 1, Filled(arcs, g, g + 1, g + 1))
  {
    hide Filled;
  }

  /** One step of the level-grouping loop: it joins the group, moved in front of the exchange
      item if it is not that item itself, or is left out. */
  method GroupStep(list: Jumps, base: Jump, exchange: Jump, it: Jump, level: int, ghost levels0: seq<int>,
                   ghost g: nat, ghost x: nat, ghost t: nat, ghost done: (seq<Arc>, nat))
    returns (exchange': Jump?, it': Jump?, ghost x': nat)
    requires list.Valid()
    requires Stand(list.nodes, list.arcs, list.levels, levels0, level, base, exchange, it, g, x, t, done)
    modifies list, list.pool`next, list.pool`prev, list.pool`level
    ensures list.Valid() && list.pool == old(list.pool) && |list.nodes| == old(|list.nodes|)
    ensures Stand(list.nodes, list.arcs, list.levels, levels0, level, base, exchange', it', g, x', t + 1, done)
  {
    hide *;
    StandFacts(list.nodes, list.arcs, list.levels, levels0, level, base, exchange, it, g, x, t, done);
    Node(list, x);
    Node(list, t);
    ghost var nodes, arcs, levels := list.nodes, list.arcs, list.levels;
    var clash := Collides(list, base, exchange, it, g, x, t);
    if clash {
      exchange', it', x' := exchange, it.next, x;
      StandClash(nodes, arcs, levels, levels0, level, base, exchange, it, it', g, x, t, done);
    } else {
      x' := x + 1;
      exchange', it' := Join(list, exchange, it, level, x, t);
      StandFits(nodes, arcs, levels, list.levels, levels0, level, base, exchange, it, exchange', it', g, x, t, done);
    }
  }

  /** One round of the level-grouping loop: the jump at position g opens a level, and every
      later jump that fits joins it; exchange is the first jump that does not. */
  method GroupRound(list: Jumps, base: Jump, level: int, ghost g: nat) returns (exchange: Jump?, ghost x: nat)
    requires list.Valid() && g < |list.nodes| == |list.arcs| == |list.levels| && list.nodes[g] == base
    modifies list, list.pool`next, list.pool`prev, list.pool`level
    ensures list.Valid() && list.pool == old(list.pool)
    ensures |list.nodes| == |list.arcs| == |list.levels| == old(|list.nodes|) && g < x
    ensures At(list.nodes, x, exchange) && (list.arcs, x) == old(Filled(list.arcs, g, g + 1, g + 1))
    ensures LevelsSet(old(list.levels), list.levels, g, x, level)
  {
    InPool(list, g);
    hide *;
    ghost var levels0, done := list.levels, Filled(list.arcs, g, g + 1, g + 1);
    exchange := OpenGroup(list, base, level, g);
    exchange, x := FillGroup(list, base, exchange, level, levels0, g, done);
    StandFacts(list.nodes, list.arcs, list.levels, levels0, level, base, exchange, null, g, x, |list.nodes|, done);
  }

  // The loop of the round: the jumps behind base are considered one after the other.
  method FillGroup(list: Jumps, base: Jump, next: Jump?, level: int, ghost levels0: seq<int>, ghost g: nat,
                   ghost done: (seq<Arc>, nat))
    returns (exchange: Jump?, ghost x: nat)
    requires list.Valid()
    requires Stand(list.nodes, list.arcs, list.levels, levels0, level, base, next, next, g, g + 1, g + 1, done)
    modifies list, list.pool`next, list.pool`prev, list.pool`level
    ensures list.Valid() && list.pool == old(list.pool) && |list.nodes| == old(|list.nodes|)
    ensures Stand(list.nodes, list.arcs, list.levels, levels0, level, base, exchange, null, g, x, |list.nodes|, done)
  {
    hide *;
    var it := next;
    exchange, x := next, g + 1;
    ghost var t := g + 1;
    StandFacts(list.nodes, list.arcs, list.levels, levels0, level, base, exchange, it, g, x, t, done);
    while it != null
      invariant list.Valid() && list.pool == old(list.pool) && |list.nodes| == old(|list.nodes|) && t <= |list.nodes|
      invariant Stand(list.nodes, list.arcs, list.levels, levels0, level, base, exchange, it, g, x, t, done)
      decreases |list.nodes| - t
    {
      StandFacts(list.nodes, list.arcs, list.levels, levels0, level, base, exchange, it, g, x, t, done);
      exchange, it, x := GroupStep(list, base, exchange, it, level, levels0, g, x, t, done);
      t := t + 1;
    }
    StandFacts(list.nodes, list.arcs, list.levels, levels0, level, base, exchange, it, g, x, t, done);
  }

  // The jump at position g opens a level.
  method OpenGroup(list: Jumps, base: Jump, level: int, ghost g: nat) returns (next: Jump?)
    requires list.Valid() && g < |list.nodes| && list.nodes[g] == base
    modifies list`levels, base`level
    ensures list.Valid() && g < |list.arcs| == |old(list.levels)| == |list.nodes|
    ensures Stand(list.nodes, list.arcs, list.levels, old(list.levels), level, base, next, next, g, g + 1, g + 1,
                  Filled(list.arcs, g, g + 1, g + 1))
  {
    Node(list, g);
    hide Filled, Jumps.Linked, Jumps.Described, Stand;
    ghost var levels0 := list.levels;
    list.SetLevel(base, level, g);
    Node(list, g);
    next := base.next;
    StandStart(list.nodes, list.arcs, list.levels, levels0, level, base, next, g);
  }

  // The levels of the group from g up to x have been set, those before it kept.
  ghost predicate LevelsSet(a: seq<int>, b: seq<int>, g: nat, x: nat, level: int) {
    && |a| == |b| && g <= x <= |a| && b[..g] == a[..g]
    && forall i :: g <= i < x ==> b[i] == level
  }

  lemma KeptLevels(a: seq<int>, b: seq<int>, d: seq<int>, g: nat, x: nat, x': nat, level: int)
    requires LevelsSet(a, b, g, x, level) && |d| == |b| && x <= x' <= |b| && x' <= x + 1
    requires d[..x] == b[..x] && (x' > x ==> d[x] == level)
    ensures LevelsSet(a, d, g, x', level)
  {
    assert forall i :: 0 <= i < x ==> d[i] == d[..x][i] == b[i];
  }

  ghost function Arranged(v: seq<Arc>, g: nat): seq<Arc>
    requires g <= |v|
  {
    v[..g] + Concat(Levels(v[g..]))
  }

  ghost function Numbered(levels: seq<int>, v: seq<Arc>, g: nat, k: int): seq<int>
    requires g <= |v| && g <= |levels|
  {
    levels[..g] + Numbers(Levels(v[g..]), k)
  }

  lemma GroupDone(v: seq<Arc>, w: seq<Arc>, levels: seq<int>, levels': seq<int>, g: nat, x: nat, k: int)
    requires g < x <= |v| == |w| == |levels| == |levels'| && Filled(v, g, g + 1, g + 1) == (w, x)
    requires LevelsSet(levels, levels', g, x, k)
    ensures Arranged(w, x) == Arranged(v, g)
    ensures Numbered(levels', w, x, k + 1) == Numbered(levels, v, g, k)
  {
    var (group, rest) := Fill(v[g..g + 1], v[g + 1..]);
    assert v[g..g + 1] == [v[g]] && v[g..][0] == v[g] && v[g..][1..] == v[g + 1..];
    assert w == v[..g] + group + v[g + 1..g + 1] + rest;
    assert w[x..] == rest && w[..x] == v[..g] + group;
    assert Levels(v[g..]) == [group] + Levels(rest);
    assert levels'[..x] == levels[..g] + Repeat(k, |group|);
  }

  lemma GroupEnds(v: seq<Arc>, levels: seq<int>)
    requires |v| == |levels|
    ensures Arranged(v, 0) == Concat(Levels(v)) && Arranged(v, |v|) == v
    ensures Numbered(levels, v, 0, 0) == Numbers(Levels(v), 0)
    ensures forall k :: Numbered(levels, v, |v|, k) == levels
  {
    assert v[0..] == v && v[|v|..] == [] && Levels([]) == [];
  }

  /** The level-grouping loop of disassemble_jumps: the list ends up level by level, each
      jump with its level. */
  method GroupByLevel(list: Jumps)
    requires list.Valid()
    modifies list, list.pool`next, list.pool`prev, list.pool`level
    ensures list.Valid() && list.pool == old(list.pool)
    ensures list.arcs == Concat(Levels(old(list.arcs)))
    ensures list.levels == Numbers(Levels(old(list.arcs)), 0)
  {
    Base(list);
    AtMeans(list, 0, list.base);
    GroupEnds(list.arcs, list.levels);
    hide *;
    var lastJump := list.base;
    var maxLevel := -1;
    ghost var g := 0;
    while lastJump != null
      invariant list.Valid() && list.pool == old(list.pool)
      invariant g <= |list.nodes| == |list.arcs| == |list.levels|
      invariant lastJump == if g < |list.nodes| then list.nodes[g] else null
      invariant Arranged(list.arcs, g) == Concat(Levels(old(list.arcs)))
      invariant Numbered(list.levels, list.arcs, g, maxLevel + 1) == Numbers(Levels(old(list.arcs)), 0)
      decreases |list.nodes| - g
    {
      ghost var v, levels, x := list.arcs, list.levels, 0;
      maxLevel := maxLevel + 1;
      lastJump, x := GroupRound(list, lastJump, maxLevel, g);
      AtMeans(list, x, lastJump);
      GroupDone(v, list.arcs, levels, list.levels, g, x, maxLevel);
      g := x;
    }
    GroupEnds(list.arcs, list.levels);
  }

  /** All of it: whatever list of jumps was found, it is laid out as LaidOut says, by merging,
      sorting and levelling. */
  method LayOut(list: Jumps)
    requires list.Valid()
    modifies list, list.pool
    ensures list.Valid()
    ensures LaidOut(old(list.arcs), list.arcs, list.levels)
    ensures var gs := Levels(SelectionSort(Merged(old(list.arcs))));
            list.arcs == Concat(gs) && list.levels == Numbers(gs, 0)
  {
    hide *;
    LayoutLaws(list.arcs);
    MergeJumps(list);
    SortJumps(list);
    GroupByLevel(list);
  }
}
