/** Safety of the merge tree: what the root has emitted, followed by the merge of
    everything still in the tree, never changes. */
module MergeTreeSafety {
  import opened StableSpec
  import opened MergeTree
  import opened MergeTreeInv

  // The lines node i has not yet taken, in the order in which it will take them.
  ghost function Rest(c: Config, s: State, i: nat): seq<Line>
    requires TreeOk(c.tree) && 0 < i < |s.nodes| == |c.tree|
    decreases |c.tree| - i
  {
    var p, n := c.tree[i], s.nodes[i];
    assert PlaceOk(c.tree, i);
    if p.leaf then Merge(c.cmp, n.lo, n.hi)
    else Merge(c.cmp, n.lo + (s.nodes[p.loChild].out + Rest(c, s, p.loChild)),
                      n.hi + (s.nodes[p.hiChild].out + Rest(c, s, p.hiChild)))
  }

  // The lines node i has still to deliver to its parent.
  ghost function Delivery(c: Config, s: State, i: nat): seq<Line>
    requires TreeOk(c.tree) && 0 < i < |s.nodes| == |c.tree|
  {
    s.nodes[i].out + Rest(c, s, i)
  }

  ghost function LoSide(c: Config, s: State, i: nat): seq<Line>
    requires TreeOk(c.tree) && 0 < i < |s.nodes| == |c.tree|
  {
    assert PlaceOk(c.tree, i);
    if c.tree[i].leaf then [] else Delivery(c, s, c.tree[i].loChild)
  }

  ghost function HiSide(c: Config, s: State, i: nat): seq<Line>
    requires TreeOk(c.tree) && 0 < i < |s.nodes| == |c.tree|
  {
    assert PlaceOk(c.tree, i);
    if c.tree[i].leaf then [] else Delivery(c, s, c.tree[i].hiChild)
  }

  lemma RestSides(c: Config, s: State, i: nat)
    requires TreeOk(c.tree) && 0 < i < |s.nodes| == |c.tree|
    ensures Rest(c, s, i) == Merge(c.cmp, s.nodes[i].lo + LoSide(c, s, i), s.nodes[i].hi + HiSide(c, s, i))
  {
    assert PlaceOk(c.tree, i);
    assert s.nodes[i].lo + [] == s.nodes[i].lo && s.nodes[i].hi + [] == s.nodes[i].hi;
  }

  predicate SameLines(n: Node, n': Node) { n'.lo == n.lo && n'.hi == n.hi && n'.out == n.out }

  lemma {:induction false} SameBelow(c: Config, s: State, s': State, i: nat)
    requires TreeOk(c.tree) && 0 < i < |s.nodes| == |s'.nodes| == |c.tree|
    requires forall k :: i <= k < |s.nodes| ==> SameLines(s.nodes[k], s'.nodes[k])
    ensures Rest(c, s', i) == Rest(c, s, i)
    decreases |c.tree| - i
  {
    assert PlaceOk(c.tree, i) && SameLines(s.nodes[i], s'.nodes[i]);
    if !c.tree[i].leaf {
      var l, h := c.tree[i].loChild, c.tree[i].hiChild;
      SameBelow(c, s, s', l);
      SameBelow(c, s, s', h);
      assert SameLines(s.nodes[l], s'.nodes[l]) && SameLines(s.nodes[h], s'.nodes[h]);
    }
  }

  lemma SidesBelow(c: Config, s: State, s': State, i: nat)
    requires TreeOk(c.tree) && 0 < i < |s.nodes| == |s'.nodes| == |c.tree|
    requires forall k :: i < k < |s.nodes| ==> SameLines(s.nodes[k], s'.nodes[k])
    ensures LoSide(c, s', i) == LoSide(c, s, i) && HiSide(c, s', i) == HiSide(c, s, i)
  {
    assert PlaceOk(c.tree, i);
    if !c.tree[i].leaf {
      var l, h := c.tree[i].loChild, c.tree[i].hiChild;
      SameBelow(c, s, s', l);
      SameBelow(c, s, s', h);
      assert SameLines(s.nodes[l], s'.nodes[l]) && SameLines(s.nodes[h], s'.nodes[h]);
    }
  }

  // What happens at node m, and at a child of m, is not seen above m.
  lemma {:induction false} SameAbove(c: Config, s: State, s': State, m: nat, child: nat, j: nat)
    requires TreeOk(c.tree) && 0 < m < |s.nodes| == |s'.nodes| == |c.tree| && 0 < j < |s.nodes| && j != child
    requires forall k :: 0 < k < |s.nodes| && k != m && k != child ==> SameLines(s.nodes[k], s'.nodes[k])
    requires Delivery(c, s', m) == Delivery(c, s, m)
    requires 0 < child < |c.tree| ==> c.tree[child].parent == m
    ensures Delivery(c, s', j) == Delivery(c, s, j)
    decreases |c.tree| - j
  {
    if j != m {
      assert PlaceOk(c.tree, j) && SameLines(s.nodes[j], s'.nodes[j]);
      if !c.tree[j].leaf {
        SameAbove(c, s, s', m, child, c.tree[j].loChild);
        SameAbove(c, s, s', m, child, c.tree[j].hiChild);
      }
    }
  }

  // The counts tell how many lines are still to come.
  lemma {:induction false} RestLength(c: Config, s: State, i: nat)
    requires Inv(c, s) && 0 < i < |s.nodes|
    ensures |Rest(c, s, i)| == LoLeft(s.nodes[i]) + HiLeft(s.nodes[i])
    ensures |s.nodes[i].lo + LoSide(c, s, i)| == LoLeft(s.nodes[i])
    ensures |s.nodes[i].hi + HiSide(c, s, i)| == HiLeft(s.nodes[i])
    decreases |c.tree| - i
  {
    Kids(c, s, i);
    RestSides(c, s, i);
    MergeMembers(c.cmp, s.nodes[i].lo + LoSide(c, s, i), s.nodes[i].hi + HiSide(c, s, i));
    hide Inv, HolderOk, QueueOk, Merge, Rest;
    if !c.tree[i].leaf {
      RestLength(c, s, c.tree[i].loChild);
      RestLength(c, s, c.tree[i].hiChild);
    }
  }

  // Taking the right line leaves the merge of the two sides one line shorter.
  lemma TakeFromMerge(cmp: Order, a: seq<Line>, a': seq<Line>, b: seq<Line>, b': seq<Line>)
    requires a != []
    ensures (b != [] && cmp(a[0], b[0]) <= 0) || b + b' == [] ==>
              Merge(cmp, a + a', b + b') == [a[0]] + Merge(cmp, a[1..] + a', b + b')
    ensures (b != [] && cmp(b[0], a[0]) > 0) || b + b' == [] ==>
              Merge(cmp, b + b', a + a') == [a[0]] + Merge(cmp, b + b', a[1..] + a')
  {
    assert (a + a')[1..] == a[1..] + a';
    assert a[1..] + a' == [] ==> Merge(cmp, a[1..] + a', b + b') == b + b';
  }

  // The line taken by PickLine or DrainLine is the first of the node's Rest.
  lemma TakeStep(c: Config, s: State, step: Step)
    requires Inv(c, s) && Enabled(c, s, step) && TakesLine(step)
    ensures var i, n, s' := step.i, s.nodes[step.i], Next(c, s, step);
            Rest(c, s, i) == [if FromLo(c, n) then n.lo[0] else n.hi[0]] + Rest(c, s', i)
  {
    var i, n, s' := step.i, s.nodes[step.i], Next(c, s, step);
    Kids(c, s, i);
    RestLength(c, s, i);
    StepKeepsInv(c, s, step);
    SidesBelow(c, s, s', i);
    RestSides(c, s, i);
    RestSides(c, s', i);
    var lo', hi' := LoSide(c, s, i), HiSide(c, s, i);
    if FromLo(c, n) {
      TakeFromMerge(c.cmp, n.lo, lo', n.hi, hi');
    } else {
      TakeFromMerge(c.cmp, n.hi, hi', n.lo, lo');
    }
  }

  ghost function Whole(c: Config, s: State): seq<Line>
    requires TreeOk(c.tree) && |s.nodes| == |c.tree|
  {
    s.emitted + Rest(c, s, MERGE_ROOT)
  }

  lemma RootDelivery(c: Config, s: State)
    requires Inv(c, s)
    ensures Delivery(c, s, MERGE_ROOT) == Rest(c, s, MERGE_ROOT)
  {
    Kids(c, s, MERGE_ROOT);
    assert s.nodes[MERGE_ROOT].out == [];
  }

  lemma TakeAtRoot(c: Config, s: State, step: Step)
    requires Inv(c, s) && Enabled(c, s, step) && TakesLine(step) && step.i == MERGE_ROOT
    ensures Whole(c, Next(c, s, step)) == Whole(c, s)
  {
    var n, s' := s.nodes[MERGE_ROOT], Next(c, s, step);
    TakeStep(c, s, step);
    var line := if FromLo(c, n) then n.lo[0] else n.hi[0];
    assert s'.emitted == s.emitted + [line] by { Kids(c, s, MERGE_ROOT); }
    assert s'.emitted + Rest(c, s', MERGE_ROOT) == s.emitted + ([line] + Rest(c, s', MERGE_ROOT));
  }

  lemma TakeLines(c: Config, s: State, step: Step)
    requires Inv(c, s) && Enabled(c, s, step) && TakesLine(step) && step.i > MERGE_ROOT
    ensures var i, n, s' := step.i, s.nodes[step.i], Next(c, s, step);
            && s'.nodes[i].out == n.out + [if FromLo(c, n) then n.lo[0] else n.hi[0]] && s'.emitted == s.emitted
            && forall k :: 0 < k < |s.nodes| && k != i ==> SameLines(s.nodes[k], s'.nodes[k])
  {
    Kids(c, s, step.i);
  }

  lemma TakeInside(c: Config, s: State, step: Step)
    requires Inv(c, s) && Enabled(c, s, step) && TakesLine(step) && step.i > MERGE_ROOT
    ensures Whole(c, Next(c, s, step)) == Whole(c, s)
  {
    var i, n, s' := step.i, s.nodes[step.i], Next(c, s, step);
    TakeStep(c, s, step);
    StepKeepsInv(c, s, step);
    RootDelivery(c, s);
    RootDelivery(c, s');
    TakeLines(c, s, step);
    hide Rest, NodeOk, Advance, NodeAt, Next, EndOk, PlaceOk;
    assert Delivery(c, s', i) == Delivery(c, s, i);
    SameAbove(c, s, s', i, 0, MERGE_ROOT);
  }

  // Publishing moves lines across the edge between a node and its parent.
  lemma PublishLines(c: Config, s: State, step: Step)
    requires Inv(c, s) && Enabled(c, s, step) && step.Publish?
    ensures MERGE_ROOT < step.i && 0 < c.tree[step.i].parent < step.i && !c.tree[c.tree[step.i].parent].leaf
    ensures var i, p, s' := step.i, c.tree[step.i].parent, Next(c, s, step);
            var n, m, m', isLo := s.nodes[i], s.nodes[p], s'.nodes[p], c.tree[i].isLo;
            && s'.nodes[i] == n.(out := [], phase := Updating) && s'.emitted == s.emitted
            && m'.out == m.out
            && m'.lo == (if isLo then m.lo + n.out else m.lo) && m'.hi == (if isLo then m.hi else m.hi + n.out)
            && i == (if isLo then c.tree[p].loChild else c.tree[p].hiChild)
            && p < (if isLo then c.tree[p].hiChild else c.tree[p].loChild) < |s.nodes|
            && i != (if isLo then c.tree[p].hiChild else c.tree[p].loChild)
            && forall k :: 0 < k < |s.nodes| && k != p && k != i ==> SameLines(s.nodes[k], s'.nodes[k])
  {
    Kids(c, s, step.i);
    Kids(c, s, c.tree[step.i].parent);
  }

  // The child's side of its parent's buffers, before and after.
  lemma PublishSides(c: Config, s: State, step: Step)
    requires Inv(c, s) && Enabled(c, s, step) && step.Publish?
    ensures var p, s', n := c.tree[step.i].parent, Next(c, s, step), s.nodes[step.i];
            0 < p < |s.nodes|
            && if c.tree[step.i].isLo
               then LoSide(c, s, p) == n.out + LoSide(c, s', p) && HiSide(c, s', p) == HiSide(c, s, p)
               else HiSide(c, s, p) == n.out + HiSide(c, s', p) && LoSide(c, s', p) == LoSide(c, s, p)
  {
    var i, n, s' := step.i, s.nodes[step.i], Next(c, s, step);
    var p := c.tree[i].parent;
    PublishLines(c, s, step);
    hide Rest, NodeOk, Advance, NodeAt, Next, EndOk, PlaceOk, Enabled, Inv;
    SidesBelow(c, s, s', i);
    RestSides(c, s, i);
    RestSides(c, s', i);
    hide Merge;
    assert Delivery(c, s', i) == Rest(c, s, i);
    SiblingKept(c, s, s', i, p, if c.tree[i].isLo then c.tree[p].hiChild else c.tree[p].loChild);
  }

  lemma PublishAtParent(c: Config, s: State, step: Step)
    requires Inv(c, s) && Enabled(c, s, step) && step.Publish?
    ensures var p := c.tree[step.i].parent; 0 < p < |s.nodes| && Delivery(c, Next(c, s, step), p) == Delivery(c, s, p)
  {
    var i, n, s' := step.i, s.nodes[step.i], Next(c, s, step);
    var p := c.tree[i].parent;
    PublishLines(c, s, step);
    PublishSides(c, s, step);
    RestSides(c, s, p);
    RestSides(c, s', p);
    assert Rest(c, s', p) == Rest(c, s, p) by {
      hide *;
      if c.tree[i].isLo {
        assert s'.nodes[p].lo + LoSide(c, s', p) == s.nodes[p].lo + LoSide(c, s, p);
      } else {
        assert s'.nodes[p].hi + HiSide(c, s', p) == s.nodes[p].hi + HiSide(c, s, p);
      }
    }
    hide Rest, NodeAt, Next, LoSide, HiSide, Merge, Inv, Enabled;
  }

  lemma PublishKeepsWhole(c: Config, s: State, step: Step)
    requires Inv(c, s) && Enabled(c, s, step) && step.Publish?
    ensures Whole(c, Next(c, s, step)) == Whole(c, s)
  {
    var i, s', p := step.i, Next(c, s, step), c.tree[step.i].parent;
    PublishAtParent(c, s, step);
    PublishLines(c, s, step);
    StepKeepsInv(c, s, step);
    RootDelivery(c, s);
    RootDelivery(c, s');
    hide Rest, NodeOk, Advance, NodeAt, Next, EndOk, PlaceOk;
    SameAbove(c, s, s', p, i, MERGE_ROOT);
  }

  // The other child of p is below neither p nor i.
  lemma {:induction false} SiblingKept(c: Config, s: State, s': State, i: nat, p: nat, j: nat)
    requires TreeOk(c.tree) && 0 < p < i < |s.nodes| == |s'.nodes| == |c.tree| && p < j < |s.nodes| && j != i
    requires c.tree[i].parent == p
    requires forall k :: 0 < k < |s.nodes| && k != p && k != i ==> SameLines(s.nodes[k], s'.nodes[k])
    ensures Delivery(c, s', j) == Delivery(c, s, j)
    decreases |c.tree| - j
  {
    assert PlaceOk(c.tree, j) && SameLines(s.nodes[j], s'.nodes[j]);
    if !c.tree[j].leaf {
      SiblingKept(c, s, s', i, p, c.tree[j].loChild);
      SiblingKept(c, s, s', i, p, c.tree[j].hiChild);
    }
  }

  // Emitted lines followed by the merge of the rest: the same before and after any step.
  lemma StepKeepsWhole(c: Config, s: State, step: Step)
    requires Inv(c, s) && Enabled(c, s, step)
    ensures TreeOk(c.tree) && |Next(c, s, step).nodes| == |c.tree|
    ensures Whole(c, Next(c, s, step)) == Whole(c, s)
  {
    if TakesLine(step) {
      if step.i == MERGE_ROOT { TakeAtRoot(c, s, step); } else { TakeInside(c, s, step); }
    } else if step.Publish? {
      PublishKeepsWhole(c, s, step);
    } else {
      SameBelow(c, s, Next(c, s, step), MERGE_ROOT);
    }
  }
}
