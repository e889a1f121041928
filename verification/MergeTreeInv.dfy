/** Every step of every thread keeps the bookkeeping of the merge tree. */
module MergeTreeInv {
  import opened StableSpec
  import opened MergeTree

  // What a parent relies on when one of its children changes.
  predicate KidSame(n: Node, n': Node) {
    Undelivered(n') == Undelivered(n) && (Announcing(n.phase) ==> Announcing(n'.phase))
  }

  // What a node relies on about its children.
  predicate KidsDelivering(p: Place, lo: Node, hi: Node) {
    p.leaf || (Undelivered(lo) >= 0 && Undelivered(hi) >= 0)
  }

  lemma KidsSame(i: nat, p: Place, n: Node, lo: Node, hi: Node, lo': Node, hi': Node)
    requires NodeOk(i, p, n, lo, hi) && (p.leaf || (KidSame(lo, lo') && KidSame(hi, hi')))
    ensures NodeOk(i, p, n, lo', hi')
  {
  }

  lemma TakeKeeps(c: Config, i: nat, p: Place, n: Node, lo: Node, hi: Node, step: Step)
    requires 0 < i && NodeOk(i, p, n, lo, hi) && KidsDelivering(p, lo, hi) && (i == MERGE_ROOT <==> p.level <= MERGE_ROOT)
    requires TakesLine(step) && Can(n, step)
    ensures NodeOk(i, p, Advance(c, p, n, step), lo, hi)
    ensures i > MERGE_ROOT ==> KidSame(n, Advance(c, p, n, step))
  {
  }

  lemma EndPickKeeps(c: Config, i: nat, p: Place, n: Node, lo: Node, hi: Node, step: Step)
    requires 0 < i && NodeOk(i, p, n, lo, hi) && KidsDelivering(p, lo, hi) && (i == MERGE_ROOT <==> p.level <= MERGE_ROOT)
    requires step.EndPick? && Can(n, step)
    ensures NodeOk(i, p, Advance(c, p, n, step), lo, hi)
    ensures KidSame(n, Advance(c, p, n, step))
  {
  }

  lemma EndDrainKeeps(c: Config, i: nat, p: Place, n: Node, lo: Node, hi: Node, step: Step)
    requires 0 < i && NodeOk(i, p, n, lo, hi) && (i == MERGE_ROOT <==> p.level <= MERGE_ROOT)
    requires step.EndDrain? && Can(n, step)
    ensures NodeOk(i, p, Advance(c, p, n, step), lo, hi)
    ensures KidSame(n, Advance(c, p, n, step))
  {
  }

  lemma QueueKeeps(c: Config, i: nat, p: Place, n: Node, lo: Node, hi: Node, step: Step)
    requires NodeOk(i, p, n, lo, hi)
    requires (step.Install? || step.Pop? || step.Lock?) && Can(n, step)
    ensures NodeOk(i, p, Advance(c, p, n, step), lo, hi)
    ensures KidSame(n, Advance(c, p, n, step))
  {
  }

  lemma UpdateKeeps(c: Config, i: nat, p: Place, n: Node, lo: Node, hi: Node, step: Step)
    requires NodeOk(i, p, n, lo, hi)
    requires (step.Update? || step.CheckSelf?) && Can(n, step)
    ensures NodeOk(i, p, Advance(c, p, n, step), lo, hi)
    ensures KidSame(n, Advance(c, p, n, step))
  {
  }

  // Publishing moves lines from the child's out to the parent's buffer.
  lemma PublishKeeps(c: Config, i: nat, p: Place, n: Node, q: Place, m: Node, lo: Node, hi: Node, step: Step)
    requires NodeOk(p.parent, q, m, lo, hi) && KidsDelivering(q, lo, hi) && !q.leaf
    requires step.Publish? && Can(n, step) && n.out != [] && n == (if p.isLo then lo else hi)
    requires LoLeft(n) >= 0 && HiLeft(n) >= 0
    ensures var n' := Advance(c, p, n, step);
            NodeOk(p.parent, q, Receive(p, n, m), if p.isLo then n' else lo, if p.isLo then hi else n')
    ensures KidSame(m, Receive(p, n, m))
  {
  }

  // The last look at the parent leaves it queued if it has work.
  lemma NotifyKeeps(c: Config, i: nat, p: Place, n: Node, q: Place, m: Node, lo: Node, hi: Node, step: Step)
    requires NodeOk(p.parent, q, m, lo, hi) && m.phase == Free && p.level > MERGE_ROOT && !q.leaf
    requires step.CheckParent? && Can(n, step) && n == (if p.isLo then lo else hi)
    ensures var n' := Advance(c, p, n, step);
            NodeOk(p.parent, q, Notify(p, n, m), if p.isLo then n' else lo, if p.isLo then hi else n')
    ensures KidSame(m, Notify(p, n, m))
  {
  }

  lemma Kids(c: Config, s: State, i: nat)
    requires Inv(c, s) && 0 < i < |s.nodes|
    ensures NodeOk(i, c.tree[i], s.nodes[i], LoKid(c, s, i), HiKid(c, s, i))
    ensures KidsDelivering(c.tree[i], LoKid(c, s, i), HiKid(c, s, i))
    ensures PlaceOk(c.tree, i)
  {
    hide HolderOk, QueueOk;
    assert PlaceOk(c.tree, i) && NodeAt(c, s, i);
    if !c.tree[i].leaf {
      assert NodeAt(c, s, c.tree[i].loChild);
      assert NodeAt(c, s, c.tree[i].hiChild);
    }
  }

  // A change at i that its parent does not notice concerns no other node.
  lemma QuietChange(c: Config, s: State, s': State, i: nat)
    requires Inv(c, s) && 0 < i < |s.nodes| == |s'.nodes| && s'.nodes == s.nodes[i := s'.nodes[i]]
    requires NodeOk(i, c.tree[i], s'.nodes[i], LoKid(c, s, i), HiKid(c, s, i))
    requires i > MERGE_ROOT ==> KidSame(s.nodes[i], s'.nodes[i])
    ensures forall j :: 0 < j < |s'.nodes| ==> NodeAt(c, s', j)
  {
    hide NodeOk, EndOk;
    forall j | 0 < j < |s.nodes|
      ensures NodeAt(c, s', j)
    {
      assert PlaceOk(c.tree, j) && PlaceOk(c.tree, i) && NodeAt(c, s, j);
      KidsSame(j, c.tree[j], s'.nodes[j], LoKid(c, s, j), HiKid(c, s, j), LoKid(c, s', j), HiKid(c, s', j));
    }
  }

  // The parent p takes part in the step of its child i; its own parent does not notice.
  lemma SharedChange(c: Config, s: State, s': State, i: nat)
    requires Inv(c, s) && MERGE_ROOT < i < |s.nodes| == |s'.nodes|
    requires var p := c.tree[i].parent;
             PlaceOk(c.tree, i)
             && s'.nodes == s.nodes[p := s'.nodes[p]][i := s'.nodes[i]]
             && NodeOk(i, c.tree[i], s'.nodes[i], LoKid(c, s, i), HiKid(c, s, i))
             && NodeOk(p, c.tree[p], s'.nodes[p], LoKid(c, s', p), HiKid(c, s', p))
             && KidSame(s.nodes[p], s'.nodes[p])
    ensures forall j :: 0 < j < |s'.nodes| ==> NodeAt(c, s', j)
  {
    hide NodeOk, EndOk;
    var p := c.tree[i].parent;
    forall j | 0 < j < |s.nodes|
      ensures NodeAt(c, s', j)
    {
      assert PlaceOk(c.tree, j) && PlaceOk(c.tree, p) && NodeAt(c, s, j);
      if j != p {
        KidsSame(j, c.tree[j], s'.nodes[j], LoKid(c, s, j), HiKid(c, s, j), LoKid(c, s', j), HiKid(c, s', j));
      }
    }
  }

  lemma LocalStep(c: Config, s: State, step: Step)
    requires Inv(c, s) && Enabled(c, s, step) && !step.Publish? && !step.CheckParent?
    ensures Inv(c, Next(c, s, step))
  {
    var i, p, n, s' := step.i, c.tree[step.i], s.nodes[step.i], Next(c, s, step);
    Kids(c, s, i);
    var lo, hi := LoKid(c, s, i), HiKid(c, s, i);
    assert NodeOk(i, p, s'.nodes[i], lo, hi) && (i > MERGE_ROOT ==> KidSame(n, s'.nodes[i])) by {
      hide NodeOk, EndOk, Can, KidSame, Advance, KidsDelivering;
      if TakesLine(step) { TakeKeeps(c, i, p, n, lo, hi, step); }
      else if step.EndPick? { EndPickKeeps(c, i, p, n, lo, hi, step); }
      else if step.EndDrain? { EndDrainKeeps(c, i, p, n, lo, hi, step); }
      else if step.Update? || step.CheckSelf? { UpdateKeeps(c, i, p, n, lo, hi, step); }
      else { QueueKeeps(c, i, p, n, lo, hi, step); }
    }
    QuietChange(c, s, s', i);
    assert EndOk(s'.nodes[MERGE_END], s'.nodes[MERGE_ROOT]) by {
      RootKeepsEnd(c, s, step);
    }
  }

  lemma RootKeepsEnd(c: Config, s: State, step: Step)
    requires Inv(c, s) && Enabled(c, s, step) && !step.CheckParent?
    ensures var s' := Next(c, s, step); EndOk(s'.nodes[MERGE_END], s'.nodes[MERGE_ROOT])
  {
    Kids(c, s, MERGE_ROOT);
    Kids(c, s, step.i);
    hide Inv;
  }

  lemma HandOverKeeps(c: Config, i: nat, p: Place, n: Node, lo: Node, hi: Node, step: Step)
    requires NodeOk(i, p, n, lo, hi) && (step.Publish? || step.CheckParent?) && Can(n, step)
    ensures NodeOk(i, p, Advance(c, p, n, step), lo, hi)
  {
  }

  lemma PublishStep(c: Config, s: State, step: Step)
    requires Inv(c, s) && Enabled(c, s, step) && step.Publish?
    ensures Inv(c, Next(c, s, step))
  {
    var i, p, n, s' := step.i, c.tree[step.i], s.nodes[step.i], Next(c, s, step);
    Kids(c, s, i);
    assert i > MERGE_ROOT && n.out != [] && LoLeft(n) >= 0 && HiLeft(n) >= 0;
    Kids(c, s, p.parent);
    RootKeepsEnd(c, s, step);
    hide NodeOk, EndOk, Can, KidSame, Advance, KidsDelivering;
    HandOverKeeps(c, i, p, n, LoKid(c, s, i), HiKid(c, s, i), step);
    PublishKeeps(c, i, p, n, c.tree[p.parent], s.nodes[p.parent], LoKid(c, s, p.parent), HiKid(c, s, p.parent), step);
    SharedChange(c, s, s', i);
  }

  lemma NotifyStep(c: Config, s: State, step: Step)
    requires Inv(c, s) && Enabled(c, s, step) && step.CheckParent? && step.i > MERGE_ROOT
    ensures Inv(c, Next(c, s, step))
  {
    var i, p, n, s' := step.i, c.tree[step.i], s.nodes[step.i], Next(c, s, step);
    Kids(c, s, i);
    Kids(c, s, p.parent);
    assert EndOk(s'.nodes[MERGE_END], s'.nodes[MERGE_ROOT]) by {
      Kids(c, s, MERGE_ROOT);
      hide Inv, NodeOk;
    }
    hide NodeOk, EndOk, Can, KidSame, Advance, KidsDelivering;
    HandOverKeeps(c, i, p, n, LoKid(c, s, i), HiKid(c, s, i), step);
    NotifyKeeps(c, i, p, n, c.tree[p.parent], s.nodes[p.parent], LoKid(c, s, p.parent), HiKid(c, s, p.parent), step);
    SharedChange(c, s, s', i);
  }

  lemma FinishStep(c: Config, s: State, step: Step)
    requires Inv(c, s) && Enabled(c, s, step) && step.CheckParent? && step.i == MERGE_ROOT
    ensures Inv(c, Next(c, s, step))
  {
    var p, n, s' := c.tree[MERGE_ROOT], s.nodes[MERGE_ROOT], Next(c, s, step);
    Kids(c, s, MERGE_ROOT);
    HandOverKeeps(c, MERGE_ROOT, p, n, LoKid(c, s, MERGE_ROOT), HiKid(c, s, MERGE_ROOT), step);
    var s1 := s.(nodes := s.nodes[MERGE_ROOT := s'.nodes[MERGE_ROOT]]);
    hide NodeOk, KidsDelivering;
    QuietChange(c, s, s1, MERGE_ROOT);
    forall j | 0 < j < |s'.nodes|
      ensures NodeAt(c, s', j)
    {
      assert PlaceOk(c.tree, j) && NodeAt(c, s1, j);
    }
  }

  // Whatever any thread does next, the bookkeeping stays right.
  lemma StepKeepsInv(c: Config, s: State, step: Step)
    requires Inv(c, s) && Enabled(c, s, step)
    ensures Inv(c, Next(c, s, step))
  {
    if step.Publish? {
      PublishStep(c, s, step);
    } else if step.CheckParent? && step.i > MERGE_ROOT {
      NotifyStep(c, s, step);
    } else if step.CheckParent? {
      FinishStep(c, s, step);
    } else {
      LocalStep(c, s, step);
    }
  }
}
