/** Progress of the merge tree: it never gets stuck before the root is done, and it
    cannot run for ever. */
module MergeTreeProgress {
  import opened StableSpec
  import opened MergeTree
  import opened MergeTreeInv

  // A held node's holder can go on, or waits for a parent whose holder can.
  lemma {:induction false} HolderCanStep(c: Config, s: State, i: nat) returns (step: Step)
    requires Inv(c, s) && 0 < i < |s.nodes| && s.nodes[i].phase != Free
    ensures Enabled(c, s, step)
    decreases i
  {
    Kids(c, s, i);
    var n, p := s.nodes[i], c.tree[i].parent;
    match n.phase
    case Picking => step := if n.lo != [] && n.hi != [] && n.quota > 0 then PickLine(i) else EndPick(i);
    case DrainLo => step := if n.lo != [] && n.quota > 0 then DrainLine(i) else EndDrain(i);
    case DrainHi => step := if n.hi != [] && n.quota > 0 then DrainLine(i) else EndDrain(i);
    case Publishing => step := Publish(i);
    case Updating => step := Update(i);
    case CheckingSelf => step := CheckSelf(i);
    case CheckingParent =>
      if i > MERGE_ROOT && s.nodes[p].phase != Free {
        step := HolderCanStep(c, s, p);
      } else {
        step := CheckParent(i);
      }
  }

  // Nobody holds or wants the node.
  predicate Quiet(n: Node) { n.phase == Free && !n.asleep && n.inHeap == 0 && n.claimed == 0 }

  // In a tree where nothing happens, nothing is left to do.
  lemma {:induction false} QuietIsDone(c: Config, s: State, i: nat)
    requires Inv(c, s) && 0 < i < |s.nodes|
    requires forall k :: 0 < k < |s.nodes| ==> Quiet(s.nodes[k])
    ensures s.nodes[i].nlo + s.nodes[i].nhi == 0
    decreases |s.nodes| - i
  {
    Kids(c, s, i);
    assert Quiet(s.nodes[i]);
    if !c.tree[i].leaf {
      var l, h := c.tree[i].loChild, c.tree[i].hiChild;
      Kids(c, s, l);
      Kids(c, s, h);
      assert Quiet(s.nodes[l]) && Quiet(s.nodes[h]);
      QuietIsDone(c, s, l);
      QuietIsDone(c, s, h);
    }
  }

  // Until MERGE_END is queued, some thread can make a step.
  lemma NeverStuck(c: Config, s: State) returns (step: Step)
    requires Inv(c, s) && s.nodes[MERGE_END].inHeap == 0
    ensures Enabled(c, s, step)
  {
    if i :| 0 < i < |s.nodes| && !Quiet(s.nodes[i]) {
      Kids(c, s, i);
      var n := s.nodes[i];
      if n.phase != Free {
        step := HolderCanStep(c, s, i);
      } else if n.asleep {
        step := Install(i);
      } else if n.inHeap > 0 {
        step := Pop(i);
      } else {
        step := Lock(i);
      }
    } else {
      QuietIsDone(c, s, MERGE_ROOT);
      assert false;
    }
  }

  // ------------------------------------------------------------ termination

  function PhaseWeight(n: Node): nat {
    match n.phase
    case Free => 0
    case Picking => if n.takenLo + n.takenHi == 0 then 2 else 16
    case DrainLo => if n.takenLo + n.takenHi == 0 then 1 else 15
    case DrainHi => if n.takenLo + n.takenHi == 0 then 1 else 15
    case Publishing => 14
    case Updating => 13
    case CheckingSelf => 12
    case CheckingParent => 7
  }

  function Potential(n: Node): int {
    15 * (LoLeft(n) + HiLeft(n)) + (if n.asleep then 5 else 0) + 4 * n.inHeap + 3 * n.claimed + PhaseWeight(n)
  }

  function Total(nodes: seq<Node>): int {
    if nodes == [] then 0 else Potential(nodes[0]) + Total(nodes[1..])
  }

  lemma {:induction false} TotalUpdate(nodes: seq<Node>, i: nat, n: Node)
    requires i < |nodes|
    ensures Total(nodes[i := n]) == Total(nodes) - Potential(nodes[i]) + Potential(n)
  {
    if i > 0 {
      TotalUpdate(nodes[1..], i - 1, n);
      assert nodes[i := n][1..] == nodes[1..][i - 1 := n];
    } else {
      assert nodes[i := n][1..] == nodes[1..];
    }
  }

  lemma OwnPotential(c: Config, i: nat, p: Place, n: Node, lo: Node, hi: Node, step: Step)
    requires 0 < i && NodeOk(i, p, n, lo, hi) && KidsDelivering(p, lo, hi) && Can(n, step)
    ensures Potential(Advance(c, p, n, step)) < Potential(n)
    ensures step.CheckParent? ==> Potential(Advance(c, p, n, step)) + 4 < Potential(n)
  {
  }

  lemma ParentPotential(p: Place, n: Node, m: Node)
    ensures Potential(Receive(p, n, m)) == Potential(m)
    ensures Potential(Notify(p, n, m)) <= Potential(m) + 4
  {
  }

  // Every step uses up some of the potential, whatever its kind and whoever takes it.
  lemma StepUsesPotential(c: Config, s: State, step: Step)
    requires Inv(c, s) && Enabled(c, s, step)
    ensures Total(Next(c, s, step).nodes) < Total(s.nodes)
  {
    var i, p, n := step.i, c.tree[step.i], s.nodes[step.i];
    var n' := Advance(c, p, n, step);
    Kids(c, s, i);
    OwnPotential(c, i, p, n, LoKid(c, s, i), HiKid(c, s, i), step);
    var m := s.nodes[p.parent];
    ParentPotential(p, n, m);
    TotalUpdate(s.nodes, i, n');
    hide NodeOk, Can, NodeAt, Advance, Potential, Inv, Receive, Notify;
    if step.Publish? || step.CheckParent? {
      var m' := if step.Publish? then Receive(p, n, m) else Notify(p, n, m);
      TotalUpdate(s.nodes, p.parent, m');
      TotalUpdate(s.nodes[p.parent := m'], i, n');
    }
  }

  lemma {:induction false} TotalFrom(c: Config, s: State, i: nat)
    requires Inv(c, s) && 0 < i <= |s.nodes|
    ensures Total(s.nodes[i..]) >= 0
    decreases |s.nodes| - i
  {
    if i < |s.nodes| {
      Kids(c, s, i);
      TotalFrom(c, s, i + 1);
      assert s.nodes[i..][1..] == s.nodes[i + 1..];
    }
  }

  lemma TotalNonNegative(c: Config, s: State)
    requires Inv(c, s)
    ensures Total(s.nodes) >= 0
  {
    TotalFrom(c, s, 1);
  }
}
