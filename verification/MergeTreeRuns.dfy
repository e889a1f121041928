/** The merge tree as init_node and sortlines set it up, and what every run of the
    threads over it does: the root emits the stable sort of the input. */
module MergeTreeRuns {
  import opened StableSpec
  import opened SequentialSort
  import opened MergeTree
  import opened MergeTreeInv
  import opened MergeTreeSafety
  import opened MergeTreeProgress

  // Which nodes gave their halves to two threads; the others sorted them alone.
  datatype Shape = Alone | Forked(lo: Shape, hi: Shape)

  // A forked node has lines for both halves, and every thread has a line to sort.
  predicate Fits(shape: Shape, n: nat) {
    n >= 1 && (shape.Forked? ==> Fits(shape.lo, n / 2) && Fits(shape.hi, n - n / 2))
  }

  function Size(shape: Shape): (r: nat)
    ensures r > 0
  {
    match shape
    case Alone => 1
    case Forked(l, h) => 1 + Size(l) + Size(h)
  }

  // init_node fills the pool in preorder: a node at base, then its LO subtree, then its HI subtree.
  predicate Placed(tree: seq<Place>, shape: Shape, parent: nat, isLo: bool, level: nat, base: nat) {
    base + Size(shape) <= |tree|
    && match shape
       case Alone => tree[base] == Place(parent, isLo, level, true, 0, 0)
       case Forked(l, h) =>
         && tree[base] == Place(parent, isLo, level, false, base + 1, base + 1 + Size(l))
         && Placed(tree, l, base, true, level + 1, base + 1)
         && Placed(tree, h, base, false, level + 1, base + 1 + Size(l))
  }

  function NewNode(nlo: nat, nhi: nat, lo: seq<Line>, hi: seq<Line>, asleep: bool): Node {
    Node(lo, hi, nlo, nhi, Free, 0, 0, 0, [], asleep, false, 0, 0)
  }

  // A node is given half its lines on each side; one that sorts alone has both halves sorted.
  predicate Filled(cmp: Order, nodes: seq<Node>, shape: Shape, input: seq<Line>, base: nat) {
    var m := |input| / 2;
    base + Size(shape) <= |nodes|
    && match shape
       case Alone =>
         nodes[base] == NewNode(m, |input| - m, StableSort(cmp, input[..m]), StableSort(cmp, input[m..]), true)
       case Forked(l, h) =>
         && nodes[base] == NewNode(m, |input| - m, [], [], false)
         && Filled(cmp, nodes, l, input[..m], base + 1)
         && Filled(cmp, nodes, h, input[m..], base + 1 + Size(l))
  }

  ghost predicate Starts(c: Config, s: State, shape: Shape, input: seq<Line>) {
    && Fits(shape, |input|) && TotalPreorder(c.cmp)
    && |s.nodes| == |c.tree| == 1 + Size(shape)
    && Placed(c.tree, shape, MERGE_END, false, MERGE_ROOT, MERGE_ROOT)
    && s.nodes[MERGE_END] == NewNode(|input|, |input|, [], [], false)
    && Filled(c.cmp, s.nodes, shape, input, MERGE_ROOT)
    && s.emitted == [] && s.written == []
  }

  lemma {:induction false} PlacedOk(tree: seq<Place>, shape: Shape, parent: nat, isLo: bool, level: nat, base: nat)
    requires Placed(tree, shape, parent, isLo, level, base) && parent < base
    requires 0 < level && (base == MERGE_ROOT <==> level == MERGE_ROOT)
    requires base > MERGE_ROOT ==>
               0 < parent && !tree[parent].leaf && base == (if isLo then tree[parent].loChild else tree[parent].hiChild)
    ensures forall i :: base <= i < base + Size(shape) ==> PlaceOk(tree, i)
  {
    if shape.Forked? {
      PlacedOk(tree, shape.lo, base, true, level + 1, base + 1);
      PlacedOk(tree, shape.hi, base, false, level + 1, base + 1 + Size(shape.lo));
    }
  }

  lemma HalvesSorted(cmp: Order, input: seq<Line>)
    requires TotalPreorder(cmp)
    ensures var m := |input| / 2;
            StableSortOf(cmp, input, Merge(cmp, StableSort(cmp, input[..m]), StableSort(cmp, input[m..])))
  {
    var m := |input| / 2;
    hide *;
    assert input[..m] + input[m..] == input;
    StableSortCorrect(cmp, input[..m]);
    StableSortCorrect(cmp, input[m..]);
    MergeStable(cmp, input[..m], input[m..], StableSort(cmp, input[..m]), StableSort(cmp, input[m..]));
  }

  lemma {:induction false} AloneOk(c: Config, s: State, parent: nat, isLo: bool, level: nat, base: nat, input: seq<Line>)
    requires TreeOk(c.tree) && |s.nodes| == |c.tree| && 0 < base && TotalPreorder(c.cmp)
    requires Placed(c.tree, Alone, parent, isLo, level, base)
    requires Filled(c.cmp, s.nodes, Alone, input, base) && Fits(Alone, |input|)
    ensures base < |s.nodes| && NodeAt(c, s, base)
    ensures StableSortOf(c.cmp, input, Rest(c, s, base))
  {
    hide TotalPreorder, StableSort, StableSortOf, Merge;
    HalvesSorted(c.cmp, input);
  }

  lemma {:induction false} FirstNode(cmp: Order, nodes: seq<Node>, shape: Shape, input: seq<Line>, base: nat)
    requires Filled(cmp, nodes, shape, input, base)
    ensures var n := nodes[base]; n.nlo + n.nhi == |input| && n.takenLo == 0 && n.takenHi == 0 && n.out == []
  {
  }

  lemma {:induction false} ForkedOk(c: Config, s: State, base: nat, n: nat)
    requires TreeOk(c.tree) && 0 < base < |s.nodes| == |c.tree|
    requires var p := c.tree[base];
             && !p.leaf && PlaceOk(c.tree, base)
             && s.nodes[base] == NewNode(n / 2, n - n / 2, [], [], false)
             && (var l := s.nodes[p.loChild]; l.nlo + l.nhi == n / 2 && l.takenLo == 0 && l.takenHi == 0 && l.out == [])
             && (var h := s.nodes[p.hiChild]; h.nlo + h.nhi == n - n / 2 && h.takenLo == 0 && h.takenHi == 0 && h.out == [])
    ensures NodeAt(c, s, base)
    ensures Rest(c, s, base) == Merge(c.cmp, Rest(c, s, c.tree[base].loChild), Rest(c, s, c.tree[base].hiChild))
  {
    hide TreeOk, Merge;
    var l, h := Rest(c, s, c.tree[base].loChild), Rest(c, s, c.tree[base].hiChild);
    assert [] + ([] + l) == l && [] + ([] + h) == h;
  }

  lemma {:induction false} ForkedFits(l: Shape, h: Shape, n: nat)
    requires Fits(Forked(l, h), n)
    ensures Fits(l, n / 2) && Fits(h, n - n / 2)
  {
  }

  lemma {:induction false} ForkedPlaced(tree: seq<Place>, l: Shape, h: Shape, parent: nat, isLo: bool, level: nat, base: nat)
    requires Placed(tree, Forked(l, h), parent, isLo, level, base)
    ensures base + 1 + Size(l) + Size(h) <= |tree|
    ensures !tree[base].leaf && tree[base].loChild == base + 1 && tree[base].hiChild == base + 1 + Size(l)
    ensures Placed(tree, l, base, true, level + 1, base + 1)
    ensures Placed(tree, h, base, false, level + 1, base + 1 + Size(l))
  {
  }

  lemma {:induction false} ForkedFilled(cmp: Order, nodes: seq<Node>, l: Shape, h: Shape, input: seq<Line>, base: nat)
    requires Filled(cmp, nodes, Forked(l, h), input, base)
    ensures var n := |input|; base < |nodes| && nodes[base] == NewNode(n / 2, n - n / 2, [], [], false)
    ensures Filled(cmp, nodes, l, input[..|input| / 2], base + 1)
    ensures Filled(cmp, nodes, h, input[|input| / 2..], base + 1 + Size(l))
  {

  }

  lemma PlaceAt(tree: seq<Place>, i: nat)
    requires TreeOk(tree) && 0 < i < |tree|
    ensures PlaceOk(tree, i)
  {
  }

  // Each subtree starts out consistent, and holds the stable sort of its share of the input.
  lemma {:induction false} FilledOk(c: Config, s: State, shape: Shape, parent: nat, isLo: bool, level: nat, base: nat,
                                    input: seq<Line>)
    requires TreeOk(c.tree) && |s.nodes| == |c.tree| && 0 < base && TotalPreorder(c.cmp)
    requires Placed(c.tree, shape, parent, isLo, level, base)
    requires Filled(c.cmp, s.nodes, shape, input, base) && Fits(shape, |input|)
    ensures forall i :: base <= i < base + Size(shape) ==> NodeAt(c, s, i)
    ensures StableSortOf(c.cmp, input, Rest(c, s, base))
  {
    hide TotalPreorder, StableSortOf, StableSort, NodeAt, Rest, Merge, TreeOk, Placed, Filled, Fits;
    match shape
    case Alone =>
      AloneOk(c, s, parent, isLo, level, base, input);
    case Forked(l, h) =>
      var lo, hi := input[..|input| / 2], input[|input| / 2..];
      var mid := base + 1 + Size(l);
      ForkedPlaced(c.tree, l, h, parent, isLo, level, base);
      ForkedFilled(c.cmp, s.nodes, l, h, input, base);
      PlaceAt(c.tree, base);
      FirstNode(c.cmp, s.nodes, l, lo, base + 1);
      FirstNode(c.cmp, s.nodes, h, hi, mid);
      ForkedOk(c, s, base, |input|);
      assert Fits(l, |lo|) && Fits(h, |hi|) by { ForkedFits(l, h, |input|); }
      FilledOk(c, s, l, base, true, level + 1, base + 1, lo);
      FilledOk(c, s, h, base, false, level + 1, mid, hi);
      assert lo + hi == input;
      MergeStable(c.cmp, lo, hi, Rest(c, s, base + 1), Rest(c, s, mid));
  }

  lemma {:induction false} RootFree(cmp: Order, nodes: seq<Node>, shape: Shape, input: seq<Line>, base: nat)
    requires Filled(cmp, nodes, shape, input, base)
    ensures nodes[base].phase == Free
  {
  }

  lemma {:induction false} StartOk(c: Config, s: State, shape: Shape, input: seq<Line>)
    requires Starts(c, s, shape, input)
    ensures Inv(c, s)
    ensures Whole(c, s) == StableSort(c.cmp, input)
  {
    PlacedOk(c.tree, shape, MERGE_END, false, MERGE_ROOT, MERGE_ROOT);
    hide TotalPreorder, StableSortOf, StableSort, NodeAt, Rest, Placed, Filled;
    FilledOk(c, s, shape, MERGE_END, false, MERGE_ROOT, MERGE_ROOT, input);
    assert [] + Rest(c, s, MERGE_ROOT) == Rest(c, s, MERGE_ROOT);
    StableSortOnly(c.cmp, input, Rest(c, s, MERGE_ROOT));
    FirstNode(c.cmp, s.nodes, shape, input, MERGE_ROOT);
    RootFree(c.cmp, s.nodes, shape, input, MERGE_ROOT);
  }

  // ---------------------------------------------------------------- runs

  // Steps taken by any number of threads, in any order.
  ghost predicate IsRun(c: Config, states: seq<State>, steps: seq<Step>) {
    && |states| == |steps| + 1
    && forall k :: 0 <= k < |steps| ==> Enabled(c, states[k], steps[k]) && states[k + 1] == Next(c, states[k], steps[k])
  }

  ghost function Written(c: Config, emitted: seq<Line>): seq<Line> {
    if c.unique then Uniq(c.cmp, emitted) else emitted
  }

  lemma {:induction false} StepWrites(c: Config, s: State, step: Step)
    requires Enabled(c, s, step) && TotalPreorder(c.cmp) && s.written == Written(c, s.emitted)
    ensures Next(c, s, step).written == Written(c, Next(c, s, step).emitted)
  {
    hide TotalPreorder, Advance, Receive, Notify;
    var n := s.nodes[step.i];
    if TakesLine(step) && c.tree[step.i].level <= MERGE_ROOT {
      var line := if FromLo(c, n) then n.lo[0] else n.hi[0];
      UniqSnoc(c.cmp, s.emitted, line);
      if c.unique && s.emitted != [] {
        Opposite(c.cmp, line, LastKept(c.cmp, s.emitted));
      }
    }
  }

  lemma {:induction false} RunKeeps(c: Config, states: seq<State>, steps: seq<Step>, k: nat)
    requires IsRun(c, states, steps) && k < |states| && TotalPreorder(c.cmp)
    requires Inv(c, states[0]) && states[0].written == Written(c, states[0].emitted)
    ensures Inv(c, states[k]) && Whole(c, states[k]) == Whole(c, states[0])
    ensures states[k].written == Written(c, states[k].emitted)
    ensures Total(states[k].nodes) + k <= Total(states[0].nodes)
  {
    if k > 0 {
      RunKeeps(c, states, steps, k - 1);
      var s, step := states[k - 1], steps[k - 1];
      hide Inv, Whole, Total, Written, TotalPreorder;
      assert Enabled(c, s, step) && states[k] == Next(c, s, step);
      StepKeepsInv(c, s, step);
      StepKeepsWhole(c, s, step);
      StepUsesPotential(c, s, step);
      StepWrites(c, s, step);
    }
  }

  // The lines held at node i and below it.
  ghost function Held(c: Config, s: State, i: nat): multiset<Line>
    requires TreeOk(c.tree) && 0 < i < |s.nodes| == |c.tree|
    decreases |c.tree| - i
  {
    var p, n := c.tree[i], s.nodes[i];
    assert PlaceOk(c.tree, i);
    multiset(n.out) + multiset(n.lo) + multiset(n.hi)
    + if p.leaf then multiset{} else Held(c, s, p.loChild) + Held(c, s, p.hiChild)
  }

  lemma {:induction false} HeldIsDelivery(c: Config, s: State, i: nat)
    requires TreeOk(c.tree) && 0 < i < |s.nodes| == |c.tree|
    ensures Held(c, s, i) == multiset(Delivery(c, s, i))
    decreases |c.tree| - i
  {
    assert PlaceOk(c.tree, i);
    RestSides(c, s, i);
    MergeMembers(c.cmp, s.nodes[i].lo + LoSide(c, s, i), s.nodes[i].hi + HiSide(c, s, i));
    if !c.tree[i].leaf {
      HeldIsDelivery(c, s, c.tree[i].loChild);
      HeldIsDelivery(c, s, c.tree[i].hiChild);
    }
  }

  // Safety, in every interleaving: the root has emitted a beginning of the stable sort, no
  // line is lost or doubled, and the output file holds what -u keeps of the emitted lines.
  lemma EveryRunIsSafe(c: Config, states: seq<State>, steps: seq<Step>, shape: Shape, input: seq<Line>, k: nat)
    requires IsRun(c, states, steps) && Starts(c, states[0], shape, input) && k < |states|
    ensures Inv(c, states[k])
    ensures states[k].emitted <= StableSort(c.cmp, input)
    ensures multiset(states[k].emitted) + Held(c, states[k], MERGE_ROOT) == multiset(input)
    ensures states[k].written == Written(c, states[k].emitted)
    ensures states[k].written <= Written(c, StableSort(c.cmp, input))
  {
    StartOk(c, states[0], shape, input);
    RunKeeps(c, states, steps, k);
    var s := states[k];
    var rest := Rest(c, s, MERGE_ROOT);
    assert s.emitted + rest == StableSort(c.cmp, input);
    UniqPrefix(c.cmp, s.emitted, rest);
    HeldIsDelivery(c, s, MERGE_ROOT);
    RootDelivery(c, s);
    StableSortCorrect(c.cmp, input);
    SameClassesPermutation(c.cmp, input, StableSort(c.cmp, input));
  }

  lemma EndQueued(c: Config, s: State)
    requires Inv(c, s)
    ensures s.nodes[MERGE_END].inHeap <= 1
    ensures s.nodes[MERGE_END].inHeap == 1 <==>
              s.nodes[MERGE_ROOT].nlo + s.nodes[MERGE_ROOT].nhi == 0 && s.nodes[MERGE_ROOT].phase == Free
  {
    hide NodeAt, TreeOk;
  }

  lemma EndIsDone(c: Config, s: State)
    requires Inv(c, s) && s.nodes[MERGE_END].inHeap == 1
    ensures s.emitted == Whole(c, s)
  {
    Kids(c, s, MERGE_ROOT);
    RestLength(c, s, MERGE_ROOT);
    var rest := Rest(c, s, MERGE_ROOT);
    hide NodeAt, Rest, TreeOk;
    assert rest == [];
    assert s.emitted + [] == s.emitted;
  }

  // MERGE_END is queued exactly when the root has no line left to take and has said so.
  lemma EndMeansDone(c: Config, states: seq<State>, steps: seq<Step>, shape: Shape, input: seq<Line>, k: nat)
    requires IsRun(c, states, steps) && Starts(c, states[0], shape, input) && k < |states|
    ensures states[k].nodes != [] && states[k].nodes[MERGE_END].inHeap <= 1
    ensures states[k].nodes[MERGE_END].inHeap == 1 ==>
              states[k].emitted == StableSort(c.cmp, input)
              && states[k].written == Written(c, StableSort(c.cmp, input))
    ensures var s := states[k];
            s.nodes[MERGE_END].inHeap == 1 <==>
              |s.nodes| > 1 && s.nodes[MERGE_ROOT].nlo + s.nodes[MERGE_ROOT].nhi == 0 && s.nodes[MERGE_ROOT].phase == Free
  {
    StartOk(c, states[0], shape, input);
    RunKeeps(c, states, steps, k);
    var s := states[k];
    EndQueued(c, s);
    hide Whole, Starts, IsRun, StableSort, NodeAt, Inv;
    if s.nodes[MERGE_END].inHeap == 1 {
      EndIsDone(c, s);
    }
  }

  /** What the steps of a run have to use up: some potential for every line at every node. */
  function Work(shape: Shape, n: nat): nat {
    match shape
    case Alone => 15 * n + 5
    case Forked(l, h) => 15 * n + Work(l, n / 2) + Work(h, n - n / 2)
  }

  lemma {:induction false} TotalConcat(a: seq<Node>, b: seq<Node>)
    ensures Total(a + b) == Total(a) + Total(b)
  {
    if a == [] {
      assert a + b == b;
    } else {
      assert (a + b)[1..] == a[1..] + b;
      TotalConcat(a[1..], b);
    }
  }

  lemma TotalOne(n: Node)
    ensures Total([n]) == Potential(n)
  {
    assert [n][1..] == [];
  }

  lemma SplitNodes(nodes: seq<Node>, base: nat, mid: nat, end: nat)
    requires base < mid <= end <= |nodes|
    ensures nodes[base..end] == [nodes[base]] + (nodes[base + 1..mid] + nodes[mid..end])
    ensures end == base + 1 ==> nodes[base..end] == [nodes[base]]
  {
  }

  lemma WorkOf(l: Shape, h: Shape, n: nat)
    ensures Work(Alone, n) == 15 * n + 5
    ensures Work(Forked(l, h), n) == 15 * n + Work(l, n / 2) + Work(h, n - n / 2)
    ensures Size(Alone) == 1 && Size(Forked(l, h)) == 1 + Size(l) + Size(h)
  {
  }

  lemma {:induction false} FirstWork(cmp: Order, nodes: seq<Node>, shape: Shape, input: seq<Line>, base: nat)
    requires Filled(cmp, nodes, shape, input, base)
    ensures base + Size(shape) <= |nodes| && base < |nodes|
    ensures Potential(nodes[base]) == 15 * |input| + if shape.Alone? then 5 else 0
  {
    hide StableSort;
  }

  lemma {:induction false} TotalFilled(cmp: Order, nodes: seq<Node>, shape: Shape, input: seq<Line>, base: nat)
    requires Filled(cmp, nodes, shape, input, base)
    ensures base + Size(shape) <= |nodes| && Total(nodes[base..base + Size(shape)]) == Work(shape, |input|)
  {
    hide *;
    var m, end := |input| / 2, base + Size(shape);
    FirstWork(cmp, nodes, shape, input, base);
    TotalOne(nodes[base]);
    match shape
    case Alone =>
      WorkOf(Alone, Alone, |input|);
      SplitNodes(nodes, base, end, end);
    case Forked(l, h) =>
      var mid := base + 1 + Size(l);
      WorkOf(l, h, |input|);
      ForkedFilled(cmp, nodes, l, h, input, base);
      TotalFilled(cmp, nodes, l, input[..m], base + 1);
      TotalFilled(cmp, nodes, h, input[m..], mid);
      SplitNodes(nodes, base, mid, end);
      TotalConcat(nodes[base + 1..mid], nodes[mid..end]);
      TotalConcat([nodes[base]], nodes[base + 1..mid] + nodes[mid..end]);
  }

  lemma StartParts(c: Config, s: State, shape: Shape, input: seq<Line>)
    requires Starts(c, s, shape, input)
    ensures |s.nodes| == 1 + Size(shape) && Filled(c.cmp, s.nodes, shape, input, 1)
    ensures Potential(s.nodes[0]) == 30 * |input|
  {
    hide Filled, Placed, Fits, TotalPreorder;
  }

  lemma TotalAtStart(c: Config, s: State, shape: Shape, input: seq<Line>)
    requires Starts(c, s, shape, input)
    ensures Total(s.nodes) == 30 * |input| + Work(shape, |input|)
  {
    hide *;
    StartParts(c, s, shape, input);
    TotalFilled(c.cmp, s.nodes, shape, input, 1);
    TotalOne(s.nodes[0]);
    TotalConcat([s.nodes[0]], s.nodes[1..1 + Size(shape)]);
    assert s.nodes == [s.nodes[0]] + s.nodes[1..1 + Size(shape)];
  }

  // Progress: a run cannot be longer than its start allows, and as long as MERGE_END is not
  // queued, it can be continued; so every run leads to MERGE_END, and lets every thread leave.
  lemma EveryRunEnds(c: Config, states: seq<State>, steps: seq<Step>, shape: Shape, input: seq<Line>) returns (step: Step)
    requires IsRun(c, states, steps) && Starts(c, states[0], shape, input)
    ensures |steps| <= 30 * |input| + Work(shape, |input|)
    ensures states[|steps|].nodes != []
    ensures states[|steps|].nodes[MERGE_END].inHeap == 1 || Enabled(c, states[|steps|], step)
  {
    StartOk(c, states[0], shape, input);
    RunKeeps(c, states, steps, |steps|);
    var s := states[|steps|];
    TotalAtStart(c, states[0], shape, input);
    TotalNonNegative(c, s);
    EndMeansDone(c, states, steps, shape, input, |steps|);
    step := CheckSelf(0);
    if s.nodes[MERGE_END].inHeap == 0 {
      step := NeverStuck(c, s);
    }
  }

  lemma QueueAt(c: Config, s: State, i: nat)
    requires Inv(c, s) && 0 < i < |s.nodes|
    ensures var n := s.nodes[i];
            && n.inHeap + n.claimed <= 1
            && |s.nodes| == |c.tree|
            && (n.inHeap + n.claimed == 1 ==> Ready(n))
            && (Ready(n) && n.phase == Free && !n.asleep && n.inHeap + n.claimed == 0 ==>
                  exists j :: 0 < j < |s.nodes| && c.tree[j].parent == i && Announcing(s.nodes[j].phase))
  {
    Kids(c, s, i);
    hide Inv, HolderOk, CountsOk;
    var p := c.tree[i];
    if !p.leaf {
      assert c.tree[p.loChild].parent == i && c.tree[p.hiChild].parent == i;
      assert LoKid(c, s, i) == s.nodes[p.loChild] && HiKid(c, s, i) == s.nodes[p.hiChild];
    }
  }

  // A node is in the heap at most once, counting pops that wait for its lock; a queued node
  // has work; a node with work is queued, or held, or about to be looked at by a child.
  lemma QueueDiscipline(c: Config, states: seq<State>, steps: seq<Step>, shape: Shape, input: seq<Line>, k: nat, i: nat)
    requires IsRun(c, states, steps) && Starts(c, states[0], shape, input) && k < |states| && 0 < i < |states[k].nodes|
    ensures var n := states[k].nodes[i];
            && n.inHeap + n.claimed <= 1
            && (n.inHeap + n.claimed == 1 ==> Ready(n))
    ensures var s, n := states[k], states[k].nodes[i];
            Ready(n) && n.phase == Free && !n.asleep && n.inHeap + n.claimed == 0 ==>
              exists j :: 0 < j < |s.nodes| == |c.tree| && c.tree[j].parent == i && Announcing(s.nodes[j].phase)
  {
    StartOk(c, states[0], shape, input);
    RunKeeps(c, states, steps, k);
    hide *;
    QueueAt(c, states[k], i);
  }

  function Owed(n: Node): nat { n.nlo + n.nhi }

  lemma UpdateTakes(c: Config, s: State, step: Step)
    requires Inv(c, s) && Enabled(c, s, step)
    ensures |Next(c, s, step).nodes| == |s.nodes|
    ensures step.Update? ==> Owed(Next(c, s, step).nodes[step.i]) < Owed(s.nodes[step.i])
    ensures forall j :: 0 <= j < |s.nodes| && !(step.Update? && j == step.i) ==>
              Owed(Next(c, s, step).nodes[j]) == Owed(s.nodes[j])
  {
    Kids(c, s, step.i);
  }

  // A node that was popped has moved at least one line when it is updated, and no other step
  // changes what a node is owed: so the sum over the tree falls with every pop that is done with.
  lemma EveryPopMovesLines(c: Config, states: seq<State>, steps: seq<Step>, shape: Shape, input: seq<Line>, k: nat)
    requires IsRun(c, states, steps) && Starts(c, states[0], shape, input) && k < |steps|
    ensures |states[k + 1].nodes| == |states[k].nodes| && steps[k].i < |states[k].nodes|
    ensures steps[k].Update? ==> Owed(states[k + 1].nodes[steps[k].i]) < Owed(states[k].nodes[steps[k].i])
    ensures forall j :: 0 <= j < |states[k].nodes| && !(steps[k].Update? && j == steps[k].i) ==>
              Owed(states[k + 1].nodes[j]) == Owed(states[k].nodes[j])
  {
    StartOk(c, states[0], shape, input);
    RunKeeps(c, states, steps, k);
    hide Inv, Next, Starts, Owed;
    UpdateTakes(c, states[k], steps[k]);
  }
}
