/** The concurrent phase of the internal sort: threads repeatedly pop a node of a
    binary merge tree from a shared queue, merge some of the lines its children have
    delivered, publish them to its parent, and queue whatever can now be worked on.

    The threads carry no state of their own: a thread in merge_loop holds exactly
    one node, so its program counter is kept as the phase of that node, and a step
    belongs to whichever thread holds (or pops) the node. */
module MergeTree {
  import opened StableSpec

  // Where a node sits.  Nodes are numbered as init_node allocates them: a parent
  // comes before its children, 0 is the MERGE_END node and 1 the MERGE_ROOT node.
  datatype Place = Place(parent: nat, isLo: bool, level: nat, leaf: bool, loChild: nat, hiChild: nat)

  datatype Config = Config(cmp: Order, tree: seq<Place>, totalLines: nat, sizeMax: nat, unique: bool)

  datatype Phase =
    | Free            // nobody holds the node's lock
    | Picking         // mergelines_node, both sides have lines
    | DrainLo         // mergelines_node, HI used up for good
    | DrainHi         // mergelines_node, LO used up for good
    | Publishing      // about to store *node->dest
    | Updating        // about to lower nlo and nhi
    | CheckingSelf    // about to requeue the node
    | CheckingParent  // about to lock the parent and queue it

  /** lo and hi are the lines available from each side and not yet taken (an asleep leaf
      has its lines ready; its sorting thread has not inserted it).  nlo and nhi count the
      lines still to come from each side, as of the last update; takenLo and takenHi what
      the present holder has taken since, and out what it has merged and not published.
      inHeap and claimed count the node's entries in the heap and its pops still waiting
      for its lock; queued is the flag the program keeps. */
  datatype Node = Node(
    lo: seq<Line>, hi: seq<Line>, nlo: nat, nhi: nat,
    phase: Phase, takenLo: nat, takenHi: nat, quota: nat, out: seq<Line>,
    asleep: bool, queued: bool, inHeap: nat, claimed: nat)

  // emitted: the lines the root has taken; written: what has gone to the output file.
  datatype State = State(nodes: seq<Node>, emitted: seq<Line>, written: seq<Line>)

  datatype Step =
    | Install(i: nat)
    | Pop(i: nat)
    | Lock(i: nat)
    | PickLine(i: nat)
    | EndPick(i: nat)
    | DrainLine(i: nat)
    | EndDrain(i: nat)
    | Publish(i: nat)
    | Update(i: nat)
    | CheckSelf(i: nat)
    | CheckParent(i: nat)

  const MERGE_END := 0
  const MERGE_ROOT := 1

  // ---------------------------------------------------------------- the program

  function Shift(n: nat, twos: nat): nat {
    if twos == 0 then n else Shift(n / 2, twos - 1)
  }

  function MaxMerge(total: nat, level: nat): (r: nat)
    ensures r >= 1
  {
    Shift(total, 2 * (level + 1)) + 1
  }

  // queue_check_insert's test for work
  predicate Ready(n: Node) {
    if n.lo != [] then n.hi != [] || n.nhi == 0 else n.hi != [] && n.nlo == 0
  }

  function Insert(n: Node): Node {
    n.(inHeap := n.inHeap + 1, queued := true)
  }

  function CheckInsert(n: Node): Node {
    if !n.queued && Ready(n) then Insert(n) else n
  }

  function TakeLo(n: Node, root: bool): Node
    requires n.lo != []
  {
    n.(lo := n.lo[1..], takenLo := n.takenLo + 1, out := if root then n.out else n.out + [n.lo[0]])
  }

  function TakeHi(n: Node, root: bool): Node
    requires n.hi != []
  {
    n.(hi := n.hi[1..], takenHi := n.takenHi + 1, out := if root then n.out else n.out + [n.hi[0]])
  }

  // The step is possible for a node n, its parent's lock aside.
  predicate Can(n: Node, step: Step) {
    match step
    case Install(_) => n.asleep
    case Pop(_) => n.inHeap > 0
    case Lock(_) => n.claimed > 0 && n.phase == Free
    case PickLine(_) => n.phase == Picking && n.lo != [] && n.hi != [] && n.quota > 0
    case EndPick(_) => n.phase == Picking && !(n.lo != [] && n.hi != [] && n.quota > 0)
    case DrainLine(_) => (n.phase == DrainLo && n.lo != [] && n.quota > 0) || (n.phase == DrainHi && n.hi != [] && n.quota > 0)
    case EndDrain(_) => (n.phase == DrainLo && !(n.lo != [] && n.quota > 0)) || (n.phase == DrainHi && !(n.hi != [] && n.quota > 0))
    case Publish(_) => n.phase == Publishing
    case Update(_) => n.phase == Updating && n.takenLo <= n.nlo && n.takenHi <= n.nhi
    case CheckSelf(_) => n.phase == CheckingSelf
    case CheckParent(_) => n.phase == CheckingParent
  }

  // The line that PickLine or DrainLine takes comes from LO.
  predicate FromLo(c: Config, n: Node)
    requires n.phase == Picking ==> n.lo != [] && n.hi != []
  {
    if n.phase == Picking then c.cmp(n.lo[0], n.hi[0]) <= 0 else n.phase == DrainLo
  }

  // What the step makes of the node it is about.
  function Advance(c: Config, p: Place, n: Node, step: Step): Node
    requires Can(n, step)
  {
    var root := p.level <= MERGE_ROOT;
    match step
    case Install(_) => Insert(n.(asleep := false))
    case Pop(_) => n.(inHeap := n.inHeap - 1, claimed := n.claimed + 1)
    case Lock(_) =>
      n.(claimed := n.claimed - 1, queued := false, phase := Picking,
         takenLo := 0, takenHi := 0, quota := MaxMerge(c.totalLines, p.level))
    case PickLine(_) => (if FromLo(c, n) then TakeLo(n, root) else TakeHi(n, root)).(quota := n.quota - 1)
    case EndPick(_) =>
      // the post-decrement in the loop test wraps a zero quota around
      n.(quota := if n.lo != [] && n.hi != [] then c.sizeMax else n.quota,
         phase := if n.nhi == n.takenHi then DrainLo else if n.nlo == n.takenLo then DrainHi
                  else if root then Updating else Publishing)
    case DrainLine(_) => (if FromLo(c, n) then TakeLo(n, root) else TakeHi(n, root)).(quota := n.quota - 1)
    case EndDrain(_) => n.(phase := if root then Updating else Publishing)
    case Publish(_) => n.(out := [], phase := Updating)
    case Update(_) => n.(nlo := n.nlo - n.takenLo, nhi := n.nhi - n.takenHi, takenLo := 0, takenHi := 0, phase := CheckingSelf)
    case CheckSelf(_) => CheckInsert(n).(phase := CheckingParent)
    case CheckParent(_) => n.(phase := Free)
  }

  // What publishing does to the parent: *node->dest is the parent's end_lo or end_hi.
  function Receive(p: Place, n: Node, parent: Node): Node {
    if p.isLo then parent.(lo := parent.lo + n.out) else parent.(hi := parent.hi + n.out)
  }

  // queue_check_insert_parent: MERGE_END is inserted without a test of its own.
  function Notify(p: Place, n: Node, parent: Node): Node {
    if p.level > MERGE_ROOT then CheckInsert(parent) else if n.nlo + n.nhi == 0 then Insert(parent) else parent
  }

  predicate Enabled(c: Config, s: State, step: Step) {
    && 0 < step.i < |s.nodes| == |c.tree| && c.tree[step.i].parent < step.i
    && Can(s.nodes[step.i], step)
    && (step.CheckParent? && c.tree[step.i].level > MERGE_ROOT ==> s.nodes[c.tree[step.i].parent].phase == Free)
  }

  predicate TakesLine(step: Step) { step.PickLine? || step.DrainLine? }

  // write_unique: under -u a line that compares equal to the last one written is dropped.
  function WriteUnique(c: Config, written: seq<Line>, x: Line): seq<Line> {
    if c.unique && written != [] && c.cmp(x, written[|written| - 1]) == 0 then written else written + [x]
  }

  function Next(c: Config, s: State, step: Step): State
    requires Enabled(c, s, step)
  {
    var i, p, n := step.i, c.tree[step.i], s.nodes[step.i];
    var n' := Advance(c, p, n, step);
    if TakesLine(step) && p.level <= MERGE_ROOT then
      var line := if FromLo(c, n) then n.lo[0] else n.hi[0];
      State(s.nodes[i := n'], s.emitted + [line], WriteUnique(c, s.written, line))
    else if step.Publish? then
      s.(nodes := s.nodes[p.parent := Receive(p, n, s.nodes[p.parent])][i := n'])
    else if step.CheckParent? then
      s.(nodes := s.nodes[p.parent := Notify(p, n, s.nodes[p.parent])][i := n'])
    else
      s.(nodes := s.nodes[i := n'])
  }

  // ---------------------------------------------------------------- the tree

  predicate PlaceOk(tree: seq<Place>, i: nat)
    requires 0 < i < |tree|
  {
    var p := tree[i];
    && p.parent < i
    && (i == MERGE_ROOT <==> p.level == MERGE_ROOT) && p.level > MERGE_END
    && (i > MERGE_ROOT ==>
          && 0 < p.parent && !tree[p.parent].leaf
          && i == (if p.isLo then tree[p.parent].loChild else tree[p.parent].hiChild))
    && (!p.leaf ==>
          && i < p.loChild < |tree| && tree[p.loChild].parent == i && tree[p.loChild].isLo
          && i < p.hiChild < |tree| && tree[p.hiChild].parent == i && !tree[p.hiChild].isLo)
  }

  ghost predicate TreeOk(tree: seq<Place>) {
    |tree| > MERGE_ROOT && forall i :: 0 < i < |tree| ==> PlaceOk(tree, i)
  }

  function LoLeft(n: Node): int { n.nlo - n.takenLo }
  function HiLeft(n: Node): int { n.nhi - n.takenHi }

  // Lines that node n has not yet delivered to its parent.
  function Undelivered(n: Node): int { |n.out| + LoLeft(n) + HiLeft(n) }

  predicate Merging(ph: Phase) { ph == Picking || ph == DrainLo || ph == DrainHi }

  // The holder has delivered, and has yet to look at the parent.
  predicate Announcing(ph: Phase) { ph == Updating || ph == CheckingSelf || ph == CheckingParent }

  // Every line a side still owes is available, or with the child.
  predicate CountsOk(p: Place, n: Node, lo: Node, hi: Node) {
    && LoLeft(n) >= 0 && HiLeft(n) >= 0
    && LoLeft(n) == |n.lo| + (if p.leaf then 0 else Undelivered(lo))
    && HiLeft(n) == |n.hi| + (if p.leaf then 0 else Undelivered(hi))
  }

  predicate HolderOk(i: nat, n: Node) {
    && (n.phase == Free || n.phase == CheckingSelf || n.phase == CheckingParent ==> n.takenLo == 0 && n.takenHi == 0)
    && (i > MERGE_ROOT && (Merging(n.phase) || n.phase == Publishing) ==> |n.out| == n.takenLo + n.takenHi)
    && (i == MERGE_ROOT || !(Merging(n.phase) || n.phase == Publishing) ==> n.out == [])
    && (n.phase == Picking && n.takenLo + n.takenHi == 0 ==> n.quota > 0 && Ready(n))
    && (n.phase == DrainLo ==> HiLeft(n) == 0 && (n.takenLo + n.takenHi == 0 ==> n.quota > 0 && n.lo != []))
    && (n.phase == DrainHi ==> LoLeft(n) == 0 && (n.takenLo + n.takenHi == 0 ==> n.quota > 0 && n.hi != []))
    && (n.phase == Publishing || n.phase == Updating ==> n.takenLo + n.takenHi > 0)
    && (n.phase == Publishing ==> i > MERGE_ROOT)
  }

  // A node with work is queued, or held by a thread that will look, or a child's holder will look.
  predicate QueueOk(p: Place, n: Node, lo: Node, hi: Node) {
    && n.inHeap + n.claimed == (if n.queued then 1 else 0)
    && (n.queued ==> Ready(n) && (n.phase == Free || n.phase == CheckingParent))
    && (n.asleep ==> p.leaf && Ready(n) && n.phase == Free && !n.queued)
    && (!n.asleep && !n.queued && Ready(n) && (n.phase == Free || n.phase == CheckingParent) ==>
          !p.leaf && (Announcing(lo.phase) || Announcing(hi.phase)))
  }

  predicate NodeOk(i: nat, p: Place, n: Node, lo: Node, hi: Node) {
    CountsOk(p, n, lo, hi) && HolderOk(i, n) && QueueOk(p, n, lo, hi)
  }

  function LoKid(c: Config, s: State, i: nat): Node
    requires 0 < i < |s.nodes| == |c.tree| && TreeOk(c.tree)
  {
    if c.tree[i].leaf then s.nodes[i] else assert PlaceOk(c.tree, i); s.nodes[c.tree[i].loChild]
  }

  function HiKid(c: Config, s: State, i: nat): Node
    requires 0 < i < |s.nodes| == |c.tree| && TreeOk(c.tree)
  {
    if c.tree[i].leaf then s.nodes[i] else assert PlaceOk(c.tree, i); s.nodes[c.tree[i].hiChild]
  }

  ghost predicate NodeAt(c: Config, s: State, i: nat)
    requires 0 < i < |s.nodes| == |c.tree| && TreeOk(c.tree)
  {
    NodeOk(i, c.tree[i], s.nodes[i], LoKid(c, s, i), HiKid(c, s, i))
  }

  // MERGE_END is queued once, when the root has nothing left.
  predicate EndOk(end: Node, root: Node) {
    && end.inHeap <= 1 && end.claimed == 0 && end.takenLo == 0 && end.takenHi == 0
    && (end.inHeap == 1 ==> root.nlo + root.nhi == 0 && root.phase == Free)
    && (root.nlo + root.nhi == 0 ==> end.inHeap == 1 || root.phase == CheckingSelf || root.phase == CheckingParent)
  }

  ghost predicate Inv(c: Config, s: State) {
    && TreeOk(c.tree) && |s.nodes| == |c.tree|
    && (forall i :: 0 < i < |s.nodes| ==> NodeAt(c, s, i))
    && EndOk(s.nodes[MERGE_END], s.nodes[MERGE_ROOT])
  }
}
