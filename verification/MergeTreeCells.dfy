/** The merge tree on the array of lines that all its nodes share: nodes hold pointers into the
    array, and merged lines are stored through *node->dest.  Every step does to the lines between
    the pointers what MergeTree says it does. */
module MergeTreeCells {
  import opened StableSpec
  import opened SequentialSort
  import opened MergeTree
  import opened MergeTreeInv
  import opened MergeTreeSpots

  /** What a node holds besides its lines. */
  datatype Control = Control(nlo: nat, nhi: nat, phase: Phase, takenLo: nat, takenHi: nat, quota: nat,
                             asleep: bool, queued: bool, inHeap: nat, claimed: nat)

  /** Its pointers, as numbers of cells from the end of the array; dest is the holder's copy. */
  datatype Pointers = Pointers(lo: nat, endLo: nat, hi: nat, endHi: nat, dest: nat)

  datatype Board = Board(controls: seq<Control>, ptrs: seq<Pointers>, cells: seq<Line>, emitted: seq<Line>, written: seq<Line>)

  function ControlOf(n: Node): Control {
    Control(n.nlo, n.nhi, n.phase, n.takenLo, n.takenHi, n.quota, n.asleep, n.queued, n.inHeap, n.claimed)
  }

  function NodeOf(k: Control, lo: seq<Line>, hi: seq<Line>, out: seq<Line>): Node {
    Node(lo, hi, k.nlo, k.nhi, k.phase, k.takenLo, k.takenHi, k.quota, out, k.asleep, k.queued, k.inHeap, k.claimed)
  }

  function Slice(cells: seq<Line>, a: nat, b: nat): seq<Line> {
    if a <= b <= |cells| then cells[a..b] else []
  }

  predicate Writing(i: nat, ph: Phase) { i > MERGE_ROOT && (Merging(ph) || ph == Publishing) }

  // *node->dest: the parent's end_lo or end_hi.
  function Dest(p: Place, ptrs: seq<Pointers>): nat
    requires p.parent < |ptrs|
  {
    if p.isLo then ptrs[p.parent].endLo else ptrs[p.parent].endHi
  }

  ghost predicate Shaped(c: Config, spots: seq<Spot>, b: Board) {
    SpotsOk(c.tree, spots, c.totalLines) && |b.controls| == |b.ptrs| == |c.tree|
  }

  // The lines between the pointers of a node; a leaf that is not sorted yet will have its share, sorted.
  ghost function LoLines(c: Config, sp: Spot, k: Control, ptr: Pointers, cells: seq<Line>): seq<Line> {
    if k.asleep then StableSort(c.cmp, Slice(cells, sp.off, sp.off + sp.nlo)) else Slice(cells, ptr.lo, ptr.endLo)
  }

  ghost function HiLines(c: Config, sp: Spot, k: Control, ptr: Pointers, cells: seq<Line>): seq<Line> {
    if k.asleep then StableSort(c.cmp, Slice(cells, sp.off + sp.nlo, End(sp))) else Slice(cells, ptr.hi, ptr.endHi)
  }

  ghost function OutLines(i: nat, k: Control, dest: nat, ptr: Pointers, cells: seq<Line>): seq<Line> {
    if Writing(i, k.phase) then Slice(cells, dest, ptr.dest) else []
  }

  /** A node, with the lines found through its pointers. */
  ghost function NodeView(c: Config, spots: seq<Spot>, b: Board, i: nat): Node
    requires Shaped(c, spots, b) && i < |c.tree|
  {
    var k, ptr := b.controls[i], b.ptrs[i];
    if i == 0 then NodeOf(k, [], [], [])
    else
      assert PlaceOk(c.tree, i);
      NodeOf(k, LoLines(c, spots[i], k, ptr, b.cells), HiLines(c, spots[i], k, ptr, b.cells),
             OutLines(i, k, Dest(c.tree[i], b.ptrs), ptr, b.cells))
  }

  ghost function View(c: Config, spots: seq<Spot>, b: Board): (s: State)
    requires Shaped(c, spots, b)
    ensures |s.nodes| == |c.tree|
    ensures forall i :: 0 <= i < |c.tree| ==> s.nodes[i] == NodeView(c, spots, b, i)
  {
    State(seq(|c.tree|, i requires 0 <= i < |c.tree| => NodeView(c, spots, b, i)), b.emitted, b.written)
  }

  // ---------------------------------------------------------------- the program

  function Cell(cells: seq<Line>, k: nat): Line { if k < |cells| then cells[k] else Line([]) }

  // The comparison looks at the cells the pointers lead to.
  predicate FromLoCell(c: Config, k: Control, ptr: Pointers, cells: seq<Line>) {
    if k.phase == Picking then c.cmp(Cell(cells, ptr.lo), Cell(cells, ptr.hi)) <= 0 else k.phase == DrainLo
  }

  function Taken(c: Config, k: Control, ptr: Pointers, cells: seq<Line>): Line {
    Cell(cells, if FromLoCell(c, k, ptr, cells) then ptr.lo else ptr.hi)
  }

  // The pointers of the node a step is about.
  function PtrStep(c: Config, p: Place, sp: Spot, k: Control, ptr: Pointers, dest: nat, cells: seq<Line>,
                   step: Step): Pointers {
    match step
    case Install(_) => Pointers(sp.off, sp.off + sp.nlo, sp.off + sp.nlo, End(sp), ptr.dest)
    case Lock(_) => ptr.(dest := dest)
    case PickLine(_) => Moved(c, p, k, ptr, cells)
    case DrainLine(_) => Moved(c, p, k, ptr, cells)
    case _ => ptr
  }

  // One line from lo or hi; below the root it goes to dest.
  function Moved(c: Config, p: Place, k: Control, ptr: Pointers, cells: seq<Line>): Pointers {
    var from := if FromLoCell(c, k, ptr, cells) then ptr.(lo := ptr.lo + 1) else ptr.(hi := ptr.hi + 1);
    if p.level > MERGE_ROOT then from.(dest := ptr.dest + 1) else from
  }

  // *node->dest = dest
  function Published(p: Place, parent: Pointers, dest: nat): Pointers {
    if p.isLo then parent.(endLo := dest) else parent.(endHi := dest)
  }

  /** sequential_sort of both halves: they are sorted where they are; of the other cells only
      the scratch cells may change. */
  ghost predicate SortedInPlace(c: Config, sp: Spot, cells: seq<Line>, cells': seq<Line>) {
    && |cells'| == |cells| && End(sp) <= |cells|
    && cells'[sp.off..sp.off + sp.nlo] == StableSort(c.cmp, cells[sp.off..sp.off + sp.nlo])
    && cells'[sp.off + sp.nlo..End(sp)] == StableSort(c.cmp, cells[sp.off + sp.nlo..End(sp)])
    && forall x :: 0 <= x < |cells| && !(sp.off <= x < End(sp)) && !Scratch(sp, c.totalLines, x) ==> cells'[x] == cells[x]
  }

  ghost predicate CellStep(c: Config, p: Place, sp: Spot, k: Control, ptr: Pointers, cells: seq<Line>, step: Step,
                           cells': seq<Line>) {
    if step.Install? then SortedInPlace(c, sp, cells, cells')
    else if TakesLine(step) && p.level > MERGE_ROOT then
      ptr.dest < |cells| && cells' == cells[ptr.dest := Taken(c, k, ptr, cells)]
    else cells' == cells
  }

  /** A step of a thread, on pointers and cells. */
  ghost predicate BoardStep(c: Config, spots: seq<Spot>, b: Board, step: Step, b': Board)
    requires Shaped(c, spots, b)
  {
    && Enabled(c, View(c, spots, b), step) && |b'.controls| == |b'.ptrs| == |c.tree|
    && var i, p := step.i, c.tree[step.i];
    && var k, ptr, n := b.controls[i], b.ptrs[i], NodeView(c, spots, b, i);
    && var k', ptr' := ControlOf(Advance(c, p, n, step)), PtrStep(c, p, spots[i], k, ptr, Dest(p, b.ptrs), b.cells, step);
    && b'.controls == (if step.CheckParent?
                       then b.controls[p.parent := ControlOf(Notify(p, n, NodeView(c, spots, b, p.parent)))][i := k']
                       else b.controls[i := k'])
    && b'.ptrs == (if step.Publish?
                   then b.ptrs[p.parent := Published(p, b.ptrs[p.parent], ptr.dest)][i := ptr']
                   else b.ptrs[i := ptr'])
    && CellStep(c, p, spots[i], k, ptr, b.cells, step, b'.cells)
    && if TakesLine(step) && p.level <= MERGE_ROOT
       then var x := Taken(c, k, ptr, b.cells);
            b'.emitted == b.emitted + [x] && b'.written == WriteUnique(c, b.written, x)
       else b'.emitted == b.emitted && b'.written == b.written
  }

  // ---------------------------------------------------------------- where the pointers are

  /** The pointers of a node follow from its counts, and stay within its cells. */
  predicate PtrsOk(p: Place, sp: Spot, total: nat, ptr: Pointers, n: Node) {
    && n.nlo <= sp.nlo && n.nhi <= sp.nhi
    && if n.asleep then n.nlo == sp.nlo && n.nhi == sp.nhi && n.takenLo == n.takenHi == 0
       else
         var st := Start(p, sp, total);
         && ptr.lo <= ptr.endLo <= st + sp.nlo && ptr.lo == st + sp.nlo - LoLeft(n)
         && ptr.hi <= ptr.endHi <= st + Lines(sp) && ptr.hi == st + Lines(sp) - HiLeft(n)
         // nothing is taken before there are lines on both sides
         && (!p.leaf && (ptr.endLo == st || ptr.endHi == st + sp.nlo) ==> ptr.lo == st && ptr.hi == st + sp.nlo)
  }

  predicate DestOk(i: nat, dest: nat, ptr: Pointers, n: Node) {
    Writing(i, n.phase) ==> ptr.dest == dest + n.takenLo + n.takenHi
  }

  ghost predicate PlacedAt(c: Config, spots: seq<Spot>, b: Board, i: nat)
    requires Shaped(c, spots, b) && 0 < i < |c.tree|
  {
    assert PlaceOk(c.tree, i);
    && PtrsOk(c.tree[i], spots[i], c.totalLines, b.ptrs[i], NodeView(c, spots, b, i))
    && DestOk(i, Dest(c.tree[i], b.ptrs), b.ptrs[i], NodeView(c, spots, b, i))
  }

  // The array reaches as far as the nodes' cells, and the leaves' scratch cells.
  ghost predicate Roomy(c: Config, spots: seq<Spot>, size: nat)
    requires SpotsOk(c.tree, spots, c.totalLines)
  {
    && c.totalLines <= size
    && forall i :: 0 < i < |c.tree| ==>
         && Start(c.tree[i], spots[i], c.totalLines) + Lines(spots[i]) <= size
         && (c.tree[i].leaf ==> c.totalLines + spots[i].off + spots[i].nlo / 2 + spots[i].nhi / 2 <= size)
  }

  ghost predicate BoardOk(c: Config, spots: seq<Spot>, b: Board) {
    && Shaped(c, spots, b) && Roomy(c, spots, |b.cells|) && Inv(c, View(c, spots, b))
    && forall i :: 0 < i < |c.tree| ==> PlacedAt(c, spots, b, i)
  }

  // What is known of a node: its place,
  lemma HerePlace(c: Config, spots: seq<Spot>, b: Board, i: nat)
    requires BoardOk(c, spots, b) && 0 < i < |c.tree|
    ensures var p, sp := c.tree[i], spots[i];
            && PlaceOk(c.tree, i) && SpotOk(c.tree, spots, i)
            && Start(p, sp, c.totalLines) + Lines(sp) <= |b.cells| && End(sp) <= c.totalLines <= |b.cells|
  {
    SpotAt(c.tree, spots, c.totalLines, i);
    InTotal(c.tree, spots, c.totalLines, i);
    hide Area, Inv, PlacedAt, SpotsOk;
  }

  // its pointers,
  lemma HerePtrs(c: Config, spots: seq<Spot>, b: Board, i: nat)
    requires BoardOk(c, spots, b) && 0 < i < |c.tree|
    ensures c.tree[i].parent < i
    ensures var p, n := c.tree[i], NodeView(c, spots, b, i);
            PtrsOk(p, spots[i], c.totalLines, b.ptrs[i], n) && DestOk(i, Dest(p, b.ptrs), b.ptrs[i], n)
  {
    assert PlaceOk(c.tree, i);
    assert PlacedAt(c, spots, b, i);
    hide Area, Inv, PtrsOk, NodeView;
  }

  // and its counts and its children.
  lemma HereNode(c: Config, spots: seq<Spot>, b: Board, i: nat)
    requires BoardOk(c, spots, b) && 0 < i < |c.tree|
    ensures var s, p, n := View(c, spots, b), c.tree[i], NodeView(c, spots, b, i);
            && s.nodes[i] == n && NodeOk(i, p, n, LoKid(c, s, i), HiKid(c, s, i))
            && KidsDelivering(p, LoKid(c, s, i), HiKid(c, s, i))
  {
    Kids(c, View(c, spots, b), i);
    hide Inv, NodeView, NodeOk, PlacedAt;
  }

  lemma Here(c: Config, spots: seq<Spot>, b: Board, i: nat)
    requires BoardOk(c, spots, b) && 0 < i < |c.tree|
    ensures var s, p, n := View(c, spots, b), c.tree[i], NodeView(c, spots, b, i);
            && s.nodes[i] == n && PlaceOk(c.tree, i) && SpotOk(c.tree, spots, i)
            && NodeOk(i, p, n, LoKid(c, s, i), HiKid(c, s, i)) && KidsDelivering(p, LoKid(c, s, i), HiKid(c, s, i))
            && PtrsOk(p, spots[i], c.totalLines, b.ptrs[i], n) && DestOk(i, Dest(p, b.ptrs), b.ptrs[i], n)
            && Start(p, spots[i], c.totalLines) + Lines(spots[i]) <= |b.cells| && End(spots[i]) <= c.totalLines <= |b.cells|
  {
    hide *;
    HerePlace(c, spots, b, i);
    HerePtrs(c, spots, b, i);
    HereNode(c, spots, b, i);
  }

  // A node that is not sorted yet is a leaf, and nobody holds it.
  lemma AsleepLeaf(c: Config, spots: seq<Spot>, b: Board, i: nat)
    requires BoardOk(c, spots, b) && 0 < i < |c.tree| && b.controls[i].asleep
    ensures c.tree[i].leaf && b.controls[i].phase == Free && End(spots[i]) <= c.totalLines
    ensures Start(c.tree[i], spots[i], c.totalLines) == spots[i].off
  {
    HereNode(c, spots, b, i);
    HerePlace(c, spots, b, i);
    hide BoardOk, HolderOk, CountsOk, Area;
  }

  // The lines held by a node with children, and those its children owe it.
  lemma HereCounts(c: Config, spots: seq<Spot>, b: Board, i: nat)
    requires BoardOk(c, spots, b) && 0 < i < |c.tree| && !c.tree[i].leaf
    ensures var p, ptr, n := c.tree[i], b.ptrs[i], NodeView(c, spots, b, i);
            && !b.controls[i].asleep && 0 < p.loChild < |c.tree| && 0 < p.hiChild < |c.tree|
            && LoLeft(n) == ptr.endLo - ptr.lo + Undelivered(NodeView(c, spots, b, p.loChild))
            && HiLeft(n) == ptr.endHi - ptr.hi + Undelivered(NodeView(c, spots, b, p.hiChild))
  {
    Here(c, spots, b, i);
    hide BoardOk, HolderOk, Area, KidsDelivering, Undelivered, LoLeft, HiLeft;
  }

  lemma HereOut(c: Config, spots: seq<Spot>, b: Board, i: nat)
    requires BoardOk(c, spots, b) && 0 < i < |c.tree|
    ensures var n := NodeView(c, spots, b, i);
            && LoLeft(n) >= 0 && HiLeft(n) >= 0 && n.nlo <= spots[i].nlo && n.nhi <= spots[i].nhi
            && (Writing(i, n.phase) ==> |n.out| == n.takenLo + n.takenHi) && (!Writing(i, n.phase) ==> n.out == [])
  {
    HereNode(c, spots, b, i);
    HerePtrs(c, spots, b, i);
    hide BoardOk, Area, KidsDelivering, QueueOk, LoLines, HiLines;
  }

  /** What a node has delivered so far stands at the beginning of its target. */
  lemma DestAt(c: Config, spots: seq<Spot>, b: Board, i: nat)
    requires BoardOk(c, spots, b) && MERGE_ROOT < i < |c.tree|
    ensures c.tree[i].level > MERGE_ROOT && c.tree[i].parent < i
    ensures var n := NodeView(c, spots, b, i);
            && Dest(c.tree[i], b.ptrs) == Target(c.tree[i], spots[i], c.totalLines) + Lines(spots[i]) - Undelivered(n)
            && 0 <= Undelivered(n) <= Lines(spots[i])
            && LoLeft(n) >= 0 && HiLeft(n) >= 0
            && (Writing(i, n.phase) ==> |n.out| == n.takenLo + n.takenHi)
  {
    var p := c.tree[i].parent;
    Sides(c.tree, spots, c.totalLines, i);
    HereOut(c, spots, b, i);
    HereCounts(c, spots, b, p);
    HerePtrs(c, spots, b, p);
    hide Area, NodeView, BoardOk, Target;
  }

  // Cell x is none of those between a and b.
  predicate Outside(x: nat, a: nat, b: nat) { x < a || b <= x }

  // Cell x holds no line that node j has still to take.
  ghost predicate NotTaking(c: Config, spots: seq<Spot>, b: Board, x: nat, j: nat)
    requires Shaped(c, spots, b) && 0 < j < |c.tree|
  {
    var ptr, sp := b.ptrs[j], spots[j];
    if b.controls[j].asleep then Outside(x, sp.off, End(sp)) else Outside(x, ptr.lo, ptr.endLo) && Outside(x, ptr.hi, ptr.endHi)
  }

  // Nor one that it has merged and not published.
  ghost predicate NotGiving(c: Config, spots: seq<Spot>, b: Board, x: nat, j: nat)
    requires Shaped(c, spots, b) && 0 < j < |c.tree|
  {
    assert PlaceOk(c.tree, j);
    Writing(j, b.controls[j].phase) ==> Outside(x, Dest(c.tree[j], b.ptrs), b.ptrs[j].dest)
  }

  lemma OutsideLines(c: Config, spots: seq<Spot>, b: Board, x: nat, j: nat)
    requires BoardOk(c, spots, b) && 0 < j < |c.tree|
    requires var st := Start(c.tree[j], spots[j], c.totalLines); Outside(x, st, st + Lines(spots[j]))
    ensures NotTaking(c, spots, b, x, j)
  {
    Here(c, spots, b, j);
    hide Area, StableSort;
  }

  lemma OutsideTarget(c: Config, spots: seq<Spot>, b: Board, x: nat, j: nat)
    requires BoardOk(c, spots, b) && MERGE_ROOT < j < |c.tree|
    requires c.tree[j].level > 0 && var t := Target(c.tree[j], spots[j], c.totalLines); Outside(x, t, t + Lines(spots[j]))
    ensures NotGiving(c, spots, b, x, j)
  {
    Here(c, spots, b, j);
    DestAt(c, spots, b, j);
    hide Area, StableSort, Target;
  }

  ghost predicate MayTake(c: Config, spots: seq<Spot>, b: Board, i: nat)
    requires Shaped(c, spots, b) && i < |c.tree|
  {
    var n := NodeView(c, spots, b, i);
    i > MERGE_ROOT && Merging(n.phase) && LoLeft(n) + HiLeft(n) > 0
  }

  // The next cell that a node writes is in its target, behind what it has written already.
  lemma NextCell(c: Config, spots: seq<Spot>, b: Board, i: nat)
    requires BoardOk(c, spots, b) && i < |c.tree| && MayTake(c, spots, b, i)
    ensures c.tree[i].level > 0 && 0 < c.tree[i].parent < i
    ensures var x, t := b.ptrs[i].dest, Target(c.tree[i], spots[i], c.totalLines); t <= x < t + Lines(spots[i])
    ensures var p := c.tree[i].parent; var st := Start(c.tree[p], spots[p], c.totalLines);
            st <= b.ptrs[i].dest < st + Lines(spots[p]) <= |b.cells|
  {
    DestAt(c, spots, b, i);
    Sides(c.tree, spots, c.totalLines, i);
    Here(c, spots, b, i);
    Here(c, spots, b, c.tree[i].parent);
    hide Area, StableSort, Target, Start, NodeOk, KidsDelivering, Roomy;
  }

  // The parent has not got so far.
  lemma Between(c: Config, spots: seq<Spot>, b: Board, i: nat)
    requires BoardOk(c, spots, b) && i < |c.tree| && MayTake(c, spots, b, i)
    ensures 0 < c.tree[i].parent < i && NotTaking(c, spots, b, b.ptrs[i].dest, c.tree[i].parent)
  {
    var p := c.tree[i].parent;
    DestAt(c, spots, b, i);
    Sides(c.tree, spots, c.totalLines, i);
    Here(c, spots, b, i);
    Here(c, spots, b, p);
    hide Area, StableSort;
  }

  /** The next cell that node i writes is free: none of the lines in the tree stands there. */
  lemma NextIsFree(c: Config, spots: seq<Spot>, b: Board, i: nat, j: nat)
    requires BoardOk(c, spots, b) && i < |c.tree| && MayTake(c, spots, b, i) && 0 < j < |c.tree|
    ensures b.ptrs[i].dest < |b.cells| && NotTaking(c, spots, b, b.ptrs[i].dest, j)
    ensures j != i ==> NotGiving(c, spots, b, b.ptrs[i].dest, j)
  {
    var p, x := c.tree[i].parent, b.ptrs[i].dest;
    NextCell(c, spots, b, i);
    hide NodeView, Area, Start, Target, MayTake, BoardOk, NotTaking, NotGiving;
    if j == p {
      Between(c, spots, b, i);
    } else {
      CellsApart(c.tree, spots, c.totalLines, p, j);
      OutsideLines(c, spots, b, x, j);
    }
    if j == MERGE_ROOT {
      RootGivesNothing(c, spots, b, x);
    } else if j != i {
      TargetsApart(c.tree, spots, c.totalLines, i, j);
      OutsideTarget(c, spots, b, x, j);
    }
  }

  lemma RootGivesNothing(c: Config, spots: seq<Spot>, b: Board, x: nat)
    requires Shaped(c, spots, b)
    ensures NotGiving(c, spots, b, x, MERGE_ROOT)
  {
  }

  // ---------------------------------------------------------------- one step

  lemma {:induction false} SliceKept(cells: seq<Line>, x: nat, v: Line, a: nat, b: nat)
    requires x < |cells|
    ensures Outside(x, a, b) ==> Slice(cells[x := v], a, b) == Slice(cells, a, b)
  {
  }

  // Node j does not see a change of other cells, of other nodes or their pointers.
  ghost predicate Unseen(c: Config, spots: seq<Spot>, b: Board, b': Board, j: nat)
    requires Shaped(c, spots, b) && Shaped(c, spots, b') && 0 < j < |c.tree|
  {
    var k, ptr, cells, cells' := b.controls[j], b.ptrs[j], b.cells, b'.cells;
    assert PlaceOk(c.tree, j);
    && b'.controls[j] == k && b'.ptrs[j] == ptr && Dest(c.tree[j], b'.ptrs) == Dest(c.tree[j], b.ptrs)
    && LoLines(c, spots[j], k, ptr, cells') == LoLines(c, spots[j], k, ptr, cells)
    && HiLines(c, spots[j], k, ptr, cells') == HiLines(c, spots[j], k, ptr, cells)
    && OutLines(j, k, Dest(c.tree[j], b.ptrs), ptr, cells') == OutLines(j, k, Dest(c.tree[j], b.ptrs), ptr, cells)
  }

  lemma UnseenKeeps(c: Config, spots: seq<Spot>, b: Board, b': Board, j: nat)
    requires Shaped(c, spots, b) && Shaped(c, spots, b') && 0 < j < |c.tree| && Unseen(c, spots, b, b', j)
    ensures NodeView(c, spots, b', j) == NodeView(c, spots, b, j)
    ensures PlacedAt(c, spots, b, j) ==> PlacedAt(c, spots, b', j)
  {
    hide LoLines, HiLines, OutLines, PtrsOk;
  }

  lemma WriteUnseen(c: Config, spots: seq<Spot>, b: Board, b': Board, x: nat, v: Line, j: nat)
    requires Shaped(c, spots, b) && Shaped(c, spots, b') && 0 < j < |c.tree|
    requires x < |b.cells| && b'.cells == b.cells[x := v] && NotTaking(c, spots, b, x, j) && NotGiving(c, spots, b, x, j)
    requires c.tree[j].parent < |c.tree|
    requires b'.controls[j] == b.controls[j] && b'.ptrs[j] == b.ptrs[j] && Dest(c.tree[j], b'.ptrs) == Dest(c.tree[j], b.ptrs)
    ensures Unseen(c, spots, b, b', j)
  {
    var ptr, sp := b.ptrs[j], spots[j];
    hide Slice, StableSort;
    SliceKept(b.cells, x, v, ptr.lo, ptr.endLo);
    SliceKept(b.cells, x, v, ptr.hi, ptr.endHi);
    SliceKept(b.cells, x, v, sp.off, sp.off + sp.nlo);
    SliceKept(b.cells, x, v, sp.off + sp.nlo, End(sp));
    SliceKept(b.cells, x, v, Dest(c.tree[j], b.ptrs), ptr.dest);
  }

  // The line at the pointer is the first of those between the pointers.
  lemma TakenLine(c: Config, spots: seq<Spot>, b: Board, step: Step)
    requires BoardOk(c, spots, b) && Enabled(c, View(c, spots, b), step) && TakesLine(step)
    ensures var i := step.i;
            var k, ptr, n := b.controls[i], b.ptrs[i], NodeView(c, spots, b, i);
            && !k.asleep && Merging(k.phase) && LoLeft(n) + HiLeft(n) > 0 && Can(n, step)
            && (n.phase == Picking ==> n.lo != [] && n.hi != [])
            && FromLoCell(c, k, ptr, b.cells) == FromLo(c, n)
            && Taken(c, k, ptr, b.cells) == (if FromLo(c, n) then n.lo[0] else n.hi[0])
  {
    Here(c, spots, b, step.i);
    hide Area, StableSort, SpotsOk, Roomy, Inv;
  }

  lemma {:induction false} SliceTail(cells: seq<Line>, a: nat, z: nat)
    ensures Slice(cells, a, z) != [] ==> a < z <= |cells| && Slice(cells, a + 1, z) == Slice(cells, a, z)[1..]
  {
  }

  lemma TakeLoPtrs(p: Place, sp: Spot, total: nat, ptr: Pointers, n: Node, n': Node, dest: nat)
    requires PtrsOk(p, sp, total, ptr, n) && !n.asleep && !n'.asleep && (p.leaf || (sp.nlo > 0 && sp.nhi > 0))
    requires n'.nlo == n.nlo && n'.nhi == n.nhi && n'.takenLo == n.takenLo + 1 && n'.takenHi == n.takenHi
    requires ptr.lo < ptr.endLo && (ptr.hi < ptr.endHi || HiLeft(n) == 0)
    ensures PtrsOk(p, sp, total, ptr.(lo := ptr.lo + 1, dest := dest), n')
  {
    hide Area;
  }

  lemma TakeHiPtrs(p: Place, sp: Spot, total: nat, ptr: Pointers, n: Node, n': Node, dest: nat)
    requires PtrsOk(p, sp, total, ptr, n) && !n.asleep && !n'.asleep && (p.leaf || (sp.nlo > 0 && sp.nhi > 0))
    requires n'.nlo == n.nlo && n'.nhi == n.nhi && n'.takenLo == n.takenLo && n'.takenHi == n.takenHi + 1
    requires ptr.hi < ptr.endHi && (ptr.lo < ptr.endLo || LoLeft(n) == 0)
    ensures PtrsOk(p, sp, total, ptr.(hi := ptr.hi + 1, dest := dest), n')
  {
    hide Area;
  }

  // What a node takes, and what it must have for that.
  ghost predicate Takes(n: Node, n': Node, fromLo: bool) {
    && n'.phase == n.phase && n'.asleep == n.asleep && n'.nlo == n.nlo && n'.nhi == n.nhi
    && if fromLo
       then n.lo != [] && (n.hi != [] || HiLeft(n) == 0) && n'.lo == n.lo[1..] && n'.hi == n.hi
            && n'.takenLo == n.takenLo + 1 && n'.takenHi == n.takenHi
       else n.hi != [] && (n.lo != [] || LoLeft(n) == 0) && n'.hi == n.hi[1..] && n'.lo == n.lo
            && n'.takenLo == n.takenLo && n'.takenHi == n.takenHi + 1
  }

  lemma TakeAdvance(c: Config, i: nat, p: Place, n: Node, lo: Node, hi: Node, step: Step)
    requires NodeOk(i, p, n, lo, hi) && Can(n, step) && TakesLine(step)
    ensures Takes(n, Advance(c, p, n, step), FromLo(c, n))
  {
    hide CountsOk, QueueOk;
  }

  lemma TakeAt(c: Config, spots: seq<Spot>, b: Board, step: Step)
    requires BoardOk(c, spots, b) && Enabled(c, View(c, spots, b), step) && TakesLine(step)
    ensures 0 < step.i < |c.tree|
    ensures var i := step.i;
            var p, sp, k, ptr, n := c.tree[i], spots[i], b.controls[i], b.ptrs[i], NodeView(c, spots, b, i);
            && Can(n, step) && !n.asleep && PtrsOk(p, sp, c.totalLines, ptr, n) && (p.leaf || (sp.nlo > 0 && sp.nhi > 0))
            && n.lo == Slice(b.cells, ptr.lo, ptr.endLo) && n.hi == Slice(b.cells, ptr.hi, ptr.endHi)
            && Takes(n, Advance(c, p, n, step), FromLoCell(c, k, ptr, b.cells))
  {
    var i, s := step.i, View(c, spots, b);
    TakenLine(c, spots, b, step);
    HereNode(c, spots, b, i);
    HerePtrs(c, spots, b, i);
    HerePlace(c, spots, b, i);
    TakeAdvance(c, i, c.tree[i], NodeView(c, spots, b, i), LoKid(c, s, i), HiKid(c, s, i), step);
    hide Area, StableSort, BoardOk, NodeOk, Advance, PtrsOk, Slice, KidsDelivering, View, Start, Can, Takes;
  }

  // The pointers of a node that takes a line.
  lemma TakePtrs(c: Config, spots: seq<Spot>, b: Board, step: Step)
    requires BoardOk(c, spots, b) && Enabled(c, View(c, spots, b), step) && TakesLine(step)
    ensures var i := step.i;
            var p, k, ptr, n := c.tree[i], b.controls[i], b.ptrs[i], NodeView(c, spots, b, i);
            var ptr', n' := Moved(c, p, k, ptr, b.cells), Advance(c, p, n, step);
            && PtrsOk(p, spots[i], c.totalLines, ptr', n')
            && n'.lo == Slice(b.cells, ptr'.lo, ptr'.endLo) && n'.hi == Slice(b.cells, ptr'.hi, ptr'.endHi)
            && ptr'.endLo == ptr.endLo && ptr'.endHi == ptr.endHi && !n'.asleep && n'.phase == n.phase
  {
    TakeAt(c, spots, b, step);
    var p, sp, ptr, n := c.tree[step.i], spots[step.i], b.ptrs[step.i], NodeView(c, spots, b, step.i);
    var n' := Advance(c, p, n, step);
    hide BoardOk, Enabled, NodeView, Advance, PtrsOk, Slice, Can;
    MovedPtrs(c, p, sp, b.controls[step.i], ptr, b.cells, n, n');
  }

  lemma MovedPtrs(c: Config, p: Place, sp: Spot, k: Control, ptr: Pointers, cells: seq<Line>, n: Node, n': Node)
    requires !n.asleep && PtrsOk(p, sp, c.totalLines, ptr, n) && (p.leaf || (sp.nlo > 0 && sp.nhi > 0))
    requires n.lo == Slice(cells, ptr.lo, ptr.endLo) && n.hi == Slice(cells, ptr.hi, ptr.endHi)
    requires Takes(n, n', FromLoCell(c, k, ptr, cells))
    ensures var ptr' := Moved(c, p, k, ptr, cells);
            && PtrsOk(p, sp, c.totalLines, ptr', n')
            && n'.lo == Slice(cells, ptr'.lo, ptr'.endLo) && n'.hi == Slice(cells, ptr'.hi, ptr'.endHi)
  {
    hide PtrsOk, Slice, FromLoCell;
    SliceTail(cells, ptr.lo, ptr.endLo);
    SliceTail(cells, ptr.hi, ptr.endHi);
    var dest := Moved(c, p, k, ptr, cells).dest;
    if FromLoCell(c, k, ptr, cells) {
      TakeLoPtrs(p, sp, c.totalLines, ptr, n, n', dest);
    } else {
      TakeHiPtrs(p, sp, c.totalLines, ptr, n, n', dest);
    }
  }

  lemma {:induction false} OutGrows(cells: seq<Line>, x: nat, v: Line, a: nat)
    requires a <= x < |cells|
    ensures Slice(cells[x := v], a, x + 1) == Slice(cells, a, x) + [v]
  {
  }

  // Where the node has written so far.
  lemma TakerDest(c: Config, spots: seq<Spot>, b: Board, step: Step)
    requires BoardOk(c, spots, b) && Enabled(c, View(c, spots, b), step) && TakesLine(step) && step.i > MERGE_ROOT
    ensures step.i < |c.tree| && c.tree[step.i].parent < step.i && c.tree[step.i].level > MERGE_ROOT
    ensures var i, p, ptr, n := step.i, c.tree[step.i], b.ptrs[step.i], NodeView(c, spots, b, step.i);
            && Writing(i, n.phase) && !n.asleep
            && Dest(p, b.ptrs) <= ptr.dest == Dest(p, b.ptrs) + n.takenLo + n.takenHi < |b.cells|
            && NotTaking(c, spots, b, ptr.dest, i) && n.out == Slice(b.cells, Dest(p, b.ptrs), ptr.dest)
  {
    TakenLine(c, spots, b, step);
    NextIsFree(c, spots, b, step.i, step.i);
    HerePtrs(c, spots, b, step.i);
    DestAt(c, spots, b, step.i);
    hide BoardOk, Area, Slice, NotTaking, PtrsOk, LoLines, HiLines;
  }

  // The node below the root that takes a line and writes it.
  lemma TakerView(c: Config, spots: seq<Spot>, b: Board, step: Step, b': Board)
    requires BoardOk(c, spots, b) && BoardStep(c, spots, b, step, b') && TakesLine(step) && step.i > MERGE_ROOT
    ensures Shaped(c, spots, b')
            && NodeView(c, spots, b', step.i) == Advance(c, c.tree[step.i], NodeView(c, spots, b, step.i), step)
    ensures PlacedAt(c, spots, b', step.i)
  {
    var i := step.i;
    var p, ptr, k, x, n := c.tree[i], b.ptrs[i], b.controls[i], b.ptrs[i].dest, NodeView(c, spots, b, i);
    TakerDest(c, spots, b, step);
    TakenLine(c, spots, b, step);
    TakePtrs(c, spots, b, step);
    StepAt(c, spots, b, step, b');
    var ptr', v := b'.ptrs[i], Taken(c, k, ptr, b.cells);
    assert b'.cells == b.cells[x := v];
    assert ptr' == Moved(c, p, k, ptr, b.cells);
    assert ptr'.dest == x + 1 && Outside(x, ptr'.lo, ptr'.endLo) && Outside(x, ptr'.hi, ptr'.endHi);
    SliceKept(b.cells, x, v, ptr'.lo, ptr'.endLo);
    SliceKept(b.cells, x, v, ptr'.hi, ptr'.endHi);
    OutGrows(b.cells, x, v, Dest(p, b.ptrs));
    assert Dest(p, b'.ptrs) == Dest(p, b.ptrs);
    hide Area, StableSort, BoardOk, PtrsOk, Slice, BoardStep, Moved, NotTaking;
  }

  lemma DestKept(c: Config, spots: seq<Spot>, b: Board, b': Board, i: nat, j: nat)
    requires Shaped(c, spots, b) && Shaped(c, spots, b') && i < |c.tree| && 0 < j < |c.tree| && i != j
    requires b'.ptrs == b.ptrs[i := b'.ptrs[i]] && b'.ptrs[i].endLo == b.ptrs[i].endLo && b'.ptrs[i].endHi == b.ptrs[i].endHi
    ensures c.tree[j].parent < |c.tree| && b'.ptrs[j] == b.ptrs[j] && Dest(c.tree[j], b'.ptrs) == Dest(c.tree[j], b.ptrs)
  {
    assert PlaceOk(c.tree, j);
  }

  // The board shows the state after the step, and all nodes have their pointers in place.
  ghost predicate Shown(c: Config, spots: seq<Spot>, b': Board, s': State) {
    && Shaped(c, spots, b') && |s'.nodes| == |c.tree| && b'.emitted == s'.emitted && b'.written == s'.written
    && forall j :: 0 <= j < |c.tree| ==> NodeShown(c, spots, b', s', j)
  }

  ghost predicate NodeShown(c: Config, spots: seq<Spot>, b': Board, s': State, j: nat)
    requires Shaped(c, spots, b') && j < |c.tree| == |s'.nodes|
  {
    NodeView(c, spots, b', j) == s'.nodes[j] && (j > 0 ==> PlacedAt(c, spots, b', j))
  }

  lemma TakeBelow(c: Config, spots: seq<Spot>, b: Board, step: Step, b': Board)
    requires BoardOk(c, spots, b) && BoardStep(c, spots, b, step, b') && TakesLine(step) && step.i > MERGE_ROOT
    ensures Shown(c, spots, b', Next(c, View(c, spots, b), step)) && |b'.cells| == |b.cells|
  {
    var i, s' := step.i, Next(c, View(c, spots, b), step);
    var x, v := b.ptrs[i].dest, Taken(c, b.controls[i], b.ptrs[i], b.cells);
    Here(c, spots, b, i);
    TakenLine(c, spots, b, step);
    TakerView(c, spots, b, step, b');
    TakePtrs(c, spots, b, step);
    assert b'.ptrs == b.ptrs[i := b'.ptrs[i]] && b'.controls == b.controls[i := b'.controls[i]];
    assert x < |b.cells| && b'.cells == b.cells[x := v] by {
      NextIsFree(c, spots, b, i, i);
    }
    forall j | 0 <= j < |c.tree|
      ensures NodeShown(c, spots, b', s', j)
    {
      hide NodeOk, Advance, PtrsOk, Area, BoardStep, KidsDelivering, Taken, NotTaking, NotGiving, Unseen;
      if j == 0 {
      } else if j != i {
        assert PlacedAt(c, spots, b, j);
        DestKept(c, spots, b, b', i, j);
        NextIsFree(c, spots, b, i, j);
        WriteUnseen(c, spots, b, b', x, v, j);
        UnseenKeeps(c, spots, b, b', j);
      }
    }
  }

  // A step that moves no line and is about the node alone.
  predicate Quiet(step: Step) {
    step.Pop? || step.Lock? || step.EndPick? || step.EndDrain? || step.Update? || step.CheckSelf?
  }

  lemma QuietAdvance(c: Config, i: nat, p: Place, n: Node, step: Step)
    requires Can(n, step) && Quiet(step) && 0 < i && (i > MERGE_ROOT <==> p.level > MERGE_ROOT)
    ensures var n' := Advance(c, p, n, step);
            && n'.lo == n.lo && n'.hi == n.hi && n'.out == n.out && n'.asleep == n.asleep
            && n'.nlo <= n.nlo && n'.nhi <= n.nhi
            && (!n.asleep ==> step.Lock? || (LoLeft(n') == LoLeft(n) && HiLeft(n') == HiLeft(n)))
            && (n.asleep ==> step.Pop? || step.Lock? || n.phase != Free)
            && (Writing(i, n'.phase) ==> Writing(i, n.phase) || step.Lock?)
            && (Writing(i, n.phase) && !step.Lock? ==>
                  Writing(i, n'.phase) && n'.takenLo == n.takenLo && n'.takenHi == n.takenHi)
            && (step.Lock? ==> n.phase == Free && n'.takenLo == n'.takenHi == 0 && n'.nlo == n.nlo && n'.nhi == n.nhi)
            && (step.Pop? ==> n'.takenLo == n.takenLo && n'.takenHi == n.takenHi && n'.nlo == n.nlo && n'.nhi == n.nhi)
  {
  }

  // Free nodes have taken nothing since their counts were updated; only a leaf that is not held is asleep.
  lemma Idle(i: nat, p: Place, n: Node, lo: Node, hi: Node)
    requires NodeOk(i, p, n, lo, hi)
    ensures n.phase == Free ==> n.takenLo == n.takenHi == 0
    ensures n.asleep ==> n.phase == Free && n.inHeap == n.claimed == 0
  {
    hide CountsOk;
  }

  // What a step that changes no cell does to the node it is about.
  lemma StepAt(c: Config, spots: seq<Spot>, b: Board, step: Step, b': Board)
    requires BoardOk(c, spots, b) && BoardStep(c, spots, b, step, b')
    ensures Shaped(c, spots, b') && 0 < step.i < |c.tree| && c.tree[step.i].parent < step.i
    ensures var i, p := step.i, c.tree[step.i];
            && Can(NodeView(c, spots, b, i), step) && (i > MERGE_ROOT <==> p.level > MERGE_ROOT)
            && b'.controls[i] == ControlOf(Advance(c, p, NodeView(c, spots, b, i), step))
            && b'.ptrs[i] == PtrStep(c, p, spots[i], b.controls[i], b.ptrs[i], Dest(p, b.ptrs), b.cells, step)
            && (!step.Install? && !(TakesLine(step) && i > MERGE_ROOT) ==> b'.cells == b.cells)
            && (!step.Publish? ==> b'.ptrs == b.ptrs[i := b'.ptrs[i]])
            && (!step.CheckParent? ==> b'.controls == b.controls[i := b'.controls[i]])
            && (step.Publish? ==> b'.ptrs == b.ptrs[p.parent := Published(p, b.ptrs[p.parent], b.ptrs[i].dest)][i := b'.ptrs[i]])
  {
    assert PlaceOk(c.tree, step.i);
    hide Inv, PlacedAt, Advance, NodeView, Moved, CellStep, Roomy, Notify, SpotsOk;
  }

  lemma PtrsQuiet(p: Place, sp: Spot, total: nat, ptr: Pointers, n: Node, n': Node, dest: nat)
    requires PtrsOk(p, sp, total, ptr, n) && n'.asleep == n.asleep && n'.nlo <= n.nlo && n'.nhi <= n.nhi
    requires n.asleep ==> n'.nlo == n.nlo && n'.nhi == n.nhi && n'.takenLo == n'.takenHi == 0
    requires !n.asleep ==> LoLeft(n') == LoLeft(n) && HiLeft(n') == HiLeft(n)
    ensures PtrsOk(p, sp, total, ptr.(dest := dest), n')
  {
    hide Area;
  }

  // What a quiet step makes of a node, as far as its lines and pointers are concerned.
  lemma QuietNode(c: Config, spots: seq<Spot>, b: Board, step: Step)
    requires BoardOk(c, spots, b) && 0 < step.i < |c.tree| && Can(NodeView(c, spots, b, step.i), step) && Quiet(step)
    ensures var i, p, n := step.i, c.tree[step.i], NodeView(c, spots, b, step.i);
            var n' := Advance(c, p, n, step);
            && n'.lo == n.lo && n'.hi == n.hi && n'.out == n.out && n'.asleep == n.asleep
            && n'.nlo <= n.nlo && n'.nhi <= n.nhi
            && (n.asleep ==> n'.nlo == n.nlo && n'.nhi == n.nhi && n'.takenLo == n'.takenHi == 0)
            && (!n.asleep ==> LoLeft(n') == LoLeft(n) && HiLeft(n') == HiLeft(n))
            && (if step.Lock? then n.out == [] && n'.takenLo == n'.takenHi == 0
                else (Writing(i, n'.phase) <==> Writing(i, n.phase))
                     && (Writing(i, n.phase) ==> n'.takenLo == n.takenLo && n'.takenHi == n.takenHi))
  {
    var i, s := step.i, View(c, spots, b);
    var p, n := c.tree[i], NodeView(c, spots, b, i);
    HereNode(c, spots, b, i);
    HereOut(c, spots, b, i);
    assert PlaceOk(c.tree, i);
    Idle(i, p, n, LoKid(c, s, i), HiKid(c, s, i));
    QuietAdvance(c, i, p, n, step);
    hide BoardOk, Advance, NodeOk, KidsDelivering, View, NodeView, Can;
    assert !(Writing(i, n.phase) && n.phase == Free);
  }

  // The step that changes no cell, at the node it is about.
  lemma SelfView(c: Config, spots: seq<Spot>, b: Board, step: Step, b': Board)
    requires BoardOk(c, spots, b) && BoardStep(c, spots, b, step, b') && Quiet(step)
    ensures Shaped(c, spots, b')
            && NodeView(c, spots, b', step.i) == Advance(c, c.tree[step.i], NodeView(c, spots, b, step.i), step)
    ensures PlacedAt(c, spots, b', step.i)
    ensures b'.ptrs[step.i].endLo == b.ptrs[step.i].endLo && b'.ptrs[step.i].endHi == b.ptrs[step.i].endHi
  {
    var i := step.i;
    var p, n, ptr' := c.tree[i], NodeView(c, spots, b, i), b'.ptrs[i];
    StepAt(c, spots, b, step, b');
    QuietNode(c, spots, b, step);
    HerePtrs(c, spots, b, i);
    var n', dest := Advance(c, p, n, step), Dest(p, b.ptrs);
    hide Area, StableSort, BoardOk, BoardStep, Advance, Can, PtrsOk, LoLeft, HiLeft;
    PtrsQuiet(p, spots[i], c.totalLines, b.ptrs[i], n, n', ptr'.dest);
    assert Dest(p, b'.ptrs) == dest;
    assert Slice(b.cells, dest, dest) == [];
    hide Slice;
  }

  lemma RootTakes(c: Config, spots: seq<Spot>, b: Board, step: Step, b': Board)
    requires BoardOk(c, spots, b) && BoardStep(c, spots, b, step, b') && TakesLine(step) && step.i == MERGE_ROOT
    ensures Shaped(c, spots, b')
            && NodeView(c, spots, b', step.i) == Advance(c, c.tree[step.i], NodeView(c, spots, b, step.i), step)
    ensures PlacedAt(c, spots, b', step.i)
    ensures b'.ptrs[step.i].endLo == b.ptrs[step.i].endLo && b'.ptrs[step.i].endHi == b.ptrs[step.i].endHi
  {
    Here(c, spots, b, step.i);
    TakenLine(c, spots, b, step);
    TakePtrs(c, spots, b, step);
    hide Area, StableSort, SpotsOk, Roomy, Inv, KidsDelivering, View, Slice, PtrsOk, NodeOk;
  }

  lemma SameCells(c: Config, spots: seq<Spot>, b: Board, b': Board, j: nat)
    requires Shaped(c, spots, b) && Shaped(c, spots, b') && 0 < j < |c.tree| && b'.cells == b.cells
    requires c.tree[j].parent < |c.tree|
    requires b'.controls[j] == b.controls[j] && b'.ptrs[j] == b.ptrs[j] && Dest(c.tree[j], b'.ptrs) == Dest(c.tree[j], b.ptrs)
    ensures Unseen(c, spots, b, b', j)
  {
  }

  // The other nodes, when a step changes no cell and no end pointer.
  lemma OtherView(c: Config, spots: seq<Spot>, b: Board, b': Board, i: nat, j: nat)
    requires BoardOk(c, spots, b) && Shaped(c, spots, b') && i < |c.tree| && 0 < j < |c.tree| && i != j
    requires b'.ptrs == b.ptrs[i := b'.ptrs[i]] && b'.ptrs[i].endLo == b.ptrs[i].endLo && b'.ptrs[i].endHi == b.ptrs[i].endHi
    requires b'.controls == b.controls[i := b'.controls[i]] && b'.cells == b.cells
    ensures NodeView(c, spots, b', j) == NodeView(c, spots, b, j) && PlacedAt(c, spots, b', j)
  {
    assert PlacedAt(c, spots, b, j);
    hide BoardOk, NodeView, Unseen;
    DestKept(c, spots, b, b', i, j);
    SameCells(c, spots, b, b', j);
    UnseenKeeps(c, spots, b, b', j);
  }

  // What the step makes of the state, and that the same is written.
  lemma LocalNext(c: Config, spots: seq<Spot>, b: Board, step: Step, b': Board)
    requires BoardOk(c, spots, b) && BoardStep(c, spots, b, step, b')
    requires Quiet(step) || step.Install? || TakesLine(step)
    ensures var s, s' := View(c, spots, b), Next(c, View(c, spots, b), step);
            && step.i < |s.nodes| && Can(s.nodes[step.i], step)
            && s'.nodes == s.nodes[step.i := Advance(c, c.tree[step.i], s.nodes[step.i], step)]
            && b'.emitted == s'.emitted && b'.written == s'.written
  {
    if TakesLine(step) {
      TakenLine(c, spots, b, step);
    }
    hide BoardOk, NodeView, Advance, Can, Taken, CellStep, PtrStep, FromLo, Shaped;
  }

  lemma LocalBoard(c: Config, spots: seq<Spot>, b: Board, step: Step, b': Board)
    requires BoardOk(c, spots, b) && BoardStep(c, spots, b, step, b')
    requires Quiet(step) || (TakesLine(step) && step.i == MERGE_ROOT)
    ensures Shown(c, spots, b', Next(c, View(c, spots, b), step)) && b'.cells == b.cells
  {
    var i, s' := step.i, Next(c, View(c, spots, b), step);
    StepAt(c, spots, b, step, b');
    LocalNext(c, spots, b, step, b');
    if TakesLine(step) {
      RootTakes(c, spots, b, step, b');
    } else {
      SelfView(c, spots, b, step, b');
    }
    hide Advance, BoardStep, Taken, BoardOk, PlacedAt, Can, Next, NodeView;
    forall j | 0 <= j < |c.tree|
      ensures NodeShown(c, spots, b', s', j)
    {
      if j > 0 && j != i {
        OtherView(c, spots, b, b', i, j);
      } else if j == 0 {
        EndView(c, spots, b, b');
      }
    }
  }

  lemma EndView(c: Config, spots: seq<Spot>, b: Board, b': Board)
    requires Shaped(c, spots, b) && Shaped(c, spots, b') && b'.controls[0] == b.controls[0]
    ensures NodeView(c, spots, b', 0) == NodeView(c, spots, b, 0)
  {
  }

  lemma {:induction false} SliceJoin(cells: seq<Line>, a: nat, m: nat, z: nat)
    requires a <= m <= z <= |cells|
    ensures Slice(cells, a, m) + Slice(cells, m, z) == Slice(cells, a, z)
  {
  }

  lemma PublishedChild(c: Config, spots: seq<Spot>, b: Board, step: Step, b': Board)
    requires BoardOk(c, spots, b) && BoardStep(c, spots, b, step, b') && step.Publish?
    ensures Shaped(c, spots, b') && MERGE_ROOT < step.i && 0 < c.tree[step.i].parent < step.i
    ensures NodeView(c, spots, b', step.i) == Advance(c, c.tree[step.i], NodeView(c, spots, b, step.i), step)
    ensures PlacedAt(c, spots, b', step.i)
  {
    var n := NodeView(c, spots, b, step.i);
    StepAt(c, spots, b, step, b');
    PublisherInside(c, spots, b, step.i);
    var n' := Advance(c, c.tree[step.i], n, step);
    assert n' == n.(phase := Updating, out := []);
    hide BoardOk, BoardStep, NodeView, Advance;
    IdleView(c, spots, b, b', step.i, n');
  }

  lemma PublisherInside(c: Config, spots: seq<Spot>, b: Board, i: nat)
    requires BoardOk(c, spots, b) && 0 < i < |c.tree| && NodeView(c, spots, b, i).phase == Publishing
    ensures i > MERGE_ROOT && 0 < c.tree[i].parent < i
  {
    HereNode(c, spots, b, i);
    assert PlaceOk(c.tree, i);
    hide BoardOk, CountsOk, QueueOk, NodeView;
  }

  // What the pointers of the parent are, and where the lines are that it gets.
  lemma PublishPtrs(c: Config, spots: seq<Spot>, b: Board, step: Step, b': Board)
    requires BoardOk(c, spots, b) && BoardStep(c, spots, b, step, b') && step.Publish?
    ensures Shaped(c, spots, b') && 0 < c.tree[step.i].parent < step.i
    ensures var i, p := step.i, c.tree[step.i].parent;
            var n, m, q, dest := NodeView(c, spots, b, i), NodeView(c, spots, b, p), b.ptrs[p], b.ptrs[i].dest;
            && PtrsOk(c.tree[p], spots[p], c.totalLines, b'.ptrs[p], m) && !m.asleep
            && b'.ptrs[p] == Published(c.tree[i], q, dest) && b'.controls[p] == b.controls[p] && b'.cells == b.cells
            && (if c.tree[i].isLo then q.lo <= q.endLo <= dest <= |b.cells| else q.hi <= q.endHi <= dest <= |b.cells|)
            && n.out == Slice(b.cells, if c.tree[i].isLo then q.endLo else q.endHi, dest)
  {
    var i, p := step.i, c.tree[step.i].parent;
    Here(c, spots, b, i);
    Sides(c.tree, spots, c.totalLines, i);
    DestAt(c, spots, b, i);
    Here(c, spots, b, p);
    hide Area, StableSort, SpotsOk, Roomy, Inv, KidsDelivering, View, Slice, LoLines, HiLines;
  }

  /** Publishing makes the child's merged lines those of its parent, where they stand. */
  lemma PublishedParent(c: Config, spots: seq<Spot>, b: Board, step: Step, b': Board)
    requires BoardOk(c, spots, b) && BoardStep(c, spots, b, step, b') && step.Publish?
    ensures Shaped(c, spots, b') && 0 < c.tree[step.i].parent < step.i
    ensures var i, p := step.i, c.tree[step.i].parent;
            && NodeView(c, spots, b', p) == Receive(c.tree[i], NodeView(c, spots, b, i), NodeView(c, spots, b, p))
            && PlacedAt(c, spots, b', p)
  {
    var i, p := step.i, c.tree[step.i].parent;
    PublishPtrs(c, spots, b, step, b');
    var q, dest := b.ptrs[p], b.ptrs[i].dest;
    assert PlacedAt(c, spots, b, p);
    assert Dest(c.tree[p], b'.ptrs) == Dest(c.tree[p], b.ptrs) && b'.ptrs[p].dest == q.dest by {
      assert PlaceOk(c.tree, p);
    }
    hide Area, StableSort, SpotsOk, Roomy, Inv, View, Slice, PtrsOk, BoardStep;
    if c.tree[i].isLo {
      SliceJoin(b.cells, q.lo, q.endLo, dest);
    } else {
      SliceJoin(b.cells, q.hi, q.endHi, dest);
    }
    assert NodeView(c, spots, b', p) == Receive(c.tree[i], NodeView(c, spots, b, i), NodeView(c, spots, b, p));
    PtrsSame(c.tree[p], spots[p], c.totalLines, b'.ptrs[p], NodeView(c, spots, b, p), NodeView(c, spots, b', p));
  }

  lemma PtrsSame(p: Place, sp: Spot, total: nat, ptr: Pointers, n: Node, n': Node)
    requires PtrsOk(p, sp, total, ptr, n) && ControlOf(n') == ControlOf(n).(phase := n'.phase)
    ensures PtrsOk(p, sp, total, ptr, n')
  {
    hide Area;
  }

  lemma OtherDest(c: Config, spots: seq<Spot>, b: Board, step: Step, b': Board, j: nat)
    requires BoardOk(c, spots, b) && BoardStep(c, spots, b, step, b') && step.Publish?
    requires 0 < j < |c.tree| && j != step.i && j != c.tree[step.i].parent
    ensures c.tree[j].parent < |c.tree| == |b'.ptrs| && b'.ptrs[j] == b.ptrs[j] && b'.controls[j] == b.controls[j]
    ensures Dest(c.tree[j], b'.ptrs) == Dest(c.tree[j], b.ptrs)
  {
    StepAt(c, spots, b, step, b');
    PublisherInside(c, spots, b, step.i);
    assert PlaceOk(c.tree, j) && PlaceOk(c.tree, step.i);
    hide BoardOk, BoardStep, NodeView, Can, Advance;
  }

  lemma PublishBoard(c: Config, spots: seq<Spot>, b: Board, step: Step, b': Board)
    requires BoardOk(c, spots, b) && BoardStep(c, spots, b, step, b') && step.Publish?
    ensures Shown(c, spots, b', Next(c, View(c, spots, b), step)) && b'.cells == b.cells
  {
    var i, p, s' := step.i, c.tree[step.i].parent, Next(c, View(c, spots, b), step);
    PublishedChild(c, spots, b, step, b');
    PublishedParent(c, spots, b, step, b');
    Here(c, spots, b, i);
    forall j | 0 <= j < |c.tree|
      ensures NodeShown(c, spots, b', s', j)
    {
      hide NodeOk, Advance, PtrsOk, Area, KidsDelivering, Taken, Unseen, Receive;
      if j == 0 {
      } else if j != i && j != p {
        OtherDest(c, spots, b, step, b', j);
        assert PlacedAt(c, spots, b, j);
        SameCells(c, spots, b, b', j);
        UnseenKeeps(c, spots, b, b', j);
      }
    }
  }

  lemma NotifiedChild(c: Config, spots: seq<Spot>, b: Board, step: Step, b': Board)
    requires BoardOk(c, spots, b) && BoardStep(c, spots, b, step, b') && step.CheckParent?
    ensures Shaped(c, spots, b') && c.tree[step.i].parent < step.i
    ensures NodeView(c, spots, b', step.i) == Advance(c, c.tree[step.i], NodeView(c, spots, b, step.i), step)
    ensures PlacedAt(c, spots, b', step.i)
  {
    var n := NodeView(c, spots, b, step.i);
    StepAt(c, spots, b, step, b');
    HereOut(c, spots, b, step.i);
    var n' := Advance(c, c.tree[step.i], n, step);
    assert n' == n.(phase := Free) && n.out == [];
    hide BoardOk, BoardStep, NodeView, Advance;
    IdleView(c, spots, b, b', step.i, n');
  }

  // A node that merges nothing at the moment, with the lines it had.
  lemma IdleView(c: Config, spots: seq<Spot>, b: Board, b': Board, i: nat, n': Node)
    requires BoardOk(c, spots, b) && Shaped(c, spots, b') && 0 < i < |c.tree|
    requires b'.ptrs[i] == b.ptrs[i] && b'.controls[i] == ControlOf(n') && b'.cells == b.cells
    requires !Writing(i, n'.phase) && n' == NodeView(c, spots, b, i).(phase := n'.phase, out := [])
    ensures NodeView(c, spots, b', i) == n' && PlacedAt(c, spots, b', i)
  {
    HerePtrs(c, spots, b, i);
    hide BoardOk, Area, StableSort, Slice, PtrsOk, Start;
    PtrsSame(c.tree[i], spots[i], c.totalLines, b.ptrs[i], NodeView(c, spots, b, i), n');
  }

  lemma NotifySame(p: Place, n: Node, m: Node)
    ensures var m' := Notify(p, n, m); m' == m.(inHeap := m'.inHeap, queued := m'.queued)
  {
  }

  // Its place in the queue is no part of a node's lines or pointers.
  lemma QueuedView(c: Config, spots: seq<Spot>, b: Board, b': Board, p: nat, m': Node)
    requires Shaped(c, spots, b) && Shaped(c, spots, b') && p < |c.tree| && b'.ptrs == b.ptrs && b'.cells == b.cells
    requires var m := NodeView(c, spots, b, p); m' == m.(inHeap := m'.inHeap, queued := m'.queued)
    requires b'.controls[p] == ControlOf(m')
    ensures NodeView(c, spots, b', p) == m'
    ensures p > 0 && PlacedAt(c, spots, b, p) ==> PlacedAt(c, spots, b', p)
  {
    hide Area, StableSort, Slice, Start;
  }

  lemma NotifiedParent(c: Config, spots: seq<Spot>, b: Board, step: Step, b': Board)
    requires BoardOk(c, spots, b) && BoardStep(c, spots, b, step, b') && step.CheckParent?
    ensures Shaped(c, spots, b') && c.tree[step.i].parent < step.i
    ensures var i, p := step.i, c.tree[step.i].parent;
            && NodeView(c, spots, b', p) == Notify(c.tree[i], NodeView(c, spots, b, i), NodeView(c, spots, b, p))
            && (p > 0 ==> PlacedAt(c, spots, b', p))
  {
    var p := c.tree[step.i].parent;
    var n, m := NodeView(c, spots, b, step.i), NodeView(c, spots, b, p);
    var m' := Notify(c.tree[step.i], n, m);
    assert p > 0 ==> PlacedAt(c, spots, b, p);
    assert p < step.i && b'.ptrs == b.ptrs && b'.cells == b.cells && b'.controls[p] == ControlOf(m');
    hide *;
    NotifySame(c.tree[step.i], n, m);
    QueuedView(c, spots, b, b', p, m');
  }

  lemma NotifyBoard(c: Config, spots: seq<Spot>, b: Board, step: Step, b': Board)
    requires BoardOk(c, spots, b) && BoardStep(c, spots, b, step, b') && step.CheckParent?
    ensures Shown(c, spots, b', Next(c, View(c, spots, b), step)) && b'.cells == b.cells
  {
    var i, p, s' := step.i, c.tree[step.i].parent, Next(c, View(c, spots, b), step);
    NotifiedChild(c, spots, b, step, b');
    NotifiedParent(c, spots, b, step, b');
    assert b'.ptrs == b.ptrs;
    forall j | 0 <= j < |c.tree|
      ensures NodeShown(c, spots, b', s', j)
    {
      hide NodeOk, Advance, PtrsOk, Area, KidsDelivering, Taken, Unseen, Notify;
      if j > 0 && j != i && j != p {
        assert PlacedAt(c, spots, b, j) && PlaceOk(c.tree, j);
        SameCells(c, spots, b, b', j);
        UnseenKeeps(c, spots, b, b', j);
      }
    }
  }

  // ---------------------------------------------------------------- sorting a leaf

  /** Above a leaf that is not sorted yet, no node has taken a line. */
  lemma {:induction false} Untouched(c: Config, spots: seq<Spot>, b: Board, i: nat, a: nat)
    requires BoardOk(c, spots, b) && 0 < i < |c.tree| && 0 < a < |c.tree| && b.controls[i].asleep && Below(c.tree, i, a)
    ensures var n := NodeView(c, spots, b, a);
            && LoLeft(n) == spots[a].nlo && HiLeft(n) == spots[a].nhi && n.takenLo == n.takenHi == 0
            && Undelivered(n) == Lines(spots[a])
    ensures a != i ==>
              var ptr := b.ptrs[a];
              && !b.controls[a].asleep
              && if Below(c.tree, i, c.tree[a].loChild) then ptr.lo == ptr.endLo else ptr.hi == ptr.endHi
    decreases |c.tree| - a
  {
    Here(c, spots, b, a);
    if a != i {
      BelowChild(c.tree, i, a);
      var q := if Below(c.tree, i, c.tree[a].loChild) then c.tree[a].loChild else c.tree[a].hiChild;
      Untouched(c, spots, b, i, q);
      DestAt(c, spots, b, q);
      Sides(c.tree, spots, c.totalLines, q);
    }
    hide Area, StableSort, SpotsOk, Roomy, Inv, View, Slice, Below;
  }

  // The cells that sorting a leaf may change.
  predicate Sorting(sp: Spot, total: nat, x: nat) { sp.off <= x < End(sp) || Scratch(sp, total, x) }

  // The share of leaf i is apart from that of any other node it is not below.
  lemma LeafApart(c: Config, spots: seq<Spot>, i: nat, j: nat)
    requires SpotsOk(c.tree, spots, c.totalLines) && 0 < i < |c.tree| && 0 < j < |c.tree| && i != j
    requires c.tree[i].leaf && !Below(c.tree, i, j)
    ensures |spots| == |c.tree| && (End(spots[i]) <= spots[j].off || End(spots[j]) <= spots[i].off)
  {
    Apart(c.tree, spots, c.totalLines, i, j);
    if Below(c.tree, j, i) {
      BelowWithin(c.tree, spots, c.totalLines, j, i);
    }
  }

  lemma ScratchNotTaken(c: Config, spots: seq<Spot>, b: Board, i: nat, j: nat, x: nat)
    requires BoardOk(c, spots, b) && 0 < i < |c.tree| && 0 < j < |c.tree| && i != j && b.controls[i].asleep
    requires Scratch(spots[i], c.totalLines, x)
    ensures NotTaking(c, spots, b, x, j)
  {
    AsleepLeaf(c, spots, b, i);
    HerePlace(c, spots, b, j);
    hide BoardOk, Shaped, Area, NotTaking, Start;
    if j > MERGE_ROOT || c.tree[j].leaf {
      ScratchOutside(c.tree[j], spots[j], spots[i], c.totalLines, x);
      OutsideLines(c, spots, b, x, j);
    } else {
      ScratchAtRoot(c, spots, b, i, x);
    }
  }

  // The root has no lines yet on the side on which a leaf is not sorted.
  lemma ScratchAtRoot(c: Config, spots: seq<Spot>, b: Board, i: nat, x: nat)
    requires BoardOk(c, spots, b) && MERGE_ROOT < i < |c.tree| && b.controls[i].asleep && !c.tree[MERGE_ROOT].leaf
    requires Scratch(spots[i], c.totalLines, x)
    ensures NotTaking(c, spots, b, x, MERGE_ROOT)
  {
    var root := c.tree[MERGE_ROOT];
    HerePlace(c, spots, b, MERGE_ROOT);
    HerePtrs(c, spots, b, MERGE_ROOT);
    BelowRoot(c.tree, i);
    Untouched(c, spots, b, i, MERGE_ROOT);
    BelowChild(c.tree, i, MERGE_ROOT);
    BelowWithin(c.tree, spots, c.totalLines, i, if Below(c.tree, i, root.loChild) then root.loChild else root.hiChild);
    AreaRises(0, 0, c.totalLines);
    hide BoardOk, Area, Below, NodeView;
  }

  lemma ScratchNotGiven(c: Config, spots: seq<Spot>, b: Board, i: nat, j: nat, x: nat)
    requires BoardOk(c, spots, b) && 0 < i < |c.tree| && 0 < j < |c.tree| && i != j && b.controls[i].asleep
    requires Scratch(spots[i], c.totalLines, x)
    ensures NotGiving(c, spots, b, x, j)
  {
    AsleepLeaf(c, spots, b, i);
    HerePlace(c, spots, b, j);
    hide BoardOk, NotGiving, Area, Scratch;
    if j == MERGE_ROOT {
      RootGivesNothing(c, spots, b, x);
    } else if Below(c.tree, i, j) {
      Untouched(c, spots, b, i, j);
      NothingToGive(c, spots, b, x, j);
    } else {
      LeafApart(c, spots, i, j);
      if Target(c.tree[j], spots[j], c.totalLines) <= x < Target(c.tree[j], spots[j], c.totalLines) + Lines(spots[j]) {
        ScratchApart(c.tree[j], spots[j], spots[i], c.totalLines, x);
        assert false;
      }
      OutsideTarget(c, spots, b, x, j);
    }
  }

  lemma NothingToGive(c: Config, spots: seq<Spot>, b: Board, x: nat, j: nat)
    requires BoardOk(c, spots, b) && 0 < j < |c.tree|
    requires var n := NodeView(c, spots, b, j); n.takenLo == n.takenHi == 0
    ensures NotGiving(c, spots, b, x, j)
  {
    HerePtrs(c, spots, b, j);
    hide BoardOk, Area, LoLines, HiLines, OutLines;
  }

  lemma ShareApart(c: Config, spots: seq<Spot>, b: Board, i: nat, j: nat, x: nat)
    requires BoardOk(c, spots, b) && 0 < i < |c.tree| && 0 < j < |c.tree| && i != j && b.controls[i].asleep
    requires spots[i].off <= x < End(spots[i])
    ensures NotTaking(c, spots, b, x, j) && NotGiving(c, spots, b, x, j)
  {
    AsleepLeaf(c, spots, b, i);
    CellsApart(c.tree, spots, c.totalLines, i, j);
    HerePlace(c, spots, b, j);
    hide BoardOk, Area, NotTaking, NotGiving, Start;
    OutsideLines(c, spots, b, x, j);
    if j == MERGE_ROOT {
      RootGivesNothing(c, spots, b, x);
    } else {
      AreaRises(0, c.tree[j].level - 1, c.totalLines);
      OutsideTarget(c, spots, b, x, j);
    }
  }

  lemma {:induction false} SliceSame(cells: seq<Line>, cells': seq<Line>, a: nat, z: nat)
    requires |cells'| == |cells| && forall x :: a <= x < z && x < |cells| ==> cells'[x] == cells[x]
    ensures Slice(cells', a, z) == Slice(cells, a, z)
  {
  }

  // Sorting leaf i changes no cell that matters to node j.
  lemma SortUnseen(c: Config, spots: seq<Spot>, b: Board, i: nat, j: nat, b': Board)
    requires BoardOk(c, spots, b) && 0 < i < |c.tree| && 0 < j < |c.tree| && i != j && b.controls[i].asleep
    requires Shaped(c, spots, b') && c.tree[j].parent < |c.tree| && SortedInPlace(c, spots[i], b.cells, b'.cells)
    requires b'.controls[j] == b.controls[j] && b'.ptrs[j] == b.ptrs[j] && Dest(c.tree[j], b'.ptrs) == Dest(c.tree[j], b.ptrs)
    ensures Unseen(c, spots, b, b', j)
  {
    forall x: nat | x < |b.cells| && (!NotTaking(c, spots, b, x, j) || !NotGiving(c, spots, b, x, j))
      ensures b'.cells[x] == b.cells[x]
    {
      hide BoardOk, NotTaking, NotGiving, StableSort;
      if spots[i].off <= x < End(spots[i]) {
        ShareApart(c, spots, b, i, j, x);
      }
      if Scratch(spots[i], c.totalLines, x) {
        ScratchNotTaken(c, spots, b, i, j, x);
        ScratchNotGiven(c, spots, b, i, j, x);
      }
    }
    var ptr, sp := b.ptrs[j], spots[j];
    hide BoardOk, Slice, StableSort, SortedInPlace;
    SortSlices(c, spots, b, j, b'.cells);
  }

  lemma SortSlices(c: Config, spots: seq<Spot>, b: Board, j: nat, cells': seq<Line>)
    requires Shaped(c, spots, b) && 0 < j < |c.tree| && c.tree[j].parent < |c.tree| && |cells'| == |b.cells|
    requires forall x: nat :: x < |b.cells| && (!NotTaking(c, spots, b, x, j) || !NotGiving(c, spots, b, x, j)) ==>
               cells'[x] == b.cells[x]
    ensures var k, ptr, cells := b.controls[j], b.ptrs[j], b.cells;
            && LoLines(c, spots[j], k, ptr, cells') == LoLines(c, spots[j], k, ptr, cells)
            && HiLines(c, spots[j], k, ptr, cells') == HiLines(c, spots[j], k, ptr, cells)
            && OutLines(j, k, Dest(c.tree[j], b.ptrs), ptr, cells') == OutLines(j, k, Dest(c.tree[j], b.ptrs), ptr, cells)
  {
    var k, ptr, sp := b.controls[j], b.ptrs[j], spots[j];
    hide Slice, StableSort;
    if k.asleep {
      KeptTaking(c, spots, b, j, cells', sp.off, sp.off + sp.nlo);
      KeptTaking(c, spots, b, j, cells', sp.off + sp.nlo, End(sp));
    } else {
      KeptTaking(c, spots, b, j, cells', ptr.lo, ptr.endLo);
      KeptTaking(c, spots, b, j, cells', ptr.hi, ptr.endHi);
    }
    if Writing(j, k.phase) {
      KeptGiving(c, spots, b, j, cells');
    }
  }

  lemma KeptTaking(c: Config, spots: seq<Spot>, b: Board, j: nat, cells': seq<Line>, a: nat, z: nat)
    requires Shaped(c, spots, b) && 0 < j < |c.tree| && |cells'| == |b.cells|
    requires forall x: nat :: a <= x < z ==> !NotTaking(c, spots, b, x, j)
    requires forall x: nat :: x < |b.cells| && !NotTaking(c, spots, b, x, j) ==> cells'[x] == b.cells[x]
    ensures Slice(cells', a, z) == Slice(b.cells, a, z)
  {
    hide Shaped, NotTaking;
    SliceSame(b.cells, cells', a, z);
  }

  lemma KeptGiving(c: Config, spots: seq<Spot>, b: Board, j: nat, cells': seq<Line>)
    requires Shaped(c, spots, b) && 0 < j < |c.tree| && c.tree[j].parent < |c.tree| && |cells'| == |b.cells|
    requires Writing(j, b.controls[j].phase)
    requires forall x: nat :: x < |b.cells| && !NotGiving(c, spots, b, x, j) ==> cells'[x] == b.cells[x]
    ensures Slice(cells', Dest(c.tree[j], b.ptrs), b.ptrs[j].dest) == Slice(b.cells, Dest(c.tree[j], b.ptrs), b.ptrs[j].dest)
  {
    hide SpotsOk, Slice;
    forall x: nat | Dest(c.tree[j], b.ptrs) <= x < b.ptrs[j].dest && x < |b.cells|
      ensures cells'[x] == b.cells[x]
    {
      assert !NotGiving(c, spots, b, x, j);
    }
    SliceSame(b.cells, cells', Dest(c.tree[j], b.ptrs), b.ptrs[j].dest);
  }

  // The leaf itself: its lines are as announced.
  lemma InstallView(c: Config, spots: seq<Spot>, b: Board, step: Step, b': Board)
    requires BoardOk(c, spots, b) && BoardStep(c, spots, b, step, b') && step.Install?
    ensures Shaped(c, spots, b')
            && NodeView(c, spots, b', step.i) == Advance(c, c.tree[step.i], NodeView(c, spots, b, step.i), step)
    ensures PlacedAt(c, spots, b', step.i)
  {
    var i := step.i;
    var p, n := c.tree[i], NodeView(c, spots, b, i);
    StepAt(c, spots, b, step, b');
    AsleepLeaf(c, spots, b, i);
    HerePtrs(c, spots, b, i);
    var n' := Advance(c, p, n, step);
    assert n' == n.(asleep := false, inHeap := n.inHeap + 1, queued := true);
    assert SortedInPlace(c, spots[i], b.cells, b'.cells);
    hide BoardOk, Area, StableSort, BoardStep, Advance, Can;
  }

  lemma LeafDest(c: Config, spots: seq<Spot>, b: Board, step: Step, b': Board, j: nat)
    requires BoardOk(c, spots, b) && BoardStep(c, spots, b, step, b') && step.Install?
    requires 0 < j < |c.tree| && j != step.i
    ensures c.tree[j].parent < |c.tree| == |b'.ptrs| && b'.ptrs[j] == b.ptrs[j] && b'.controls[j] == b.controls[j]
    ensures Dest(c.tree[j], b'.ptrs) == Dest(c.tree[j], b.ptrs)
  {
    StepAt(c, spots, b, step, b');
    AsleepLeaf(c, spots, b, step.i);
    assert PlaceOk(c.tree, j);
    hide BoardOk, BoardStep, NodeView, Advance;
  }

  lemma InstallBoard(c: Config, spots: seq<Spot>, b: Board, step: Step, b': Board)
    requires BoardOk(c, spots, b) && BoardStep(c, spots, b, step, b') && step.Install?
    ensures Shown(c, spots, b', Next(c, View(c, spots, b), step)) && |b'.cells| == |b.cells|
  {
    var i, s' := step.i, Next(c, View(c, spots, b), step);
    InstallView(c, spots, b, step, b');
    assert b.controls[i].asleep;
    forall j | 0 <= j < |c.tree|
      ensures NodeShown(c, spots, b', s', j)
    {
      hide NodeOk, Advance, PtrsOk, Area, KidsDelivering, Unseen, SortedInPlace;
      if j > 0 && j != i {
        LeafDest(c, spots, b, step, b', j);
        assert PlacedAt(c, spots, b, j);
        SortUnseen(c, spots, b, i, j, b');
        UnseenKeeps(c, spots, b, b', j);
      }
    }
  }

  // ---------------------------------------------------------------- every step

  lemma ShownIsView(c: Config, spots: seq<Spot>, b': Board, s': State)
    requires Shown(c, spots, b', s')
    ensures View(c, spots, b') == s' && forall j :: 0 < j < |c.tree| ==> PlacedAt(c, spots, b', j)
  {
    hide NodeView, PlacedAt;
    forall j | 0 <= j < |c.tree|
      ensures View(c, spots, b').nodes[j] == s'.nodes[j]
    {
      assert NodeShown(c, spots, b', s', j);
    }
    forall j | 0 < j < |c.tree|
      ensures PlacedAt(c, spots, b', j)
    {
      assert NodeShown(c, spots, b', s', j);
    }
    assert View(c, spots, b').nodes == s'.nodes;
  }

  /** Whatever a step does to pointers and cells, the lines between the pointers are afterwards
      those of the state that the step leads to. */
  lemma StepShows(c: Config, spots: seq<Spot>, b: Board, step: Step, b': Board)
    requires BoardOk(c, spots, b) && BoardStep(c, spots, b, step, b')
    ensures BoardOk(c, spots, b') && View(c, spots, b') == Next(c, View(c, spots, b), step)
  {
    var s, s' := View(c, spots, b), Next(c, View(c, spots, b), step);
    assert Enabled(c, s, step) && Inv(c, s);
    StepKeepsInv(c, s, step);
    assert Shown(c, spots, b', s') && |b'.cells| == |b.cells| by {
      Here(c, spots, b, step.i);
      hide BoardOk, BoardStep, Shown, NodeView, Inv, View, Next;
      if step.Install? {
        InstallBoard(c, spots, b, step, b');
      } else if step.Publish? {
        PublishBoard(c, spots, b, step, b');
      } else if step.CheckParent? {
        NotifyBoard(c, spots, b, step, b');
      } else if TakesLine(step) && step.i > MERGE_ROOT {
        TakeBelow(c, spots, b, step, b');
      } else {
        assert Quiet(step) || (TakesLine(step) && step.i == MERGE_ROOT);
        LocalBoard(c, spots, b, step, b');
      }
    }
    ShownIsView(c, spots, b', s');
    hide Inv, PlacedAt, Next, BoardStep, Roomy;
  }

  /** A line that is merged is written to a cell on which nothing stands that is still needed: no
      line that is still to be taken, none that is merged and not yet published, no line still to
      be sorted, and no scratch cell of a leaf that may be sorting. */
  lemma WritesAreFree(c: Config, spots: seq<Spot>, b: Board, step: Step, j: nat)
    requires BoardOk(c, spots, b) && Enabled(c, View(c, spots, b), step) && TakesLine(step) && step.i > MERGE_ROOT
             && 0 < j < |c.tree|
    ensures step.i < |c.tree|
    ensures var x := b.ptrs[step.i].dest;
            && x < |b.cells| && NotTaking(c, spots, b, x, j) && NotGiving(c, spots, b, x, j)
            && (b.controls[j].asleep ==> !Sorting(spots[j], c.totalLines, x))
  {
    var i, x := step.i, b.ptrs[step.i].dest;
    TakenLine(c, spots, b, step);
    Here(c, spots, b, i);
    NextIsFree(c, spots, b, i, j);
    if j == i {
      DestAt(c, spots, b, i);
    }
    if b.controls[j].asleep {
      NextNotScratch(c, spots, b, step, j);
    }
    hide Area, StableSort, SpotsOk, Roomy, Inv, KidsDelivering, View, NodeOk, PtrsOk;
  }

  lemma TakerSides(i: nat, p: Place, n: Node, lo: Node, hi: Node, step: Step)
    requires NodeOk(i, p, n, lo, hi) && Can(n, step) && TakesLine(step)
    ensures (n.lo != [] && n.hi != []) || LoLeft(n) == 0 || HiLeft(n) == 0
  {
  }

  // A node that takes a line is not above a leaf that is not sorted yet.
  lemma TakerNotAbove(c: Config, spots: seq<Spot>, b: Board, step: Step, j: nat)
    requires BoardOk(c, spots, b) && Enabled(c, View(c, spots, b), step) && TakesLine(step)
    requires 0 < j < |c.tree| && b.controls[j].asleep
    ensures step.i < |c.tree| && !Below(c.tree, j, step.i)
  {
    var i := step.i;
    TakenLine(c, spots, b, step);
    Here(c, spots, b, i);
    TakerSides(i, c.tree[i], NodeView(c, spots, b, i), LoKid(c, View(c, spots, b), i), HiKid(c, View(c, spots, b), i), step);
    if Below(c.tree, j, i) {
      Untouched(c, spots, b, j, i);
      BelowChild(c.tree, j, i);
      hide Area, StableSort, SpotsOk, Roomy, Inv, View, KidsDelivering, Below, PtrsOk, BoardOk, NodeOk, Can, LoLeft, HiLeft;
      assert false;
    }
  }

  lemma NextNotScratch(c: Config, spots: seq<Spot>, b: Board, step: Step, j: nat)
    requires BoardOk(c, spots, b) && Enabled(c, View(c, spots, b), step) && TakesLine(step) && step.i > MERGE_ROOT
    requires 0 < j < |c.tree| && b.controls[j].asleep
    ensures step.i < |c.tree| && !Scratch(spots[j], c.totalLines, b.ptrs[step.i].dest)
  {
    var i := step.i;
    TakenLine(c, spots, b, step);
    TakerNotAbove(c, spots, b, step, j);
    NextCell(c, spots, b, i);
    AsleepLeaf(c, spots, b, j);
    HerePlace(c, spots, b, i);
    LeafApart(c, spots, j, i);
    hide *;
    ScratchApart(c.tree[i], spots[i], spots[j], c.totalLines, b.ptrs[i].dest);
  }
}
