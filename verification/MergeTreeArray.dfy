/** Runs of the merge tree on the shared array, from the start that merge_tree_init and sortlines
    produce: they write what the runs of MergeTreeRuns write, no line is overwritten before it is
    taken, and the array that sort allocates is large enough. */
module MergeTreeArray {
  import opened Division
  import opened StableSpec
  import opened SequentialSort
  import opened MergeTree
  import opened MergeTreeInv
  import opened MergeTreeProgress
  import opened MergeTreeRuns
  import opened MergeTreeSpots
  import opened MergeTreeCells

  // The shares of a subtree with n lines, off lines being before it.
  predicate Spotted(spots: seq<Spot>, shape: Shape, off: nat, n: nat, base: nat) {
    && base + Size(shape) <= |spots| && spots[base] == Spot(off, n / 2, n - n / 2)
    && match shape
       case Alone => true
       case Forked(l, h) =>
         Spotted(spots, l, off, n / 2, base + 1) && Spotted(spots, h, off + n / 2, n - n / 2, base + 1 + Size(l))
  }

  /** init_node: the pointers of a node begin at its cells in the area of its level. */
  predicate Laid(controls: seq<Control>, ptrs: seq<Pointers>, shape: Shape, off: nat, n: nat, level: nat, total: nat,
                 base: nat) {
    && base + Size(shape) <= |controls| == |ptrs|
    && controls[base] == Control(n / 2, n - n / 2, Free, 0, 0, 0, shape.Alone?, false, 0, 0)
    && (var lo, hi := Area(level, total) + off, Area(level, total) + off + n / 2;
        var ptr := ptrs[base];
        ptr == Pointers(lo, lo, hi, hi, ptr.dest))
    && match shape
       case Alone => true
       case Forked(l, h) =>
         && Laid(controls, ptrs, l, off, n / 2, level + 1, total, base + 1)
         && Laid(controls, ptrs, h, off + n / 2, n - n / 2, level + 1, total, base + 1 + Size(l))
  }

  function Max(a: nat, b: nat): nat { if a < b then b else a }

  // The number of levels of nodes with children.
  function Height(shape: Shape): nat {
    match shape
    case Alone => 0
    case Forked(l, h) => 1 + Max(Height(l), Height(h))
  }

  /** The cells needed: one and a half times the input for one thread alone, or one area for the
      input and one for every level. */
  function Room(shape: Shape, total: nat): nat {
    if shape.Alone? then total + total / 2 else Area(Height(shape) + 1, total)
  }

  ghost predicate BoardStarts(c: Config, spots: seq<Spot>, b: Board, shape: Shape, input: seq<Line>) {
    && Fits(shape, |input|) && TotalPreorder(c.cmp) && c.totalLines == |input|
    && |b.controls| == |b.ptrs| == |spots| == |c.tree| == 1 + Size(shape)
    && Placed(c.tree, shape, MERGE_END, false, MERGE_ROOT, MERGE_ROOT)
    && Spotted(spots, shape, 0, |input|, MERGE_ROOT)
    && Laid(b.controls, b.ptrs, shape, 0, |input|, MERGE_ROOT, |input|, MERGE_ROOT)
    && b.controls[MERGE_END] == ControlOf(NewNode(|input|, |input|, [], [], false))
    && |input| <= |b.cells| && b.cells[..|input|] == input && Room(shape, |input|) <= |b.cells|
    && b.emitted == [] && b.written == []
  }

  // ---------------------------------------------------------------- the start

  lemma {:induction false} SpottedOk(tree: seq<Place>, spots: seq<Spot>, shape: Shape, parent: nat, isLo: bool, level: nat,
                                     off: nat, n: nat, base: nat, i: nat)
    requires TreeOk(tree) && |spots| == |tree| && 0 < base && Fits(shape, n)
    requires Placed(tree, shape, parent, isLo, level, base) && Spotted(spots, shape, off, n, base)
    requires base > MERGE_ROOT ==> parent < |tree| && level == tree[parent].level + 1
    requires base <= i < base + Size(shape)
    ensures i < |tree| && PlaceOk(tree, i) && SpotOk(tree, spots, i)
  {
    hide TreeOk, PlaceOk, SpotOk;
    if i == base {
      SpottedFirst(tree, spots, shape, parent, isLo, level, off, n, base);
    } else if i < base + 1 + Size(shape.lo) {
      SpottedOk(tree, spots, shape.lo, base, true, level + 1, off, n / 2, base + 1, i);
    } else {
      SpottedOk(tree, spots, shape.hi, base, false, level + 1, off + n / 2, n - n / 2, base + 1 + Size(shape.lo), i);
    }
  }

  lemma SpottedFirst(tree: seq<Place>, spots: seq<Spot>, shape: Shape, parent: nat, isLo: bool, level: nat,
                     off: nat, n: nat, base: nat)
    requires TreeOk(tree) && |spots| == |tree| && 0 < base && Fits(shape, n)
    requires Placed(tree, shape, parent, isLo, level, base) && Spotted(spots, shape, off, n, base)
    requires base > MERGE_ROOT ==> parent < |tree| && level == tree[parent].level + 1
    ensures base < |tree| && PlaceOk(tree, base) && SpotOk(tree, spots, base)
    ensures spots[base].off == off && Lines(spots[base]) == n
  {
    assert PlaceOk(tree, base);
    hide TreeOk;
  }

  lemma StartSpots(c: Config, spots: seq<Spot>, b: Board, shape: Shape, input: seq<Line>)
    requires BoardStarts(c, spots, b, shape, input)
    ensures Shaped(c, spots, b)
  {
    PlacedOk(c.tree, shape, MERGE_END, false, MERGE_ROOT, MERGE_ROOT);
    assert TreeOk(c.tree);
    SpottedFirst(c.tree, spots, shape, MERGE_END, false, MERGE_ROOT, 0, |input|, MERGE_ROOT);
    hide PlaceOk, SpotOk, Placed, Spotted, Laid, Fits, TotalPreorder, TreeOk;
    forall i | 0 < i < |c.tree|
      ensures PlaceOk(c.tree, i) && SpotOk(c.tree, spots, i)
    {
      SpottedOk(c.tree, spots, shape, MERGE_END, false, MERGE_ROOT, 0, |input|, MERGE_ROOT, i);
    }
  }

  lemma {:induction false} SliceOf(cells: seq<Line>, input: seq<Line>, off: nat, n: nat, m: nat)
    requires m <= n && off + n <= |cells| && cells[off..off + n] == input
    ensures Slice(cells, off, off + m) == input[..m] && Slice(cells, off + m, off + n) == input[m..]
  {
    CellsOf(cells, input, off, n, m);
  }

  lemma {:induction false} CellsOf(cells: seq<Line>, input: seq<Line>, off: nat, n: nat, m: nat)
    requires m <= n && off + n <= |cells| && cells[off..off + n] == input
    ensures cells[off..off + m] == input[..m] && cells[off + m..off + n] == input[m..]
  {
  }

  lemma NoSlice(cells: seq<Line>, a: nat)
    ensures Slice(cells, a, a) == []
  {
  }

  lemma {:induction false} ForkedParts(c: Config, spots: seq<Spot>, b: Board, l: Shape, h: Shape, parent: nat,
                                       isLo: bool, level: nat,
                                       off: nat, n: nat, base: nat)
    requires Placed(c.tree, Forked(l, h), parent, isLo, level, base) && Spotted(spots, Forked(l, h), off, n, base)
    requires Laid(b.controls, b.ptrs, Forked(l, h), off, n, level, c.totalLines, base)
    ensures Placed(c.tree, l, base, true, level + 1, base + 1) && Placed(c.tree, h, base, false, level + 1, base + 1 + Size(l))
    ensures Spotted(spots, l, off, n / 2, base + 1) && Spotted(spots, h, off + n / 2, n - n / 2, base + 1 + Size(l))
    ensures Laid(b.controls, b.ptrs, l, off, n / 2, level + 1, c.totalLines, base + 1)
    ensures Laid(b.controls, b.ptrs, h, off + n / 2, n - n / 2, level + 1, c.totalLines, base + 1 + Size(l))
  {
  }

  lemma {:induction false} ForkedFills(cmp: Order, nodes: seq<Node>, l: Shape, h: Shape, input: seq<Line>, base: nat)
    requires base + 1 + Size(l) + Size(h) <= |nodes|
    requires nodes[base] == NewNode(|input| / 2, |input| - |input| / 2, [], [], false)
    requires Filled(cmp, nodes, l, input[..|input| / 2], base + 1)
             && Filled(cmp, nodes, h, input[|input| / 2..], base + 1 + Size(l))
    ensures Filled(cmp, nodes, Forked(l, h), input, base)
  {
  }

  // The board of a subtree at the start.
  ghost predicate Prepared(c: Config, spots: seq<Spot>, b: Board, shape: Shape, parent: nat, isLo: bool, level: nat,
                           off: nat, input: seq<Line>, base: nat)
  {
    && 0 < base && base + Size(shape) <= |c.tree|
    && Placed(c.tree, shape, parent, isLo, level, base) && Spotted(spots, shape, off, |input|, base)
    && Laid(b.controls, b.ptrs, shape, off, |input|, level, c.totalLines, base)
    && off + |input| <= |b.cells| && b.cells[off..off + |input|] == input
  }

  lemma PreparedHalves(c: Config, spots: seq<Spot>, b: Board, l: Shape, h: Shape, parent: nat, isLo: bool, level: nat,
                       off: nat, input: seq<Line>, base: nat)
    requires Prepared(c, spots, b, Forked(l, h), parent, isLo, level, off, input, base)
    ensures Prepared(c, spots, b, l, base, true, level + 1, off, input[..|input| / 2], base + 1)
    ensures Prepared(c, spots, b, h, base, false, level + 1, off + |input| / 2, input[|input| / 2..], base + 1 + Size(l))
  {
    hide *;
    var n, m := |input|, |input| / 2;
    var lo, hi := input[..m], input[m..];
    assert |lo| == m && |hi| == n - m && off + m + (n - m) == off + n;
    SizeForked(l, h);
    PreparedParts(c, spots, b, Forked(l, h), parent, isLo, level, off, input, base);
    ForkedParts(c, spots, b, l, h, parent, isLo, level, off, n, base);
    CellsOf(b.cells, input, off, n, m);
    PreparedIs(c, spots, b, l, base, true, level + 1, off, lo, base + 1);
    PreparedIs(c, spots, b, h, base, false, level + 1, off + m, hi, base + 1 + Size(l));
  }

  lemma PreparedIs(c: Config, spots: seq<Spot>, b: Board, shape: Shape, parent: nat, isLo: bool, level: nat,
                   off: nat, input: seq<Line>, base: nat)
    requires 0 < base && base + Size(shape) <= |c.tree|
    requires Placed(c.tree, shape, parent, isLo, level, base) && Spotted(spots, shape, off, |input|, base)
    requires Laid(b.controls, b.ptrs, shape, off, |input|, level, c.totalLines, base)
    requires off + |input| <= |b.cells| && b.cells[off..off + |input|] == input
    ensures Prepared(c, spots, b, shape, parent, isLo, level, off, input, base)
  {
    hide Placed, Spotted, Laid, Size;
  }

  lemma PreparedParts(c: Config, spots: seq<Spot>, b: Board, shape: Shape, parent: nat, isLo: bool, level: nat,
                      off: nat, input: seq<Line>, base: nat)
    requires Prepared(c, spots, b, shape, parent, isLo, level, off, input, base)
    ensures 0 < base && base + Size(shape) <= |c.tree|
    ensures Placed(c.tree, shape, parent, isLo, level, base) && Spotted(spots, shape, off, |input|, base)
    ensures Laid(b.controls, b.ptrs, shape, off, |input|, level, c.totalLines, base)
    ensures off + |input| <= |b.cells| && b.cells[off..off + |input|] == input
  {
    hide Placed, Spotted, Laid, Size;
  }

  // The view of the board at the start is that of MergeTreeRuns.
  lemma {:induction false} FilledView(c: Config, spots: seq<Spot>, b: Board, shape: Shape, parent: nat, isLo: bool, level: nat,
                                      off: nat, input: seq<Line>, base: nat)
    requires Shaped(c, spots, b) && Prepared(c, spots, b, shape, parent, isLo, level, off, input, base)
    ensures Filled(c.cmp, View(c, spots, b).nodes, shape, input, base)
  {
    hide *;
    FirstView(c, spots, b, shape, parent, isLo, level, off, input, base);
    match shape
    case Alone =>
      AloneFills(c.cmp, View(c, spots, b).nodes, input, base);
    case Forked(l, h) =>
      var m := |input| / 2;
      PreparedHalves(c, spots, b, l, h, parent, isLo, level, off, input, base);
      FilledView(c, spots, b, l, base, true, level + 1, off, input[..m], base + 1);
      FilledView(c, spots, b, h, base, false, level + 1, off + m, input[m..], base + 1 + Size(l));
      ForkedFills(c.cmp, View(c, spots, b).nodes, l, h, input, base);
  }

  lemma {:induction false} PlacedView(c: Config, spots: seq<Spot>, b: Board, shape: Shape, parent: nat, isLo: bool, level: nat,
                                      off: nat, input: seq<Line>, base: nat, i: nat)
    requires Shaped(c, spots, b) && Prepared(c, spots, b, shape, parent, isLo, level, off, input, base)
    requires base <= i < base + Size(shape)
    ensures i < |c.tree| && PlacedAt(c, spots, b, i)
  {
    hide *;
    FirstView(c, spots, b, shape, parent, isLo, level, off, input, base);
    if i > base {
      match shape
      case Alone =>
        SizeForked(Alone, Alone);
      case Forked(l, h) =>
        var m := |input| / 2;
        SizeForked(l, h);
        PreparedHalves(c, spots, b, l, h, parent, isLo, level, off, input, base);
        if i < base + 1 + Size(l) {
          PlacedView(c, spots, b, l, base, true, level + 1, off, input[..m], base + 1, i);
        } else {
          PlacedView(c, spots, b, h, base, false, level + 1, off + m, input[m..], base + 1 + Size(l), i);
        }
    }
  }

  lemma SizeForked(l: Shape, h: Shape)
    ensures Size(Forked(l, h)) == 1 + Size(l) + Size(h) && Size(Alone) == 1
  {
  }

  lemma AloneFills(cmp: Order, nodes: seq<Node>, input: seq<Line>, base: nat)
    requires base < |nodes|
    requires var m := |input| / 2;
             nodes[base] == NewNode(m, |input| - m, StableSort(cmp, input[..m]), StableSort(cmp, input[m..]), true)
    ensures Size(Alone) == 1 && Filled(cmp, nodes, Alone, input, base)
  {
  }

  // The first node of a subtree.
  lemma FirstParts(c: Config, spots: seq<Spot>, b: Board, shape: Shape, parent: nat, isLo: bool, level: nat,
                   off: nat, input: seq<Line>, base: nat)
    requires Prepared(c, spots, b, shape, parent, isLo, level, off, input, base)
    ensures 0 < base < |c.tree| && base < |spots| && base < |b.controls| == |b.ptrs|
    ensures shape.Forked? ==> base + 1 + Size(shape.lo) + Size(shape.hi) <= |c.tree|
    ensures c.tree[base].parent == parent && c.tree[base].level == level && c.tree[base].leaf == shape.Alone?
    ensures var n, st := |input|, Area(level, c.totalLines) + off;
            && spots[base] == Spot(off, n / 2, n - n / 2)
            && b.controls[base] == Control(n / 2, n - n / 2, Free, 0, 0, 0, shape.Alone?, false, 0, 0)
            && b.ptrs[base] == Pointers(st, st, st + n / 2, st + n / 2, b.ptrs[base].dest)
  {
    hide Area;
  }

  lemma FirstLines(c: Config, sp: Spot, k: Control, ptr: Pointers, cells: seq<Line>, input: seq<Line>)
    requires sp.off + |input| <= |cells| && cells[sp.off..sp.off + |input|] == input
    requires sp.nlo == |input| / 2 && sp.nhi == |input| - |input| / 2 && ptr.endLo == ptr.lo && ptr.endHi == ptr.hi
    ensures LoLines(c, sp, k, ptr, cells) == if k.asleep then StableSort(c.cmp, input[..|input| / 2]) else []
    ensures HiLines(c, sp, k, ptr, cells) == if k.asleep then StableSort(c.cmp, input[|input| / 2..]) else []
  {
    hide StableSort, Slice;
    SliceOf(cells, input, sp.off, |input|, |input| / 2);
    NoSlice(cells, ptr.lo);
    NoSlice(cells, ptr.hi);
  }

  lemma FirstView(c: Config, spots: seq<Spot>, b: Board, shape: Shape, parent: nat, isLo: bool, level: nat,
                  off: nat, input: seq<Line>, base: nat)
    requires Shaped(c, spots, b) && Prepared(c, spots, b, shape, parent, isLo, level, off, input, base)
    ensures 0 < base < |c.tree| && PlacedAt(c, spots, b, base)
            && (shape.Forked? ==> base + 1 + Size(shape.lo) + Size(shape.hi) <= |c.tree|)
    ensures var m, n := |input| / 2, View(c, spots, b).nodes[base];
            n == if shape.Alone?
                 then NewNode(m, |input| - m, StableSort(c.cmp, input[..m]), StableSort(c.cmp, input[m..]), true)
                 else NewNode(m, |input| - m, [], [], false)
  {
    hide *;
    FirstParts(c, spots, b, shape, parent, isLo, level, off, input, base);
    FirstCells(c, spots, b, shape, parent, isLo, level, off, input, base);
    FirstLines(c, spots[base], b.controls[base], b.ptrs[base], b.cells, input);
    FirstNodeView(c, spots, b, base, shape.Alone?, off, level, input);
  }

  lemma FirstCells(c: Config, spots: seq<Spot>, b: Board, shape: Shape, parent: nat, isLo: bool, level: nat,
                   off: nat, input: seq<Line>, base: nat)
    requires Prepared(c, spots, b, shape, parent, isLo, level, off, input, base)
    ensures off + |input| <= |b.cells| && b.cells[off..off + |input|] == input
  {
    hide Placed, Spotted, Laid;
  }

  lemma FirstNodeView(c: Config, spots: seq<Spot>, b: Board, i: nat, alone: bool, off: nat, level: nat, input: seq<Line>)
    requires Shaped(c, spots, b) && 0 < i < |c.tree| && c.tree[i].level == level && c.tree[i].leaf == alone
    requires var n, st := |input|, Area(level, c.totalLines) + off;
             var sp, k, ptr := spots[i], b.controls[i], b.ptrs[i];
             && sp == Spot(off, n / 2, n - n / 2)
             && k == Control(n / 2, n - n / 2, Free, 0, 0, 0, alone, false, 0, 0)
             && ptr == Pointers(st, st, st + n / 2, st + n / 2, ptr.dest)
             && LoLines(c, sp, k, ptr, b.cells) == (if alone then StableSort(c.cmp, input[..n / 2]) else [])
             && HiLines(c, sp, k, ptr, b.cells) == (if alone then StableSort(c.cmp, input[n / 2..]) else [])
    ensures PlacedAt(c, spots, b, i)
    ensures var m, n := |input| / 2, View(c, spots, b).nodes[i];
            n == if alone then NewNode(m, |input| - m, StableSort(c.cmp, input[..m]), StableSort(c.cmp, input[m..]), true)
                 else NewNode(m, |input| - m, [], [], false)
  {
    assert PlaceOk(c.tree, i);
    hide Area, StableSort, SpotsOk, LoLines, HiLines, View;
    assert View(c, spots, b).nodes[i] == NodeView(c, spots, b, i);
  }

  lemma {:induction false} LevelsIn(tree: seq<Place>, spots: seq<Spot>, shape: Shape, parent: nat, isLo: bool,
                                    level: nat, base: nat)
    requires Placed(tree, shape, parent, isLo, level, base)
    ensures forall i :: base <= i < base + Size(shape) && !tree[i].leaf ==> tree[i].level < level + Height(shape)
  {
    if shape.Forked? {
      LevelsIn(tree, spots, shape.lo, base, true, level + 1, base + 1);
      LevelsIn(tree, spots, shape.hi, base, false, level + 1, base + 1 + Size(shape.lo));
    }
  }

  lemma StartRoomy(c: Config, spots: seq<Spot>, b: Board, shape: Shape, input: seq<Line>)
    requires BoardStarts(c, spots, b, shape, input) && Shaped(c, spots, b)
    ensures Roomy(c, spots, |b.cells|)
  {
    var total, size := c.totalLines, |b.cells|;
    LevelsIn(c.tree, spots, shape, MERGE_END, false, MERGE_ROOT, MERGE_ROOT);
    AreaRises(1, Height(shape) + 1, total);
    forall i | 0 < i < |c.tree|
      ensures Start(c.tree[i], spots[i], total) + Lines(spots[i]) <= size
      ensures c.tree[i].leaf ==> total + spots[i].off + spots[i].nlo / 2 + spots[i].nhi / 2 <= size
    {
      InTotal(c.tree, spots, total, i);
      AreaRises(c.tree[i].level, Height(shape) + 1, total);
      hide Area, Placed, Spotted, Laid, Fits, Shaped, TotalPreorder;
      if shape.Alone? {
        assert i == MERGE_ROOT;
      }
    }
  }

  lemma StartShows(c: Config, spots: seq<Spot>, b: Board, shape: Shape, input: seq<Line>)
    requires BoardStarts(c, spots, b, shape, input)
    ensures BoardOk(c, spots, b) && Starts(c, View(c, spots, b), shape, input)
  {
    StartSpots(c, spots, b, shape, input);
    StartRoomy(c, spots, b, shape, input);
    assert b.cells[0..0 + |input|] == input;
    assert Prepared(c, spots, b, shape, MERGE_END, false, MERGE_ROOT, 0, input, MERGE_ROOT);
    FilledView(c, spots, b, shape, MERGE_END, false, MERGE_ROOT, 0, input, MERGE_ROOT);
    forall i | 0 < i < |c.tree|
      ensures PlacedAt(c, spots, b, i)
    {
      PlacedView(c, spots, b, shape, MERGE_END, false, MERGE_ROOT, 0, input, MERGE_ROOT, i);
    }
    assert Starts(c, View(c, spots, b), shape, input);
    hide Inv, Starts, Placed, Spotted, Laid, Fits, Shaped, Filled, Roomy, PlacedAt;
    StartOk(c, View(c, spots, b), shape, input);
  }

  // ---------------------------------------------------------------- runs

  ghost predicate IsBoardRun(c: Config, spots: seq<Spot>, boards: seq<Board>, steps: seq<Step>) {
    && |boards| == |steps| + 1
    && forall k :: 0 <= k < |steps| ==> Shaped(c, spots, boards[k]) && BoardStep(c, spots, boards[k], steps[k], boards[k + 1])
  }

  lemma {:induction false} BoardRunKeeps(c: Config, spots: seq<Spot>, boards: seq<Board>, steps: seq<Step>, k: nat)
    requires IsBoardRun(c, spots, boards, steps) && BoardOk(c, spots, boards[0]) && k < |boards|
    ensures BoardOk(c, spots, boards[k])
    ensures k > 0 ==> BoardOk(c, spots, boards[k - 1]) && Enabled(c, View(c, spots, boards[k - 1]), steps[k - 1])
                      && View(c, spots, boards[k]) == Next(c, View(c, spots, boards[k - 1]), steps[k - 1])
  {
    if k > 0 {
      BoardRunKeeps(c, spots, boards, steps, k - 1);
      assert BoardStep(c, spots, boards[k - 1], steps[k - 1], boards[k]);
      hide BoardOk, View, Next, Enabled;
      StepShows(c, spots, boards[k - 1], steps[k - 1], boards[k]);
    }
  }

  // What the boards of a run show.
  ghost function Views(c: Config, spots: seq<Spot>, boards: seq<Board>): (r: seq<State>)
    requires forall k :: 0 <= k < |boards| ==> Shaped(c, spots, boards[k])
    ensures |r| == |boards| && forall k :: 0 <= k < |r| ==> r[k] == View(c, spots, boards[k])
  {
    seq(|boards|, k requires 0 <= k < |boards| => View(c, spots, boards[k]))
  }

  /** Every run on the array is a run of the tree. */
  lemma BoardRunIsRun(c: Config, spots: seq<Spot>, boards: seq<Board>, steps: seq<Step>, shape: Shape, input: seq<Line>)
    requires IsBoardRun(c, spots, boards, steps) && BoardStarts(c, spots, boards[0], shape, input)
    ensures forall k :: 0 <= k < |boards| ==> BoardOk(c, spots, boards[k])
    ensures forall k :: 0 <= k < |boards| ==> Shaped(c, spots, boards[k])
    ensures IsRun(c, Views(c, spots, boards), steps) && Starts(c, View(c, spots, boards[0]), shape, input)
  {
    StartShows(c, spots, boards[0], shape, input);
    hide Next, View, Enabled, Starts, BoardStarts, BoardStep, BoardOk, Shaped;
    forall k | 0 <= k < |boards|
      ensures BoardOk(c, spots, boards[k]) && Shaped(c, spots, boards[k])
    {
      BoardRunKeeps(c, spots, boards, steps, k);
    }
    var r := Views(c, spots, boards);
    forall k | 0 <= k < |steps|
      ensures Enabled(c, r[k], steps[k]) && r[k + 1] == Next(c, r[k], steps[k])
    {
      BoardRunKeeps(c, spots, boards, steps, k + 1);
    }
  }

  /** Safety on the array, in every interleaving: what is emitted is a beginning of the stable
      sort, and all of it once MERGE_END is queued; the output file holds what -u keeps of it. */
  lemma EveryBoardRun(c: Config, spots: seq<Spot>, boards: seq<Board>, steps: seq<Step>, shape: Shape, input: seq<Line>, k: nat)
    requires IsBoardRun(c, spots, boards, steps) && BoardStarts(c, spots, boards[0], shape, input) && k < |boards|
    ensures boards[k].emitted <= StableSort(c.cmp, input) && boards[k].written == Written(c, boards[k].emitted)
    ensures |boards[k].controls| > 0
    ensures boards[k].controls[MERGE_END].inHeap > 0 ==> boards[k].emitted == StableSort(c.cmp, input)
  {
    BoardRunIsRun(c, spots, boards, steps, shape, input);
    var states := Views(c, spots, boards);
    hide BoardStarts, IsBoardRun, Starts, IsRun, Inv;
    EveryRunIsSafe(c, states, steps, shape, input, k);
    EndMeansDone(c, states, steps, shape, input, k);
    assert states[k].nodes[MERGE_END] == NodeView(c, spots, boards[k], MERGE_END);
  }

  /** In every run, each merged line is stored in a cell that nothing else needs: whatever node j
      is, no line it has still to take, none it has merged and not published, and, if its share is
      not sorted yet, no line of its share and none of the cells used in sorting it. */
  lemma EveryWriteIsFree(c: Config, spots: seq<Spot>, boards: seq<Board>, steps: seq<Step>, shape: Shape,
                         input: seq<Line>, k: nat, j: nat)
    requires IsBoardRun(c, spots, boards, steps) && BoardStarts(c, spots, boards[0], shape, input) && k < |steps|
    requires TakesLine(steps[k]) && steps[k].i > MERGE_ROOT && 0 < j < |c.tree|
    ensures var b, b', i := boards[k], boards[k + 1], steps[k].i;
            && Shaped(c, spots, b) && Shaped(c, spots, b') && i < |c.tree|
            && var x := b.ptrs[i].dest;
            && x < |b.cells| == |b'.cells| && (forall y :: 0 <= y < |b.cells| && y != x ==> b'.cells[y] == b.cells[y])
            && NotTaking(c, spots, b, x, j) && NotGiving(c, spots, b, x, j)
            && (b.controls[j].asleep ==> !Sorting(spots[j], c.totalLines, x))
  {
    BoardRunIsRun(c, spots, boards, steps, shape, input);
    var b, b' := boards[k], boards[k + 1];
    assert BoardStep(c, spots, b, steps[k], b') && BoardOk(c, spots, b) && BoardOk(c, spots, b');
    hide BoardStarts, IsBoardRun, Starts, IsRun, Inv, BoardOk, NotTaking, NotGiving, Sorting;
    WritesAreFree(c, spots, b, steps[k], j);
    StepAt(c, spots, b, steps[k], b');
  }

  // The cells after a leaf has been sorted.
  lemma SortCells(c: Config, sp: Spot, cells: seq<Line>) returns (cells': seq<Line>)
    requires End(sp) <= |cells|
    ensures SortedInPlace(c, sp, cells, cells')
  {
    var a, m, z := sp.off, sp.off + sp.nlo, End(sp);
    var lo, hi := StableSort(c.cmp, cells[a..m]), StableSort(c.cmp, cells[m..z]);
    hide *;
    var above, below := cells[..a], cells[z..];
    cells' := above + (lo + hi) + below;
    assert cells'[a..z] == lo + hi;
    assert cells'[a..m] == cells'[a..z][..m - a] == lo && cells'[m..z] == cells'[a..z][m - a..] == hi;
    SortedInPlaceIs(c, sp, cells, cells', lo, hi);
  }

  lemma SortedInPlaceIs(c: Config, sp: Spot, cells: seq<Line>, cells': seq<Line>, lo: seq<Line>, hi: seq<Line>)
    requires End(sp) <= |cells| == |cells'| && End(sp) == sp.off + sp.nlo + sp.nhi
    requires lo == StableSort(c.cmp, cells[sp.off..sp.off + sp.nlo]) && hi == StableSort(c.cmp, cells[sp.off + sp.nlo..End(sp)])
    requires cells'[sp.off..sp.off + sp.nlo] == lo && cells'[sp.off + sp.nlo..End(sp)] == hi
    requires forall x :: 0 <= x < |cells| && !(sp.off <= x < End(sp)) ==> cells'[x] == cells[x]
    ensures SortedInPlace(c, sp, cells, cells')
  {
    hide StableSort, Scratch;
  }

  lemma StepCells(c: Config, spots: seq<Spot>, b: Board, step: Step) returns (cells': seq<Line>)
    requires BoardOk(c, spots, b) && TotalPreorder(c.cmp) && Enabled(c, View(c, spots, b), step)
    ensures 0 < step.i < |c.tree| && c.tree[step.i].parent < step.i && Can(NodeView(c, spots, b, step.i), step)
    ensures CellStep(c, c.tree[step.i], spots[step.i], b.controls[step.i], b.ptrs[step.i], b.cells, step, cells')
  {
    var i := step.i;
    assert 0 < i < |c.tree| && c.tree[i].parent < i && Can(NodeView(c, spots, b, i), step);
    cells' := b.cells;
    HerePlace(c, spots, b, i);
    if step.Install? {
      cells' := SortCells(c, spots[i], b.cells);
    } else if TakesLine(step) && c.tree[i].level > MERGE_ROOT {
      TakerDest(c, spots, b, step);
      cells' := b.cells[b.ptrs[i].dest := Taken(c, b.controls[i], b.ptrs[i], b.cells)];
    }
    hide BoardOk, NodeView, Taken, SortedInPlace, TotalPreorder, Enabled, Can;
  }

  /** A step of the tree can be made on the array. */
  lemma StepOnBoard(c: Config, spots: seq<Spot>, b: Board, step: Step) returns (b': Board)
    requires BoardOk(c, spots, b) && TotalPreorder(c.cmp) && Enabled(c, View(c, spots, b), step)
    ensures BoardStep(c, spots, b, step, b')
  {
    var cells' := StepCells(c, spots, b, step);
    hide NodeView, Advance, Notify, Taken, TotalPreorder, Enabled, Can, Published, PtrStep,
         CellStep, Inv, PlacedAt, Roomy, SpotsOk;
    var i := step.i;
    var p, k, ptr, n := c.tree[i], b.controls[i], b.ptrs[i], NodeView(c, spots, b, i);
    var k', ptr' := ControlOf(Advance(c, p, n, step)), PtrStep(c, p, spots[i], k, ptr, Dest(p, b.ptrs), b.cells, step);
    var x := Taken(c, k, ptr, b.cells);
    var root := TakesLine(step) && p.level <= MERGE_ROOT;
    b' := Board(
      if step.CheckParent? then b.controls[p.parent := ControlOf(Notify(p, n, NodeView(c, spots, b, p.parent)))][i := k']
      else b.controls[i := k'],
      if step.Publish? then b.ptrs[p.parent := Published(p, b.ptrs[p.parent], ptr.dest)][i := ptr'] else b.ptrs[i := ptr'],
      cells',
      if root then b.emitted + [x] else b.emitted,
      if root then WriteUnique(c, b.written, x) else b.written);
  }

  /** Progress on the array: a run is no longer than its start allows, and until MERGE_END is
      queued there is a step to go on with. */
  lemma EveryBoardRunEnds(c: Config, spots: seq<Spot>, boards: seq<Board>, steps: seq<Step>, shape: Shape, input: seq<Line>)
    returns (step: Step, b': Board)
    requires IsBoardRun(c, spots, boards, steps) && BoardStarts(c, spots, boards[0], shape, input)
    ensures |steps| <= 30 * |input| + Work(shape, |input|)
    ensures Shaped(c, spots, boards[|steps|]) && |boards[|steps|].controls| > 0
    ensures boards[|steps|].controls[MERGE_END].inHeap == 1 || BoardStep(c, spots, boards[|steps|], step, b')
  {
    BoardRunIsRun(c, spots, boards, steps, shape, input);
    var states, b := Views(c, spots, boards), boards[|steps|];
    assert TotalPreorder(c.cmp) && BoardOk(c, spots, b);
    step := EveryRunEnds(c, states, steps, shape, input);
    b' := b;
    assert states[|steps|].nodes[MERGE_END] == NodeView(c, spots, b, MERGE_END);
    if b.controls[MERGE_END].inHeap != 1 {
      hide BoardStarts, IsBoardRun, Starts, IsRun, Inv, BoardOk, BoardStep;
      b' := StepOnBoard(c, spots, b, step);
    }
  }

  // ---------------------------------------------------------------- the size of the array

  // A node is forked only among threads of which each half gets one at least.
  predicate Threaded(shape: Shape, nthreads: nat) {
    shape.Forked? ==> nthreads > 1 && Threaded(shape.lo, nthreads / 2) && Threaded(shape.hi, nthreads - nthreads / 2)
  }

  lemma {:induction false} HeightBound(shape: Shape, nthreads: nat, k: nat)
    requires Threaded(shape, nthreads) && nthreads <= Pow2(k)
    ensures Height(shape) <= k
    decreases shape
  {
    if shape.Forked? {
      HeightBound(shape.lo, nthreads / 2, k - 1);
      HeightBound(shape.hi, nthreads - nthreads / 2, k - 1);
    }
  }

  /** sort: the number of line cells to allocate for a line, in halves. */
  method HalfCellsPerLine(nthreads: nat) returns (halves: nat, ghost k: nat)
    ensures nthreads <= 1 ==> halves == 3
    ensures nthreads > 1 ==> k > 0 && halves == 2 * (k + 1) && nthreads <= Pow2(k) < 2 * nthreads
  {
    k := 0;
    if nthreads > 1 {
      var tmp, mult := 1, 1;
      while tmp < nthreads
        invariant mult == k + 1 && tmp == Pow2(k) && (k > 0 ==> tmp < 2 * nthreads)
        decreases nthreads - tmp
      {
        tmp, mult, k := tmp * 2, mult + 1, k + 1;
      }
      halves := 2 * mult;
    } else {
      halves := 3;
    }
  }

  /** As many cells suffice, however sortlines splits the lines among the threads. */
  lemma CellsSuffice(shape: Shape, nthreads: nat, halves: nat, k: nat, total: nat)
    requires Threaded(shape, nthreads)
    requires if nthreads <= 1 then halves == 3 else k > 0 && halves == 2 * (k + 1) && nthreads <= Pow2(k)
    ensures Room(shape, total) <= total * halves / 2
  {
    if nthreads > 1 {
      HeightBound(shape, nthreads, k);
      AreaRises(Height(shape) + 1, k + 1, total);
      AreaRises(1, k + 1, total);
      Halves(total, k + 1);
    }
  }

  lemma Halves(total: nat, m: nat)
    ensures total * (2 * m) / 2 == Area(m, total)
  {
    assert total * (2 * m) == 2 * (m * total);
  }
}
