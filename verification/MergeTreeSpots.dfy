/** Where the nodes of the merge tree have their lines: one array is shared by all of them, with an
    area as large as the input for every level of the tree. */
module MergeTreeSpots {
  import opened Division
  import opened MergeTree

  /** A node's share of the lines: the number of lines before it, and its two halves. */
  datatype Spot = Spot(off: nat, nlo: nat, nhi: nat)

  function Lines(sp: Spot): nat { sp.nlo + sp.nhi }

  function End(sp: Spot): nat { sp.off + sp.nlo + sp.nhi }

  // A child has one half of the lines of its parent.
  predicate SpotOk(tree: seq<Place>, spots: seq<Spot>, i: nat)
    requires 0 < i < |tree| == |spots| && PlaceOk(tree, i)
  {
    var p, sp := tree[i], spots[i];
    && (i > MERGE_ROOT ==> p.level == tree[p.parent].level + 1)
    && (!p.leaf ==>
          && sp.nlo > 0 && spots[p.loChild].off == sp.off && Lines(spots[p.loChild]) == sp.nlo
          && sp.nhi > 0 && spots[p.hiChild].off == sp.off + sp.nlo && Lines(spots[p.hiChild]) == sp.nhi)
  }

  ghost predicate SpotsOk(tree: seq<Place>, spots: seq<Spot>, total: nat) {
    && TreeOk(tree) && |spots| == |tree|
    && (forall i :: 0 < i < |tree| ==> assert PlaceOk(tree, i); SpotOk(tree, spots, i))
    && spots[MERGE_ROOT].off == 0 && Lines(spots[MERGE_ROOT]) == total
  }

  lemma SpotAt(tree: seq<Place>, spots: seq<Spot>, total: nat, i: nat)
    requires SpotsOk(tree, spots, total) && 0 < i < |tree|
    ensures |spots| == |tree| && PlaceOk(tree, i) && SpotOk(tree, spots, i)
    ensures i > MERGE_ROOT ==> 0 < tree[i].parent < i && PlaceOk(tree, tree[i].parent) && SpotOk(tree, spots, tree[i].parent)
  {
    assert PlaceOk(tree, i);
    if i > MERGE_ROOT {
      assert PlaceOk(tree, tree[i].parent);
    }
  }

  // Node i is node a, or in the subtree below it.
  ghost predicate Below(tree: seq<Place>, i: nat, a: nat)
    requires TreeOk(tree) && 0 < i < |tree|
    decreases i
  {
    assert PlaceOk(tree, i);
    i == a || (i > MERGE_ROOT && Below(tree, tree[i].parent, a))
  }

  /** What is below a node lies within its share, and at a greater level. */
  lemma {:induction false} BelowWithin(tree: seq<Place>, spots: seq<Spot>, total: nat, i: nat, a: nat)
    requires SpotsOk(tree, spots, total) && 0 < a < |tree| && 0 < i < |tree| && Below(tree, i, a)
    ensures |spots| == |tree| && spots[a].off <= spots[i].off && End(spots[i]) <= End(spots[a])
    ensures tree[a].level <= tree[i].level && (i != a ==> tree[a].level < tree[i].level && !tree[a].leaf)
    decreases i
  {
    if i != a {
      SpotAt(tree, spots, total, i);
      BelowWithin(tree, spots, total, tree[i].parent, a);
    }
  }

  lemma {:induction false} BelowRoot(tree: seq<Place>, i: nat)
    requires TreeOk(tree) && 0 < i < |tree|
    ensures Below(tree, i, MERGE_ROOT)
    decreases i
  {
    assert PlaceOk(tree, i);
    if i > MERGE_ROOT {
      BelowRoot(tree, tree[i].parent);
    }
  }

  /** A node below another one is below one of its children. */
  lemma {:induction false} BelowChild(tree: seq<Place>, i: nat, a: nat)
    requires TreeOk(tree) && 0 < a < |tree| && 0 < i < |tree| && Below(tree, i, a) && i != a
    ensures !tree[a].leaf && 0 < tree[a].loChild < |tree| && 0 < tree[a].hiChild < |tree|
    ensures Below(tree, i, tree[a].loChild) || Below(tree, i, tree[a].hiChild)
    decreases i
  {
    assert PlaceOk(tree, i) && PlaceOk(tree, a);
    if tree[i].parent != a {
      BelowChild(tree, tree[i].parent, a);
    }
  }

  /** Nodes neither of which is below the other have no lines in common. */
  lemma {:induction false} Apart(tree: seq<Place>, spots: seq<Spot>, total: nat, i: nat, j: nat)
    requires SpotsOk(tree, spots, total) && 0 < i < |tree| && 0 < j < |tree|
    ensures |spots| == |tree|
    ensures Below(tree, i, j) || Below(tree, j, i) || End(spots[i]) <= spots[j].off || End(spots[j]) <= spots[i].off
    decreases i + j
  {
    if i < j {
      ApartFrom(tree, spots, total, i, j);
    } else if j < i {
      ApartFrom(tree, spots, total, j, i);
    }
  }

  lemma {:induction false} ApartFrom(tree: seq<Place>, spots: seq<Spot>, total: nat, i: nat, j: nat)
    requires SpotsOk(tree, spots, total) && 0 < i < j < |tree|
    ensures |spots| == |tree|
    ensures Below(tree, j, i) || End(spots[i]) <= spots[j].off || End(spots[j]) <= spots[i].off
    decreases i + j, 0
  {
    SpotAt(tree, spots, total, j);
    var p := tree[j].parent;
    if p != i {
      Apart(tree, spots, total, i, p);
      if Below(tree, i, p) {
        BelowChild(tree, i, p);
        if Below(tree, i, j) {
          BelowBefore(tree, i, j);
        } else {
          BelowWithin(tree, spots, total, i, if tree[j].isLo then tree[p].hiChild else tree[p].loChild);
        }
      }
    }
  }

  lemma {:induction false} BelowBefore(tree: seq<Place>, i: nat, a: nat)
    requires TreeOk(tree) && 0 < i < |tree| && Below(tree, i, a)
    ensures a <= i
    decreases i
  {
    assert PlaceOk(tree, i);
    if i != a {
      BelowBefore(tree, tree[i].parent, a);
    }
  }

  // ---------------------------------------------------------------- areas

  // Cells are counted from the end of the array, where the input begins.
  function Area(level: nat, total: nat): nat { level * total }

  lemma AreaRises(a: nat, b: nat, total: nat)
    ensures Area(0, total) == 0 && Area(1, total) == total
    ensures a < b ==> Area(a, total) + total <= Area(b, total)
  {
    if a < b {
      TimesRises(a, b, total);
    }
  }

  /** The first cell of a node: a leaf sorts its lines where they are; a node with children has
      the area of its level. */
  function Start(p: Place, sp: Spot, total: nat): nat {
    if p.leaf then sp.off else Area(p.level, total) + sp.off
  }

  /** The cells of different nodes are different. */
  lemma {:induction false} CellsApart(tree: seq<Place>, spots: seq<Spot>, total: nat, i: nat, j: nat)
    requires SpotsOk(tree, spots, total) && 0 < i < |tree| && 0 < j < |tree| && i != j
    ensures |spots| == |tree|
    ensures var a, b := Start(tree[i], spots[i], total), Start(tree[j], spots[j], total);
            a + Lines(spots[i]) <= b || b + Lines(spots[j]) <= a
  {
    hide Area;
    SpotAt(tree, spots, total, i);
    SpotAt(tree, spots, total, j);
    InTotal(tree, spots, total, i);
    InTotal(tree, spots, total, j);
    AreaRises(0, tree[i].level, total);
    AreaRises(0, tree[j].level, total);
    AreaRises(tree[i].level, tree[j].level, total);
    AreaRises(tree[j].level, tree[i].level, total);
    Apart(tree, spots, total, i, j);
    if Below(tree, i, j) {
      BelowWithin(tree, spots, total, i, j);
    } else if Below(tree, j, i) {
      BelowWithin(tree, spots, total, j, i);
    }
  }

  lemma InTotal(tree: seq<Place>, spots: seq<Spot>, total: nat, i: nat)
    requires SpotsOk(tree, spots, total) && 0 < i < |tree|
    ensures |spots| == |tree| && End(spots[i]) <= total
  {
    BelowRoot(tree, i);
    BelowWithin(tree, spots, total, i, MERGE_ROOT);
  }

  // Shares at different levels lie in different areas, those at one level in different places.
  lemma {:induction false} SharesApart(tree: seq<Place>, spots: seq<Spot>, total: nat, i: nat, j: nat)
    requires SpotsOk(tree, spots, total) && 0 < i < |tree| && 0 < j < |tree| && i != j && tree[i].level == tree[j].level
    ensures |spots| == |tree| && (End(spots[i]) <= spots[j].off || End(spots[j]) <= spots[i].off)
  {
    Apart(tree, spots, total, i, j);
    if Below(tree, i, j) {
      BelowWithin(tree, spots, total, i, j);
    } else if Below(tree, j, i) {
      BelowWithin(tree, spots, total, j, i);
    }
  }

  // The cells in which a node with a parent puts its lines: part of its parent's cells.
  function Target(p: Place, sp: Spot, total: nat): nat
    requires p.level > 0
  {
    Area(p.level - 1, total) + sp.off
  }

  lemma {:induction false} TargetsApart(tree: seq<Place>, spots: seq<Spot>, total: nat, i: nat, j: nat)
    requires SpotsOk(tree, spots, total) && 0 < i < |tree| && 0 < j < |tree| && i != j
    ensures |spots| == |tree| && tree[i].level > 0 && tree[j].level > 0
    ensures var a, b := Target(tree[i], spots[i], total), Target(tree[j], spots[j], total);
            a + Lines(spots[i]) <= b || b + Lines(spots[j]) <= a
  {
    InTotal(tree, spots, total, i);
    InTotal(tree, spots, total, j);
    assert PlaceOk(tree, i) && PlaceOk(tree, j);
    var k, l := tree[i].level, tree[j].level;
    hide Area, SpotsOk, PlaceOk;
    if k == l {
      SharesApart(tree, spots, total, i, j);
    } else {
      AreaRises(k - 1, l - 1, total);
      AreaRises(l - 1, k - 1, total);
    }
  }

  /** The target of a node is that half of its parent's cells which is for its side. */
  lemma Sides(tree: seq<Place>, spots: seq<Spot>, total: nat, i: nat)
    requires SpotsOk(tree, spots, total) && MERGE_ROOT < i < |tree|
    ensures |spots| == |tree| && tree[i].level > MERGE_ROOT
    ensures var p := tree[i].parent;
            && 0 < p < i && !tree[p].leaf && tree[p].level > 0
            && Target(tree[i], spots[i], total)
               == Start(tree[p], spots[p], total) + (if tree[i].isLo then 0 else spots[p].nlo)
            && Lines(spots[i]) == (if tree[i].isLo then spots[p].nlo else spots[p].nhi)
            && i == (if tree[i].isLo then tree[p].loChild else tree[p].hiChild)
            && p < tree[p].loChild && p < tree[p].hiChild
            && spots[p].nlo > 0 && spots[p].nhi > 0
  {
    hide TreeOk, SpotsOk, PlaceOk, SpotOk, Area;
    SpotAt(tree, spots, total, i);
    SidesHere(tree, spots, total, i);
  }

  lemma SidesHere(tree: seq<Place>, spots: seq<Spot>, total: nat, i: nat)
    requires MERGE_ROOT < i < |tree| == |spots| && 0 < tree[i].parent < i
    requires PlaceOk(tree, i) && PlaceOk(tree, tree[i].parent) && SpotOk(tree, spots, i) && SpotOk(tree, spots, tree[i].parent)
    ensures tree[i].level > MERGE_ROOT
    ensures var p := tree[i].parent;
            && !tree[p].leaf && tree[p].level > 0
            && Target(tree[i], spots[i], total)
               == Start(tree[p], spots[p], total) + (if tree[i].isLo then 0 else spots[p].nlo)
            && Lines(spots[i]) == (if tree[i].isLo then spots[p].nlo else spots[p].nhi)
            && i == (if tree[i].isLo then tree[p].loChild else tree[p].hiChild)
            && p < tree[p].loChild && p < tree[p].hiChild
            && spots[p].nlo > 0 && spots[p].nhi > 0
  {
    hide Area;
  }

  // ---------------------------------------------------------------- scratch cells

  /** The scratch cells of sequential_sort for a leaf: half as many as the lines it sorts. */
  predicate Scratch(sp: Spot, total: nat, x: nat) {
    total + sp.off <= x < total + sp.off + sp.nlo / 2 + sp.nhi / 2
  }

  /** They may lie in the target of a node only if that has lines in common with the leaf. */
  lemma ScratchApart(p: Place, sp: Spot, leaf: Spot, total: nat, x: nat)
    requires p.level > MERGE_ROOT && End(leaf) <= total && (End(leaf) <= sp.off || End(sp) <= leaf.off)
    requires Target(p, sp, total) <= x < Target(p, sp, total) + Lines(sp)
    ensures !Scratch(leaf, total, x)
  {
    AreaRises(1, p.level - 1, total);
    hide Area;
  }

  /** And never in the cells of another leaf, or of a node that is not the root. */
  lemma ScratchOutside(p: Place, sp: Spot, leaf: Spot, total: nat, x: nat)
    requires End(leaf) <= total && End(sp) <= total && Scratch(leaf, total, x) && (p.leaf || p.level > MERGE_ROOT)
    ensures var st := Start(p, sp, total); x < st || st + Lines(sp) <= x
  {
    AreaRises(1, p.level, total);
    hide Area;
  }
}
