/** The doubly linked list of jumps that objdump draws, and its basic operations. */
module JumpList {
  import opened JumpSpec

  /** A jump: where it comes from (one address at least), where it goes to, and the level
      it is drawn on. */
  class Jump {
    var next: Jump?
    var prev: Jump?
    var starts: seq<nat>
    var end: nat
    var level: int

    /** jump_info_new */
    constructor (start: nat, end: nat, level: int)
      ensures next == null && prev == null
      ensures starts == [start] && this.end == end && this.level == level
    {
      next, prev := null, null;
      starts, this.end, this.level := [start], end, level;
    }
  }

  ghost function PrevOf(nodes: seq<Jump>, i: nat): Jump?
    requires i < |nodes|
  {
    if i == 0 then null else nodes[i - 1]
  }

  ghost function NextOf(nodes: seq<Jump>, i: nat): Jump?
    requires i < |nodes|
  {
    if i + 1 == |nodes| then null else nodes[i + 1]
  }

  ghost predicate Distinct(nodes: seq<Jump>) {
    forall i, j :: 0 <= i < j < |nodes| ==> nodes[i] != nodes[j]
  }

  lemma {:induction false} SameNode(nodes: seq<Jump>, i: nat, k: nat)
    requires Distinct(nodes) && i < |nodes| && k < |nodes|
    ensures nodes[i] == nodes[k] <==> i == k
    ensures k > 0 ==> (nodes[i] == nodes[k - 1] <==> i == k - 1)
    ensures k + 1 < |nodes| ==> (nodes[i] == nodes[k + 1] <==> i == k + 1)
  {
  }

  lemma {:induction false} StillDistinct(nodes: seq<Jump>, k: nat)
    requires Distinct(nodes) && k < |nodes|
    ensures Distinct(Dropped(nodes, k)) && nodes[k] !in Dropped(nodes, k)
    ensures k > 0 ==> nodes[k - 1] != nodes[k]
    ensures k + 1 < |nodes| ==> nodes[k + 1] != nodes[k]
  {
  }

  function Dropped<T>(s: seq<T>, k: nat): (r: seq<T>)
    requires k < |s|
    ensures |r| == |s| - 1
    ensures forall i :: 0 <= i < |r| ==> r[i] == s[if i < k then i else i + 1]
  {
    s[..k] + s[k + 1..]
  }

  function Placed<T>(s: seq<T>, k: nat, x: T): (r: seq<T>)
    requires k <= |s|
    ensures |r| == |s| + 1
    ensures forall i :: 0 <= i < |r| ==> r[i] == if i < k then s[i] else if i == k then x else s[i - 1]
  {
    s[..k] + [x] + s[k..]
  }

  // s with its element at j moved to position k.
  function Moved<T>(s: seq<T>, k: nat, j: nat): (r: seq<T>)
    requires k <= j < |s|
    ensures |r| == |s|
    ensures forall i :: 0 <= i < |s| ==> r[i] == s[if i < k || i > j then i else if i == k then j else i - 1]
  {
    s[..k] + [s[j]] + s[k..j] + s[j + 1..]
  }

  lemma MovedIsDroppedPlaced<T>(s: seq<T>, k: nat, j: nat)
    requires k <= j < |s|
    ensures Placed(Dropped(s, j), k, s[j]) == Moved(s, k, j)
  {
  }

  class Jumps {
    var base: Jump?
    ghost var nodes: seq<Jump>
    ghost var pool: set<Jump>     // the jumps that may be in the list
    ghost var arcs: seq<Arc>
    ghost var levels: seq<int>

    // The links run through nodes, in both directions.
    ghost predicate Linked()
      reads this`base, this`nodes, this`pool, pool`next, pool`prev
    {
      && Distinct(nodes) && (forall i :: 0 <= i < |nodes| ==> nodes[i] in pool)
      && base == (if nodes == [] then null else nodes[0])
      && (forall i {:trigger nodes[i].prev} :: 0 <= i < |nodes| ==> nodes[i].prev == PrevOf(nodes, i))
      && (forall i {:trigger nodes[i].next} :: 0 <= i < |nodes| ==> nodes[i].next == NextOf(nodes, i))
    }

    // arcs and levels say what is in the nodes.
    ghost predicate Described()
      reads this`nodes, this`arcs, this`levels, nodes`starts, nodes`end, nodes`level
    {
      && |arcs| == |nodes| == |levels|
      && (forall i :: 0 <= i < |nodes| ==> arcs[i] == Arc(nodes[i].starts, nodes[i].end))
      && (forall i :: 0 <= i < |nodes| ==> levels[i] == nodes[i].level)
    }

    ghost predicate Valid()
      reads this, nodes, pool
    {
      Linked() && Described()
    }

    constructor ()
      ensures Valid() && nodes == [] && pool == {}
    {
      base, nodes, pool, arcs, levels := null, [], {}, [], [];
    }

    /** jump_info_unlink */
    method CutOut(node: Jump, ghost k: nat)
      requires Linked() && k < |nodes| && nodes[k] == node
      modifies this`base, this`nodes, pool`next, pool`prev
      ensures Linked() && nodes == Dropped(old(nodes), k)
      ensures node.next == null && node.prev == null && node !in nodes
    {
      assert nodes[k].next == NextOf(nodes, k);
      assert nodes[k].prev == PrevOf(nodes, k);
      StillDistinct(nodes, k);
      hide Distinct;
      if node.next != null {
        node.next.prev := node.prev;
      }
      if node.prev != null {
        node.prev.next := node.next;
      } else {
        base := node.next;
      }
      node.next := null;
      node.prev := null;
      ghost var was := nodes;
      nodes := Dropped(was, k);
      forall i | 0 <= i < |nodes|
        ensures nodes[i].prev == PrevOf(nodes, i) && nodes[i].next == NextOf(nodes, i)
      {
        ghost var j := if i < k then i else i + 1;
        assert nodes[i] == was[j];
        SameNode(was, j, k);
        assert old(was[j].prev) == PrevOf(was, j) && old(was[j].next) == NextOf(was, j);
      }
    }

    method Unlink(node: Jump, ghost k: nat)
      requires Valid() && k < |nodes| && nodes[k] == node
      modifies this, pool`next, pool`prev
      ensures Valid() && pool == old(pool) && nodes == Dropped(old(nodes), k)
      ensures arcs == Dropped(old(arcs), k) && levels == Dropped(old(levels), k)
      ensures node.next == null && node.prev == null && node !in nodes
    {
      hide Linked;
      CutOut(node, k);
      arcs, levels := Dropped(arcs, k), Dropped(levels, k);
    }

    /** jump_info_insert: in front of target. */
    method PutIn(node: Jump, target: Jump, ghost k: nat)
      requires Linked() && k < |nodes| && nodes[k] == target && node !in nodes
      modifies this`base, this`nodes, this`pool, pool`next, pool`prev, node`next, node`prev
      ensures Linked() && pool == old(pool) + {node} && nodes == Placed(old(nodes), k, node)
    {
      assert nodes[k].prev == PrevOf(nodes, k);
      node.next := target;
      node.prev := target.prev;
      target.prev := node;
      if node.prev != null {
        node.prev.next := node;
      } else {
        base := node;
      }
      nodes, pool := Placed(nodes, k, node), pool + {node};
    }

    method Insert(node: Jump, target: Jump, ghost k: nat)
      requires Valid() && k < |nodes| && nodes[k] == target && node !in nodes
      modifies this, pool`next, pool`prev, node`next, node`prev
      ensures Valid() && pool == old(pool) + {node} && nodes == Placed(old(nodes), k, node)
      ensures arcs == Placed(old(arcs), k, Arc(node.starts, node.end))
      ensures levels == Placed(old(levels), k, node.level)
    {
      hide Linked;
      PutIn(node, target, k);
      levels := Placed(levels, k, node.level);
      arcs := Placed(arcs, k, Arc(node.starts, node.end));
    }

    /** jump_info_add_front */
    method PutFirst(node: Jump)
      requires Linked() && node !in nodes
      modifies this`base, this`nodes, this`pool, pool`next, pool`prev, node`next, node`prev
      ensures Linked() && pool == old(pool) + {node} && nodes == [node] + old(nodes)
    {
      assert base != null ==> base == nodes[0] && base in nodes;
      node.next := base;
      if node.next != null {
        node.next.prev := node;
      }
      node.prev := null;
      base := node;
      nodes, pool := [node] + nodes, pool + {node};
    }

    method AddFront(node: Jump)
      requires Valid() && node !in nodes
      modifies this, pool`next, pool`prev, node`next, node`prev
      ensures Valid() && pool == old(pool) + {node} && nodes == [node] + old(nodes)
      ensures arcs == [Arc(node.starts, node.end)] + old(arcs)
      ensures levels == [node.level] + old(levels)
    {
      hide Linked;
      PutFirst(node);
      levels := [node.level] + levels;
      arcs := [Arc(node.starts, node.end)] + arcs;
    }

    /** jump_info_move_linked: from position j to the one in front of position k. */
    method MoveLinked(node: Jump, target: Jump, ghost j: nat, ghost k: nat)
      requires Valid() && k < j < |nodes| && nodes[j] == node && nodes[k] == target
      modifies this, pool`next, pool`prev
      ensures Valid() && pool == old(pool) && nodes == Moved(old(nodes), k, j)
      ensures arcs == Moved(old(arcs), k, j) && levels == Moved(old(levels), k, j)
    {
      MovedIsDroppedPlaced(nodes, k, j);
      MovedIsDroppedPlaced(arcs, k, j);
      MovedIsDroppedPlaced(levels, k, j);
      Unlink(node, j);
      Insert(node, target, k);
    }

    // Draw the jump at position k on the given level.
    method SetLevel(node: Jump, level: int, ghost k: nat)
      requires Valid() && k < |nodes| && nodes[k] == node
      modifies this`levels, node`level
      ensures Valid() && k < |old(levels)| && levels == old(levels)[k := level]
    {
      node.level := level;
      levels := levels[k := level];
    }

    // Give the jump at position k more start addresses.
    method AddStarts(node: Jump, more: seq<nat>, ghost k: nat)
      requires Valid() && k < |nodes| && nodes[k] == node
      modifies this`arcs, node`starts
      ensures Valid() && k < |old(arcs)| && arcs == old(arcs)[k := Arc(old(arcs)[k].starts + more, old(arcs)[k].end)]
    {
      node.starts := node.starts + more;
      arcs := arcs[k := Arc(node.starts, node.end)];
    }
  }
}
