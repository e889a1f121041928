/** What the jump layout of objdump is meant to produce, on lists of jumps as values:
    jumps to one target merged, jumps ordered by length, and jumps placed on levels so
    that no two on a level overlap. */
module JumpSpec {

  // The start addresses and the target of a jump.
  datatype Arc = Arc(starts: seq<nat>, end: nat)

  // ------------------------------------------------------------ addresses

  function Least(s: seq<nat>, e: nat): nat {
    if s == [] then e
    else var x := s[|s| - 1]; Least(s[..|s| - 1], if x < e then x else e)
  }

  function Greatest(s: seq<nat>, e: nat): nat {
    if s == [] then e
    else var x := s[|s| - 1]; Greatest(s[..|s| - 1], if x > e then x else e)
  }

  function MinAddress(a: Arc): nat { Least(a.starts, a.end) }

  function MaxAddress(a: Arc): nat { Greatest(a.starts, a.end) }

  function Size(a: Arc): int { MaxAddress(a) - MinAddress(a) }

  predicate Intersect(a: Arc, b: Arc) {
    MaxAddress(a) >= MinAddress(b) && MinAddress(a) <= MaxAddress(b)
  }

  lemma {:induction false} LeastGreatest(s: seq<nat>, e: nat)
    ensures Least(s, e) <= e <= Greatest(s, e)
    ensures forall i :: 0 <= i < |s| ==> Least(s, e) <= s[i] <= Greatest(s, e)
    ensures Least(s, e) == e || Least(s, e) in s
    ensures Greatest(s, e) == e || Greatest(s, e) in s
  {
    if s != [] {
      var x, t := s[|s| - 1], s[..|s| - 1];
      LeastGreatest(t, if x < e then x else e);
      LeastGreatest(t, if x > e then x else e);
      assert forall i :: 0 <= i < |t| ==> s[i] == t[i];
    }
  }

  // The size of a jump is the greatest distance of two of its addresses.
  lemma SizeMeans(a: Arc)
    ensures forall x, y :: x in a.starts + [a.end] && y in a.starts + [a.end] ==> x - y <= Size(a)
    ensures exists x, y :: x in a.starts + [a.end] && y in a.starts + [a.end] && x - y == Size(a)
    ensures MinAddress(a) in a.starts + [a.end] && forall x :: x in a.starts + [a.end] ==> MinAddress(a) <= x
    ensures MaxAddress(a) in a.starts + [a.end] && forall x :: x in a.starts + [a.end] ==> x <= MaxAddress(a)
  {
    LeastGreatest(a.starts, a.end);
    assert MaxAddress(a) in a.starts + [a.end] && MinAddress(a) in a.starts + [a.end];
  }

  predicate Spans(a: Arc, x: nat) { MinAddress(a) <= x <= MaxAddress(a) }

  // Two jumps intersect exactly when some address lies within the range of both.
  lemma IntersectMeans(a: Arc, b: Arc)
    ensures Intersect(a, b) <==> exists x: nat :: Spans(a, x) && Spans(b, x)
  {
    LeastGreatest(a.starts, a.end);
    LeastGreatest(b.starts, b.end);
    if Intersect(a, b) {
      var x := if MinAddress(a) <= MinAddress(b) then MinAddress(b) else MinAddress(a);
      assert Spans(a, x) && Spans(b, x);
    }
  }

  // ------------------------------------------------------------ merging

  // All starts, in order, of the jumps to e.
  function Collected(e: nat, v: seq<Arc>): seq<nat> {
    if v == [] then [] else (if v[0].end == e then v[0].starts else []) + Collected(e, v[1..])
  }

  function Others(e: nat, v: seq<Arc>): (r: seq<Arc>)
    ensures |r| <= |v|
  {
    if v == [] then [] else if v[0].end == e then Others(e, v[1..]) else [v[0]] + Others(e, v[1..])
  }

  // Each target once, with the starts of all jumps to it.
  function Merged(v: seq<Arc>): seq<Arc>
    decreases |v|
  {
    if v == [] then []
    else [Arc(v[0].starts + Collected(v[0].end, v[1..]), v[0].end)] + Merged(Others(v[0].end, v[1..]))
  }

  function PairsTo(s: seq<nat>, e: nat): multiset<(nat, nat)> {
    if s == [] then multiset{} else multiset{(s[0], e)} + PairsTo(s[1..], e)
  }

  // The single jumps, as pairs of start and target.
  function Pairs(v: seq<Arc>): multiset<(nat, nat)> {
    if v == [] then multiset{} else PairsTo(v[0].starts, v[0].end) + Pairs(v[1..])
  }

  lemma {:induction false} PairsToAppend(s: seq<nat>, t: seq<nat>, e: nat)
    ensures PairsTo(s + t, e) == PairsTo(s, e) + PairsTo(t, e)
  {
    if s == [] {
      assert s + t == t;
    } else {
      assert (s + t)[0] == s[0] && (s + t)[1..] == s[1..] + t;
      PairsToAppend(s[1..], t, e);
    }
  }

  lemma {:induction false} PairsSplit(e: nat, v: seq<Arc>)
    ensures Pairs(v) == PairsTo(Collected(e, v), e) + Pairs(Others(e, v))
  {
    if v != [] {
      PairsSplit(e, v[1..]);
      hide PairsTo;
      if v[0].end == e {
        PairsToAppend(v[0].starts, Collected(e, v[1..]), e);
      } else {
        assert [] + Collected(e, v[1..]) == Collected(e, v[1..]);
        assert ([v[0]] + Others(e, v[1..]))[1..] == Others(e, v[1..]);
      }
    }
  }

  // Merging loses no jump and makes up none.
  lemma {:induction false} MergedPairs(v: seq<Arc>)
    ensures Pairs(Merged(v)) == Pairs(v)
    decreases |v|
  {
    if v != [] {
      var e, rest := v[0].end, v[1..];
      MergedPairs(Others(e, rest));
      PairsSplit(e, rest);
      PairsToAppend(v[0].starts, Collected(e, rest), e);
    }
  }

  lemma {:induction false} OthersEnds(e: nat, v: seq<Arc>, i: nat)
    requires i < |Others(e, v)|
    ensures Others(e, v)[i].end != e && Others(e, v)[i] in v
  {
    if v[0].end == e {
      OthersEnds(e, v[1..], i);
    } else if i > 0 {
      OthersEnds(e, v[1..], i - 1);
    }
  }

  lemma {:induction false} MergedEnds(v: seq<Arc>, i: nat) returns (k: nat)
    requires i < |Merged(v)|
    ensures k < |v| && v[k].end == Merged(v)[i].end
    decreases |v|
  {
    k := 0;
    if i > 0 {
      var o := Others(v[0].end, v[1..]);
      var j := MergedEnds(o, i - 1);
      OthersEnds(v[0].end, v[1..], j);
      k :| 0 <= k < |v| && v[k] == o[j];
    }
  }

  // After merging, no two jumps have the same target.
  lemma {:induction false} MergedDistinct(v: seq<Arc>, i: nat, j: nat)
    requires i < j < |Merged(v)|
    ensures Merged(v)[i].end != Merged(v)[j].end
    decreases |v|
  {
    var o := Others(v[0].end, v[1..]);
    if i == 0 {
      var k := MergedEnds(o, j - 1);
      OthersEnds(v[0].end, v[1..], k);
    } else {
      MergedDistinct(o, i - 1, j - 1);
    }
  }

  lemma {:induction false} CollectedOthers(e: nat, f: nat, v: seq<Arc>)
    requires e != f
    ensures Collected(f, Others(e, v)) == Collected(f, v)
  {
    if v != [] {
      CollectedOthers(e, f, v[1..]);
      assert [] + Collected(f, v[1..]) == Collected(f, v[1..]);
      if v[0].end != e {
        assert ([v[0]] + Others(e, v[1..]))[1..] == Others(e, v[1..]);
      }
    }
  }

  // Each target has the starts of all jumps to it, in the order of the list.
  lemma {:induction false} MergedStarts(v: seq<Arc>, i: nat)
    requires i < |Merged(v)|
    ensures Merged(v)[i].starts == Collected(Merged(v)[i].end, v)
    decreases |v|
  {
    if i > 0 {
      var e := v[0].end;
      MergedDistinct(v, 0, i);
      MergedStarts(Others(e, v[1..]), i - 1);
      CollectedOthers(e, Merged(v)[i].end, v[1..]);
      assert [] + Collected(Merged(v)[i].end, v[1..]) == Collected(Merged(v)[i].end, v[1..]);
    }
  }

  // Where the first jump to e is.
  function FirstTo(e: nat, v: seq<Arc>): nat {
    if v == [] || v[0].end == e then 0 else 1 + FirstTo(e, v[1..])
  }

  lemma {:induction false} FirstOthers(e: nat, f: nat, g: nat, v: seq<Arc>)
    requires f != e && g != e && FirstTo(f, Others(e, v)) < FirstTo(g, Others(e, v))
    ensures FirstTo(f, v) < FirstTo(g, v)
  {
    if v != [] {
      if v[0].end == e || v[0].end != f {
        assert v[0].end != e ==> ([v[0]] + Others(e, v[1..]))[1..] == Others(e, v[1..]);
        FirstOthers(e, f, g, v[1..]);
      }
    }
  }

  // The targets come in the order in which they first occur.
  lemma {:induction false} MergedInOrder(v: seq<Arc>, i: nat, j: nat)
    requires i < j < |Merged(v)|
    ensures FirstTo(Merged(v)[i].end, v) < FirstTo(Merged(v)[j].end, v)
    decreases |v|
  {
    MergedDistinct(v, 0, j);
    if i > 0 {
      MergedDistinct(v, 0, i);
      var o := Others(v[0].end, v[1..]);
      MergedInOrder(o, i - 1, j - 1);
      FirstOthers(v[0].end, Merged(v)[i].end, Merged(v)[j].end, v[1..]);
    }
  }

  // ------------------------------------------------------------ sorting

  // Shorter jumps first, of equally long ones the one that begins at the lower address.
  predicate Less(a: Arc, b: Arc) {
    Size(a) < Size(b) || (Size(a) == Size(b) && MinAddress(a) < MinAddress(b))
  }

  predicate Alike(a: Arc, b: Arc) { Size(a) == Size(b) && MinAddress(a) == MinAddress(b) }

  // The first of the least elements among the first n, the search starting from best.
  function BestFrom(v: seq<Arc>, best: nat, i: nat): (m: nat)
    requires best < i <= |v|
    ensures m < |v|
    decreases |v| - i
  {
    if i == |v| then best else BestFrom(v, if Less(v[i], v[best]) then i else best, i + 1)
  }

  function Best(v: seq<Arc>): (m: nat)
    requires v != []
    ensures m < |v|
  {
    BestFrom(v, 0, 1)
  }

  function Without(v: seq<Arc>, m: nat): (r: seq<Arc>)
    requires m < |v|
    ensures |r| == |v| - 1
  {
    v[..m] + v[m + 1..]
  }

  function SelectionSort(v: seq<Arc>): (r: seq<Arc>)
    ensures |r| == |v|
    decreases |v|
  {
    if v == [] then [] else [v[Best(v)]] + SelectionSort(Without(v, Best(v)))
  }

  lemma {:induction false} BestIsFirstLeast(v: seq<Arc>, best: nat, i: nat)
    requires best < i <= |v|
    requires forall k :: 0 <= k < i ==> !Less(v[k], v[best])
    requires forall k :: 0 <= k < best ==> Less(v[best], v[k])
    ensures var m := BestFrom(v, best, i);
            && (forall k :: 0 <= k < |v| ==> !Less(v[k], v[m]))
            && (forall k :: 0 <= k < m ==> Less(v[m], v[k]))
    decreases |v| - i
  {
    if i < |v| {
      hide Less;
      var best' := if Less(v[i], v[best]) then i else best;
      forall k | 0 <= k < i + 1
        ensures !Less(v[k], v[best'])
        ensures k < best' ==> Less(v[best'], v[k])
      {
        LessLaws(v[k], v[best], v[i]);
      }
      BestIsFirstLeast(v, best', i + 1);
    }
  }

  lemma LessLaws(a: Arc, b: Arc, c: Arc)
    ensures !Less(a, b) && Less(c, b) ==> Less(c, a)
    ensures Less(a, b) ==> !Less(b, a)
    ensures !Less(a, a)
  {
  }

  // Shorter than b, or as long and beginning no higher.
  predicate Before(a: Arc, b: Arc) {
    Size(a) < Size(b) || (Size(a) == Size(b) && MinAddress(a) <= MinAddress(b))
  }

  predicate Ascending(v: seq<Arc>) { forall i, j :: 0 <= i < j < |v| ==> Before(v[i], v[j]) }

  // The elements alike to x, in order.
  function LikeThis(x: Arc, v: seq<Arc>): seq<Arc> {
    if v == [] then [] else (if Alike(x, v[0]) then [v[0]] else []) + LikeThis(x, v[1..])
  }

  lemma {:induction false} LikeThisAppend(x: Arc, v: seq<Arc>, w: seq<Arc>)
    ensures LikeThis(x, v + w) == LikeThis(x, v) + LikeThis(x, w)
  {
    if v == [] {
      assert v + w == w;
    } else {
      assert (v + w)[0] == v[0] && (v + w)[1..] == v[1..] + w;
      LikeThisAppend(x, v[1..], w);
    }
  }

  lemma {:induction false} LikeNone(x: Arc, v: seq<Arc>)
    requires forall i :: 0 <= i < |v| ==> !Alike(x, v[i])
    ensures LikeThis(x, v) == []
  {
    if v != [] {
      LikeNone(x, v[1..]);
    }
  }

  lemma {:induction false} SelectionMembers(v: seq<Arc>)
    ensures multiset(SelectionSort(v)) == multiset(v)
    decreases |v|
  {
    if v != [] {
      var m := Best(v);
      SelectionMembers(Without(v, m));
      assert v == v[..m] + [v[m]] + v[m + 1..];
    }
  }

  lemma AscendingCons(x: Arc, v: seq<Arc>)
    requires Ascending(v) && forall i :: 0 <= i < |v| ==> Before(x, v[i])
    ensures Ascending([x] + v)
  {
    hide Before;
  }

  lemma {:induction false} SelectionAscending(v: seq<Arc>)
    ensures Ascending(SelectionSort(v))
    decreases |v|
  {
    if v != [] {
      var m := Best(v);
      var rest := SelectionSort(Without(v, m));
      LessLaws(v[0], v[0], v[0]);
      BestIsFirstLeast(v, 0, 1);
      SelectionAscending(Without(v, m));
      SelectionMembers(Without(v, m));
      forall i | 0 <= i < |rest|
        ensures Before(v[m], rest[i])
      {
        assert rest[i] in multiset(Without(v, m));
        assert !Less(rest[i], v[m]);
        hide Size, MinAddress;
      }
      AscendingCons(v[m], rest);
    }
  }

  // Of two sorted jumps the first is shorter, or they are equally long and it begins no higher.
  lemma SelectionOrdered(v: seq<Arc>, i: nat, j: nat)
    requires i < j < |v|
    ensures var a, b := SelectionSort(v)[i], SelectionSort(v)[j];
            Size(a) < Size(b) || (Size(a) == Size(b) && MinAddress(a) <= MinAddress(b))
  {
    SelectionAscending(v);
  }

  lemma {:induction false} LikeThisWithout(x: Arc, v: seq<Arc>, m: nat)
    requires m < |v|
    ensures LikeThis(x, Without(v, m)) == LikeThis(x, v[..m]) + LikeThis(x, v[m + 1..])
    ensures LikeThis(x, v) == LikeThis(x, v[..m]) + (if Alike(x, v[m]) then [v[m]] else []) + LikeThis(x, v[m + 1..])
  {
    hide Alike;
    LikeThisAppend(x, v[..m], v[m + 1..]);
    LikeThisAppend(x, v[..m], v[m..]);
    assert v[..m] + v[m..] == v;
    assert v[m..][0] == v[m] && v[m..][1..] == v[m + 1..];
  }

  // The best of v comes first among the jumps like it.
  lemma {:induction false} BestLikeThis(x: Arc, v: seq<Arc>)
    requires v != []
    ensures LikeThis(x, v) == (if Alike(x, v[Best(v)]) then [v[Best(v)]] else []) + LikeThis(x, Without(v, Best(v)))
  {
    var m := Best(v);
    BestIsFirstLeast(v, 0, 1);
    LikeThisWithout(x, v, m);
    if Alike(x, v[m]) {
      forall k | 0 <= k < m
        ensures !Alike(x, v[..m][k])
      {
        assert Less(v[m], v[k]);
      }
      LikeNone(x, v[..m]);
    }
    hide *;
  }

  // Jumps that are alike stay in their order.
  lemma {:induction false} SelectionStable(v: seq<Arc>, x: Arc)
    ensures LikeThis(x, SelectionSort(v)) == LikeThis(x, v)
    decreases |v|
  {
    if v != [] {
      var m := Best(v);
      BestLikeThis(x, v);
      SelectionStable(Without(v, m), x);
      hide Best, Without, Alike;
      assert SelectionSort(v)[1..] == SelectionSort(Without(v, m));
    }
  }

  // ------------------------------------------------------------ levels

  predicate Clashes(group: seq<Arc>, a: Arc) {
    exists i :: 0 <= i < |group| && Intersect(group[i], a)
  }

  // Add to the group, in order, the jumps of v that clash with none of it; and what is left.
  function Fill(group: seq<Arc>, v: seq<Arc>): (r: (seq<Arc>, seq<Arc>))
    ensures |r.0| + |r.1| == |group| + |v| && |r.1| <= |v| && group <= r.0
    decreases |v|
  {
    if v == [] then (group, [])
    else if Clashes(group, v[0]) then
      var (g, rest) := Fill(group, v[1..]);
      (g, [v[0]] + rest)
    else Fill(group + [v[0]], v[1..])
  }

  // Level by level: the first jump left and whatever fits beside it, then the same for the rest.
  function Levels(v: seq<Arc>): seq<seq<Arc>>
    decreases |v|
  {
    if v == [] then [] else var (g, rest) := Fill([v[0]], v[1..]); [g] + Levels(rest)
  }

  ghost predicate Apart(group: seq<Arc>) {
    forall i, j :: 0 <= i < j < |group| ==> !Intersect(group[i], group[j])
  }

  lemma ApartMore(group: seq<Arc>, a: Arc)
    requires Apart(group) && !Clashes(group, a)
    ensures Apart(group + [a])
  {
    hide Intersect;
  }

  lemma ClashesMore(group: seq<Arc>, group': seq<Arc>, a: Arc)
    requires Clashes(group, a) && group <= group'
    ensures Clashes(group', a)
  {
    var i :| 0 <= i < |group| && Intersect(group[i], a);
    assert Intersect(group'[i], a);
  }

  lemma AddOne(a: multiset<Arc>, b: multiset<Arc>, c: multiset<Arc>, d: multiset<Arc>, x: Arc)
    requires a + b == c + d
    ensures a + (multiset{x} + b) == c + (multiset{x} + d)
  {
    assert a + (multiset{x} + b) == (a + b) + multiset{x};
    assert c + (multiset{x} + d) == (c + d) + multiset{x};
  }

  // Filling keeps the group apart, leaves out only jumps that clash, and loses none.
  lemma {:induction false} FillLaws(group: seq<Arc>, v: seq<Arc>)
    requires Apart(group)
    ensures var (g, rest) := Fill(group, v);
            && Apart(g)
            && (forall i :: 0 <= i < |rest| ==> Clashes(g, rest[i]))
            && multiset(g) + multiset(rest) == multiset(group) + multiset(v)
    decreases |v|
  {
    hide Intersect, Apart;
    if v != [] {
      assert v == [v[0]] + v[1..];
      if Clashes(group, v[0]) {
        FillLaws(group, v[1..]);
        var (g, rest) := Fill(group, v[1..]);
        ClashesMore(group, g, v[0]);
        hide Clashes;
        var all := [v[0]] + rest;
        assert Fill(group, v) == (g, all);
        assert multiset(g) + multiset(rest) == multiset(group) + multiset(v[1..]);
        AddOne(multiset(g), multiset(rest), multiset(group), multiset(v[1..]), v[0]);
        assert multiset(all) == multiset{v[0]} + multiset(rest);
        assert multiset(v) == multiset{v[0]} + multiset(v[1..]);
        forall i | 0 <= i < |all|
          ensures Clashes(g, all[i])
        {
          assert i > 0 ==> all[i] == rest[i - 1];
        }
      } else {
        ApartMore(group, v[0]);
        FillLaws(group + [v[0]], v[1..]);
      }
    }
  }

  // No two jumps on one level intersect.
  lemma {:induction false} LevelsApart(v: seq<Arc>, k: nat)
    requires k < |Levels(v)|
    ensures Apart(Levels(v)[k])
    decreases |v|
  {
    assert Apart([v[0]]);
    FillLaws([v[0]], v[1..]);
    if k > 0 {
      LevelsApart(Fill([v[0]], v[1..]).1, k - 1);
    }
  }

  // Every jump intersects some jump on each lower level: none could be drawn lower.
  lemma {:induction false} LevelsTight(v: seq<Arc>, j: nat, k: nat, i: nat)
    requires j < k < |Levels(v)| && i < |Levels(v)[k]|
    ensures Clashes(Levels(v)[j], Levels(v)[k][i])
    decreases |v|
  {
    assert Apart([v[0]]);
    FillLaws([v[0]], v[1..]);
    var (g, rest) := Fill([v[0]], v[1..]);
    if j > 0 {
      LevelsTight(rest, j - 1, k - 1, i);
    } else {
      var a := Levels(rest)[k - 1][i];
      LevelMember(rest, k - 1, i);
      var m :| 0 <= m < |rest| && rest[m] == a;
    }
  }

  lemma {:induction false} LevelMember(v: seq<Arc>, k: nat, i: nat)
    requires k < |Levels(v)| && i < |Levels(v)[k]|
    ensures Levels(v)[k][i] in v
    decreases |v|
  {
    assert Apart([v[0]]);
    FillLaws([v[0]], v[1..]);
    var (g, rest) := Fill([v[0]], v[1..]);
    assert v == [v[0]] + v[1..];
    assert multiset(g) + multiset(rest) == multiset(v);
    var a := Levels(v)[k][i];
    if k > 0 {
      LevelMember(rest, k - 1, i);
      assert a in multiset(rest);
    } else {
      assert a in multiset(g);
    }
    assert a in multiset(v);
  }

  // Filling takes from v and leaves what was in v.
  lemma {:induction false} FillMember(group: seq<Arc>, v: seq<Arc>, x: Arc)
    ensures x in Fill(group, v).0 ==> x in group || x in v
    ensures x in Fill(group, v).1 ==> x in v
    decreases |v|
  {
    hide Clashes;
    if v != [] {
      assert v == [v[0]] + v[1..];
      if Clashes(group, v[0]) {
        FillMember(group, v[1..], x);
        var (g, rest) := Fill(group, v[1..]);
        assert Fill(group, v) == (g, [v[0]] + rest);
      } else {
        FillMember(group + [v[0]], v[1..], x);
      }
    }
  }

  // The group has a jump that intersects a and comes before it.
  ghost predicate Blocked(group: seq<Arc>, a: Arc) {
    exists i :: 0 <= i < |group| && Intersect(group[i], a) && Before(group[i], a)
  }

  // Filling a group from jumps that ascend keeps both ascending; a jump is left out because of
  // one that comes before it.
  lemma {:induction false} FillAscending(group: seq<Arc>, v: seq<Arc>)
    requires Ascending(group + v)
    ensures var (g, rest) := Fill(group, v);
            && Ascending(g) && Ascending(rest)
            && forall i :: 0 <= i < |rest| ==> Blocked(g, rest[i])
    decreases |v|
  {
    hide Intersect, Before;
    if v == [] {
      assert group + v == group;
    } else if Clashes(group, v[0]) {
      forall i, j | 0 <= i < j < |group + v[1..]|
        ensures Before((group + v[1..])[i], (group + v[1..])[j])
      {
        assert (group + v[1..])[i] == (group + v)[if i < |group| then i else i + 1];
        assert (group + v[1..])[j] == (group + v)[if j < |group| then j else j + 1];
      }
      FillAscending(group, v[1..]);
      var (g, rest) := Fill(group, v[1..]);
      forall i | 0 <= i < |rest|
        ensures Before(v[0], rest[i])
      {
        FillMember(group, v[1..], rest[i]);
        var k :| 0 <= k < |v[1..]| && v[1..][k] == rest[i];
        assert (group + v)[|group|] == v[0] && (group + v)[|group| + 1 + k] == rest[i];
      }
      AscendingCons(v[0], rest);
      var m :| 0 <= m < |group| && Intersect(group[m], v[0]);
      assert g[m] == (group + v)[m] && v[0] == (group + v)[|group|];
      assert Blocked(g, v[0]);
    } else {
      assert group + [v[0]] + v[1..] == group + v;
      FillAscending(group + [v[0]], v[1..]);
    }
  }

  // The lowest level, and what it leaves.
  lemma LevelsStep(v: seq<Arc>)
    requires v != []
    ensures var (g, rest) := Fill([v[0]], v[1..]);
            Levels(v) == [g] + Levels(rest) && g != [] && g[0] == v[0] && |rest| < |v|
  {
    hide Fill;
    var (g, rest) := Fill([v[0]], v[1..]);
    assert g[..1] == [v[0]];
  }

  // The same, of jumps that ascend.
  lemma LevelsStepAscending(v: seq<Arc>)
    requires Ascending(v) && v != []
    ensures var (g, rest) := Fill([v[0]], v[1..]);
            Ascending(g) && Ascending(rest) && forall x :: x in rest ==> Before(v[0], x) && Blocked(g, x)
  {
    assert v == [v[0]] + v[1..];
    FillAscending([v[0]], v[1..]);
    var (g, rest) := Fill([v[0]], v[1..]);
    hide Intersect, Before, Fill, Blocked;
    forall x | x in rest
      ensures Before(v[0], x) && Blocked(g, x)
    {
      FillMember([v[0]], v[1..], x);
      var n :| 0 <= n < |v[1..]| && v[1..][n] == x;
      assert v[n + 1] == x;
    }
  }

  lemma FirstBefore(g: seq<Arc>)
    requires Ascending(g)
    ensures forall i :: 0 < i < |g| ==> Before(g[0], g[i])
  {
  }

  lemma SomeLevel(v: seq<Arc>)
    ensures Levels(v) != [] ==> v != []
  {
  }

  // On each level the jumps ascend, and the first one comes before all on higher levels.
  lemma {:induction false} LevelsAscending(v: seq<Arc>, k: nat, j: nat, i: nat)
    requires Ascending(v) && k <= j < |Levels(v)| && i < |Levels(v)[j]|
    ensures Ascending(Levels(v)[k]) && Levels(v)[k] != []
    ensures (k == j && i == 0) || Before(Levels(v)[k][0], Levels(v)[j][i])
    ensures k < j ==> Blocked(Levels(v)[k], Levels(v)[j][i])
    decreases |v|
  {
    hide *;
    SomeLevel(v);
    LevelsStep(v);
    LevelsStepAscending(v);
    var (g, rest) := Fill([v[0]], v[1..]);
    if j > 0 {
      LevelMember(rest, j - 1, i);
    }
    if k > 0 {
      LevelsAscending(rest, k - 1, j - 1, i);
    } else if j > 0 {
      assert Levels(v)[j][i] == Levels(rest)[j - 1][i] && Levels(v)[j][i] in rest;
    } else {
      FirstBefore(g);
    }
  }

  function Concat(gs: seq<seq<Arc>>): seq<Arc> {
    if gs == [] then [] else gs[0] + Concat(gs[1..])
  }

  // Every jump is drawn, once.
  lemma {:induction false} LevelsMembers(v: seq<Arc>)
    ensures multiset(Concat(Levels(v))) == multiset(v)
    decreases |v|
  {
    if v != [] {
      assert Apart([v[0]]);
      FillLaws([v[0]], v[1..]);
      LevelsMembers(Fill([v[0]], v[1..]).1);
      assert v == [v[0]] + v[1..];
    }
  }

  // ------------------------------------------------------------ all of it

  lemma {:induction false} PairsAppend(v: seq<Arc>, w: seq<Arc>)
    ensures Pairs(v + w) == Pairs(v) + Pairs(w)
  {
    hide PairsTo;
    if v == [] {
      assert v + w == w;
    } else {
      PairsAppend(v[1..], w);
      assert (v + w)[0] == v[0] && (v + w)[1..] == v[1..] + w;
    }
  }

  lemma {:induction false} PairsWithout(v: seq<Arc>, m: nat)
    requires m < |v|
    ensures Pairs(v) == PairsTo(v[m].starts, v[m].end) + Pairs(Without(v, m))
    ensures multiset(v) == multiset{v[m]} + multiset(Without(v, m))
  {
    hide PairsTo;
    var a, b := v[..m], v[m + 1..];
    assert v == a + ([v[m]] + b) && Without(v, m) == a + b;
    PairsAppend(a, [v[m]] + b);
    PairsAppend(a, b);
    assert ([v[m]] + b)[1..] == b;
  }

  /** The pairs do not depend on the order of the jumps. */
  lemma {:induction false} PairsPermuted(v: seq<Arc>, w: seq<Arc>)
    requires multiset(v) == multiset(w)
    ensures Pairs(v) == Pairs(w)
    decreases |v|
  {
    hide Pairs, PairsTo, Without;
    if v == [] {
      assert |w| == |multiset(w)| == 0;
    } else {
      assert v[0] in multiset(w);
      var m :| 0 <= m < |w| && w[m] == v[0];
      PairsWithout(v, 0);
      PairsWithout(w, m);
      assert multiset(Without(v, 0)) == multiset(v) - multiset{v[0]};
      assert multiset(Without(w, m)) == multiset(w) - multiset{v[0]};
      PairsPermuted(Without(v, 0), Without(w, m));
    }
  }

  function Repeat(k: int, n: nat): (r: seq<int>)
    ensures |r| == n && forall i :: 0 <= i < n ==> r[i] == k
  {
    seq(n, i => k)
  }

  // The level of each jump, when the jumps are listed level by level from k on.
  function Numbers(gs: seq<seq<Arc>>, k: int): seq<int> {
    if gs == [] then [] else Repeat(k, |gs[0]|) + Numbers(gs[1..], k + 1)
  }

  // Where the jump at position i of the list is: jump m of level l.
  lemma {:induction false} PlaceOf(gs: seq<seq<Arc>>, k: int, i: nat) returns (l: nat, m: nat)
    requires i < |Concat(gs)|
    ensures |Numbers(gs, k)| == |Concat(gs)|
    ensures l < |gs| && m < |gs[l]| && i == |Concat(gs[..l])| + m
    ensures Concat(gs)[i] == gs[l][m] && Numbers(gs, k)[i] == k + l
  {
    NumbersSize(gs, k);
    if i < |gs[0]| {
      l, m := 0, i;
    } else {
      var l';
      l', m := PlaceOf(gs[1..], k + 1, i - |gs[0]|);
      l := l' + 1;
      assert gs[..l][1..] == gs[1..][..l'];
    }
  }

  lemma {:induction false} NumbersSize(gs: seq<seq<Arc>>, k: int)
    ensures |Numbers(gs, k)| == |Concat(gs)|
  {
    if gs != [] {
      NumbersSize(gs[1..], k + 1);
    }
  }

  // Jump m of level l is in the list.
  lemma {:induction false} PlaceIn(gs: seq<seq<Arc>>, k: int, l: nat, m: nat) returns (i: nat)
    requires l < |gs| && m < |gs[l]|
    ensures |Numbers(gs, k)| == |Concat(gs)|
    ensures i < |Concat(gs)| && i == |Concat(gs[..l])| + m
    ensures Concat(gs)[i] == gs[l][m] && Numbers(gs, k)[i] == k + l
  {
    NumbersSize(gs, k);
    if l == 0 {
      i := m;
    } else {
      var i' := PlaceIn(gs[1..], k + 1, l - 1, m);
      i := |gs[0]| + i';
      assert gs[..l][1..] == gs[1..][..l - 1];
    }
  }

  // Jumps at two places of v stand at two places of a permutation of it.
  lemma TwoPlaces(v: seq<Arc>, w: seq<Arc>, i: nat, j: nat) returns (p: nat, q: nat)
    requires multiset(v) == multiset(w) && i < j < |v|
    ensures p < |w| && q < |w| && p != q && w[p] == v[i] && w[q] == v[j]
  {
    p := PlaceAmong(v, w, i);
    AllButOne(v, i);
    AllButOne(w, p);
    var q' := PlaceAmong(Without(v, i), Without(w, p), j - 1);
    q := if q' < p then q' else q' + 1;
  }

  lemma AllButOne(v: seq<Arc>, m: nat)
    requires m < |v|
    ensures multiset(Without(v, m)) == multiset(v) - multiset{v[m]}
    ensures forall k :: 0 <= k < |v| - 1 ==> Without(v, m)[k] == v[if k < m then k else k + 1]
  {
    assert v == v[..m] + [v[m]] + v[m + 1..];
  }

  lemma PlaceAmong(v: seq<Arc>, w: seq<Arc>, i: nat) returns (p: nat)
    requires multiset(v) == multiset(w) && i < |v|
    ensures p < |w| && w[p] == v[i]
  {
    assert v[i] in multiset(w);
    p :| 0 <= p < |w| && w[p] == v[i];
  }

  /** How a list of jumps v is laid out: the jumps arcs, on the given levels, are those of v as
      pairs of a start and a target.  Any two of them are placed as TwoLaidOut says, and each
      intersects, on every lower level, a jump that comes before it. */
  ghost predicate LaidOut(v: seq<Arc>, arcs: seq<Arc>, levels: seq<int>) {
    && |levels| == |arcs| && Pairs(arcs) == Pairs(v)
    && (forall i, j :: 0 <= i < j < |arcs| ==> TwoLaidOut(arcs, levels, i, j))
    && (forall j, l :: 0 <= j < |arcs| && 0 <= l < levels[j] ==> BlockedOn(arcs, levels, l, j))
  }

  /** The targets are different and the levels do not fall; if the level is the same, the jumps do
      not intersect and ascend; a jump that opens a level comes before all those behind it. */
  ghost predicate TwoLaidOut(arcs: seq<Arc>, levels: seq<int>, i: nat, j: nat)
    requires i < j < |arcs| == |levels|
  {
    && arcs[i].end != arcs[j].end
    && 0 <= levels[i] <= levels[j]
    && (levels[i] == levels[j] ==> !Intersect(arcs[i], arcs[j]) && Before(arcs[i], arcs[j]))
    && (i == 0 || levels[i - 1] != levels[i] ==> Before(arcs[i], arcs[j]))
  }

  // Some jump of level l intersects jump j and comes before it.
  ghost predicate BlockedOn(arcs: seq<Arc>, levels: seq<int>, l: int, j: nat)
    requires j < |arcs| == |levels|
  {
    exists i :: 0 <= i < |arcs| && levels[i] == l && Intersect(arcs[i], arcs[j]) && Before(arcs[i], arcs[j])
  }

  lemma LaidOutIs(v: seq<Arc>, arcs: seq<Arc>, levels: seq<int>)
    requires |levels| == |arcs| && Pairs(arcs) == Pairs(v)
    requires forall i, j :: 0 <= i < j < |arcs| ==> TwoLaidOut(arcs, levels, i, j)
    requires forall j, l :: 0 <= j < |arcs| && 0 <= l < levels[j] ==> BlockedOn(arcs, levels, l, j)
    ensures LaidOut(v, arcs, levels)
  {
  }

  // Two places in the list of levels.
  lemma TwoOnLevels(v: seq<Arc>, i: nat, j: nat)
    requires Ascending(v) && i < j < |Concat(Levels(v))|
    requires Concat(Levels(v))[i].end != Concat(Levels(v))[j].end
    ensures var arcs, levels := Concat(Levels(v)), Numbers(Levels(v), 0);
            |levels| == |arcs| && TwoLaidOut(arcs, levels, i, j)
  {
    var gs := Levels(v);
    var k, m := PlaceOf(gs, 0, i);
    var l, n := PlaceOf(gs, 0, j);
    if l < k {
      LaterPlace(gs, l, k);
    }
    if k == l {
      LevelsApart(v, k);
      LevelsAscending(v, k, k, 0);
    }
    if m == 0 {
      LevelsAscending(v, k, l, n);
    } else {
      var i' := PlaceIn(gs, 0, k, m - 1);
    }
  }

  lemma LaterPlace(gs: seq<seq<Arc>>, l: nat, k: nat)
    requires l < k <= |gs|
    ensures |Concat(gs[..l])| + |gs[l]| <= |Concat(gs[..k])|
  {
    assert gs[..k] == gs[..l] + ([gs[l]] + gs[l + 1..k]);
    ConcatSize(gs[..l], [gs[l]] + gs[l + 1..k]);
    assert ([gs[l]] + gs[l + 1..k])[0] == gs[l];
  }

  lemma {:induction false} ConcatSize(a: seq<seq<Arc>>, b: seq<seq<Arc>>)
    ensures |Concat(a + b)| == |Concat(a)| + |Concat(b)|
  {
    if a == [] {
      assert a + b == b;
    } else {
      assert (a + b)[0] == a[0] && (a + b)[1..] == a[1..] + b;
      ConcatSize(a[1..], b);
    }
  }

  lemma BlockedBelow(v: seq<Arc>, j: nat, l: int)
    requires Ascending(v) && |Numbers(Levels(v), 0)| == |Concat(Levels(v))|
    requires j < |Concat(Levels(v))| && 0 <= l < Numbers(Levels(v), 0)[j]
    ensures BlockedOn(Concat(Levels(v)), Numbers(Levels(v), 0), l, j)
  {
    var gs := Levels(v);
    var k, m := PlaceOf(gs, 0, j);
    LevelsAscending(v, l, k, m);
    var n :| 0 <= n < |gs[l]| && Intersect(gs[l][n], gs[k][m]) && Before(gs[l][n], gs[k][m]);
    var i := PlaceIn(gs, 0, l, n);
  }

  /** Every list of jumps is laid out so. */
  lemma LayoutLaws(v: seq<Arc>)
    ensures var gs := Levels(SelectionSort(Merged(v))); LaidOut(v, Concat(gs), Numbers(gs, 0))
  {
    var m := Merged(v);
    var s := SelectionSort(m);
    var gs := Levels(s);
    MergedPairs(v);
    SelectionMembers(m);
    SelectionAscending(m);
    LevelsMembers(s);
    var arcs, levels := Concat(gs), Numbers(gs, 0);
    NumbersSize(gs, 0);
    PairsPermuted(arcs, m);
    hide *;
    forall i, j | 0 <= i < j < |arcs|
      ensures TwoLaidOut(arcs, levels, i, j)
    {
      var p, q := TwoPlaces(arcs, m, i, j);
      if p < q {
        MergedDistinct(v, p, q);
      } else {
        MergedDistinct(v, q, p);
      }
      TwoOnLevels(s, i, j);
    }
    forall j, l | 0 <= j < |arcs| && 0 <= l < levels[j]
      ensures BlockedOn(arcs, levels, l, j)
    {
      BlockedBelow(s, j, l);
    }
    LaidOutIs(v, arcs, levels);
  }
}
