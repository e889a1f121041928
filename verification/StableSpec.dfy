/** What the sort engine promises: the meaning of "sorted", "stable" and "merged",
    over an arbitrary total preorder on lines.  Every layer of sort.c is proved
    against the definitions here. */
module StableSpec {

  type Byte = b: int | 0 <= b < 256

  datatype Line = Line(text: seq<Byte>)

  // The result of a comparison is an int of which only the sign matters.
  type Order = (Line, Line) -> int

  ghost predicate TotalPreorder(cmp: Order) {
    && (forall a, b :: cmp(a, b) < 0 <==> cmp(b, a) > 0)
    && (forall a, b, c :: cmp(a, b) <= 0 && cmp(b, c) <= 0 ==> cmp(a, c) <= 0)
  }

  lemma Opposite(cmp: Order, a: Line, b: Line)
    requires TotalPreorder(cmp)
    ensures cmp(a, b) < 0 <==> cmp(b, a) > 0
    ensures cmp(a, b) == 0 <==> cmp(b, a) == 0
  {
  }

  lemma Transitive(cmp: Order, a: Line, b: Line, c: Line)
    requires TotalPreorder(cmp) && cmp(a, b) <= 0 && cmp(b, c) <= 0
    ensures cmp(a, c) <= 0
    ensures cmp(a, b) < 0 || cmp(b, c) < 0 ==> cmp(a, c) < 0
  {
    if cmp(a, c) == 0 {
      assert cmp(c, a) <= 0;
      assert cmp(b, a) <= 0 && cmp(c, b) <= 0;
    }
  }

  ghost predicate Sorted(cmp: Order, s: seq<Line>) {
    forall i, j :: 0 <= i < j < |s| ==> cmp(s[i], s[j]) <= 0
  }

  // The members of s that compare equal to x, in their order in s.
  ghost function Class(cmp: Order, x: Line, s: seq<Line>): seq<Line> {
    if s == [] then []
    else if cmp(x, s[0]) == 0 then [s[0]] + Class(cmp, x, s[1..])
    else Class(cmp, x, s[1..])
  }

  // Two sequences hold the same lines, lines that compare equal in the same order.
  ghost predicate SameClasses(cmp: Order, s: seq<Line>, t: seq<Line>) {
    forall x :: Class(cmp, x, s) == Class(cmp, x, t)
  }

  ghost predicate StableSortOf(cmp: Order, input: seq<Line>, output: seq<Line>) {
    Sorted(cmp, output) && SameClasses(cmp, input, output)
  }

  // Two-way merge, ties going to a.
  function Merge(cmp: Order, a: seq<Line>, b: seq<Line>): seq<Line> {
    if a == [] then b
    else if b == [] then a
    else if cmp(a[0], b[0]) <= 0 then [a[0]] + Merge(cmp, a[1..], b)
    else [b[0]] + Merge(cmp, a, b[1..])
  }

  // What -u keeps of s after the line last has been kept.
  function UniqAfter(cmp: Order, last: Line, s: seq<Line>): seq<Line>
    decreases |s|
  {
    if s == [] then []
    else if cmp(last, s[0]) == 0 then UniqAfter(cmp, last, s[1..])
    else [s[0]] + UniqAfter(cmp, s[0], s[1..])
  }

  // The first line of each run of lines that compare equal.
  function Uniq(cmp: Order, s: seq<Line>): seq<Line> {
    if s == [] then [] else [s[0]] + UniqAfter(cmp, s[0], s[1..])
  }

  lemma {:induction false} ClassAppend(cmp: Order, x: Line, s: seq<Line>, t: seq<Line>)
    ensures Class(cmp, x, s + t) == Class(cmp, x, s) + Class(cmp, x, t)
  {
    if s == [] {
      assert s + t == t;
    } else {
      ClassAppend(cmp, x, s[1..], t);
      assert (s + t)[0] == s[0] && (s + t)[1..] == s[1..] + t;
    }
  }

  lemma {:induction false} ClassMembers(cmp: Order, x: Line, s: seq<Line>, i: nat)
    requires i < |s| && cmp(x, s[i]) == 0
    ensures Class(cmp, x, s) != []
  {
    if i > 0 {
      ClassMembers(cmp, x, s[1..], i - 1);
    }
  }

  lemma {:induction false} ClassOf(cmp: Order, x: Line, s: seq<Line>) returns (i: nat)
    requires Class(cmp, x, s) != []
    ensures i < |s| && cmp(x, s[i]) == 0
  {
    if cmp(x, s[0]) == 0 {
      i := 0;
    } else {
      var k := ClassOf(cmp, x, s[1..]);
      i := k + 1;
    }
  }

  lemma {:induction false} ClassEmpty(cmp: Order, x: Line, s: seq<Line>)
    requires forall i :: 0 <= i < |s| ==> cmp(x, s[i]) != 0
    ensures Class(cmp, x, s) == []
  {
    if s != [] {
      ClassEmpty(cmp, x, s[1..]);
    }
  }

  lemma {:induction false} ClassMultiplicity(cmp: Order, x: Line, s: seq<Line>)
    requires TotalPreorder(cmp)
    ensures multiset(Class(cmp, x, s))[x] == multiset(s)[x]
  {
    if s != [] {
      ClassMultiplicity(cmp, x, s[1..]);
      assert s == [s[0]] + s[1..];
      assert cmp(x, x) == 0;
    }
  }

  // Lines with the same classes are the same lines.
  lemma SameClassesPermutation(cmp: Order, s: seq<Line>, t: seq<Line>)
    requires TotalPreorder(cmp) && SameClasses(cmp, s, t)
    ensures multiset(s) == multiset(t)
    ensures |s| == |t|
  {
    forall x: Line
      ensures multiset(s)[x] == multiset(t)[x]
    {
      ClassMultiplicity(cmp, x, s);
      ClassMultiplicity(cmp, x, t);
    }
    assert |multiset(s)| == |s| && |multiset(t)| == |t|;
  }

  lemma SameClassesTail(cmp: Order, s: seq<Line>, t: seq<Line>)
    requires SameClasses(cmp, s, t) && s != [] && t != [] && s[0] == t[0]
    ensures SameClasses(cmp, s[1..], t[1..])
  {
    forall x
      ensures Class(cmp, x, s[1..]) == Class(cmp, x, t[1..])
    {
      assert Class(cmp, x, s) == Class(cmp, x, t);
      if cmp(x, s[0]) == 0 {
        assert Class(cmp, x, s[1..]) == Class(cmp, x, s)[1..];
        assert Class(cmp, x, t[1..]) == Class(cmp, x, t)[1..];
      }
    }
  }

  // A sequence has exactly one stable sort, so StableSortOf pins its second argument.
  lemma {:induction false} StableSortUnique(cmp: Order, s: seq<Line>, t: seq<Line>)
    requires TotalPreorder(cmp)
    requires Sorted(cmp, s) && Sorted(cmp, t) && SameClasses(cmp, s, t)
    ensures s == t
    decreases |s|
  {
    SameClassesPermutation(cmp, s, t);
    if s != [] {
      var x, y := s[0], t[0];
      assert cmp(x, x) == 0 && cmp(y, y) == 0;
      ClassMembers(cmp, x, s, 0);
      ClassMembers(cmp, y, t, 0);
      var i := ClassOf(cmp, x, t);
      var j := ClassOf(cmp, y, s);
      assert cmp(y, x) <= 0 by { assert cmp(y, t[i]) <= 0; }
      assert cmp(x, y) <= 0 by { assert cmp(x, s[j]) <= 0; }
      assert Class(cmp, x, s)[0] == x;
      assert Class(cmp, x, t)[0] == y;
      SameClassesTail(cmp, s, t);
      StableSortUnique(cmp, s[1..], t[1..]);
    }
  }

  lemma {:induction false} MergeMembers(cmp: Order, a: seq<Line>, b: seq<Line>)
    ensures multiset(Merge(cmp, a, b)) == multiset(a) + multiset(b)
    ensures |Merge(cmp, a, b)| == |a| + |b|
  {
    if a != [] && b != [] {
      if cmp(a[0], b[0]) <= 0 {
        MergeMembers(cmp, a[1..], b);
        assert a == [a[0]] + a[1..];
      } else {
        MergeMembers(cmp, a, b[1..]);
        assert b == [b[0]] + b[1..];
      }
    }
  }

  // Sortedness of neighbours only, which is what one step of a program sees.
  ghost predicate Ascending(cmp: Order, s: seq<Line>) {
    |s| <= 1 || (cmp(s[0], s[1]) <= 0 && Ascending(cmp, s[1..]))
  }

  lemma {:induction false} AscendingHead(cmp: Order, s: seq<Line>, k: nat)
    requires TotalPreorder(cmp) && Ascending(cmp, s) && 0 < k < |s|
    ensures cmp(s[0], s[k]) <= 0
  {
    hide TotalPreorder;
    if k > 1 {
      AscendingHead(cmp, s[1..], k - 1);
      Transitive(cmp, s[0], s[1], s[k]);
    }
  }

  lemma {:induction false} AscendingPair(cmp: Order, s: seq<Line>, i: nat, j: nat)
    requires TotalPreorder(cmp) && Ascending(cmp, s) && i < j < |s|
    ensures cmp(s[i], s[j]) <= 0
  {
    hide TotalPreorder;
    if i == 0 {
      AscendingHead(cmp, s, j);
    } else {
      AscendingPair(cmp, s[1..], i - 1, j - 1);
    }
  }

  lemma AscendingSorted(cmp: Order, s: seq<Line>)
    requires TotalPreorder(cmp) && Ascending(cmp, s)
    ensures Sorted(cmp, s)
  {
    hide TotalPreorder, Ascending;
    forall i, j | 0 <= i < j < |s|
      ensures cmp(s[i], s[j]) <= 0
    {
      AscendingPair(cmp, s, i, j);
    }
  }

  lemma {:induction false} SortedAscending(cmp: Order, s: seq<Line>)
    requires Sorted(cmp, s)
    ensures Ascending(cmp, s)
  {
    if |s| > 1 {
      SortedAscending(cmp, s[1..]);
    }
  }

  lemma {:induction false} MergeAscending(cmp: Order, a: seq<Line>, b: seq<Line>)
    requires TotalPreorder(cmp) && Ascending(cmp, a) && Ascending(cmp, b)
    ensures Ascending(cmp, Merge(cmp, a, b))
    decreases |a| + |b|
  {
    if a != [] && b != [] {
      Opposite(cmp, a[0], b[0]);
      hide TotalPreorder;
      if cmp(a[0], b[0]) <= 0 {
        MergeAscending(cmp, a[1..], b);
        var rest := Merge(cmp, a[1..], b);
        assert rest[0] == b[0] || (|a| > 1 && rest[0] == a[1]);
        assert ([a[0]] + rest)[1..] == rest;
      } else {
        MergeAscending(cmp, a, b[1..]);
        var rest := Merge(cmp, a, b[1..]);
        assert rest[0] == a[0] || (|b| > 1 && rest[0] == b[1]);
        assert ([b[0]] + rest)[1..] == rest;
      }
    }
  }

  lemma MergeSorted(cmp: Order, a: seq<Line>, b: seq<Line>)
    requires TotalPreorder(cmp) && Sorted(cmp, a) && Sorted(cmp, b)
    ensures Sorted(cmp, Merge(cmp, a, b))
  {
    hide *;
    SortedAscending(cmp, a);
    SortedAscending(cmp, b);
    MergeAscending(cmp, a, b);
    AscendingSorted(cmp, Merge(cmp, a, b));
  }

  lemma {:induction false} MergeClass(cmp: Order, x: Line, a: seq<Line>, b: seq<Line>)
    requires TotalPreorder(cmp) && Sorted(cmp, a)
    ensures Class(cmp, x, Merge(cmp, a, b)) == Class(cmp, x, a) + Class(cmp, x, b)
  {
    if a != [] && b != [] {
      if cmp(a[0], b[0]) <= 0 {
        MergeClass(cmp, x, a[1..], b);
      } else {
        MergeClass(cmp, x, a, b[1..]);
        if cmp(x, b[0]) == 0 {
          forall i | 0 <= i < |a|
            ensures cmp(x, a[i]) != 0
          {
            assert cmp(a[0], a[i]) <= 0;
            assert cmp(b[0], x) <= 0;
          }
          ClassEmpty(cmp, x, a);
        }
      }
    }
  }

  // Merging stable sorts of two neighbouring stretches gives the stable sort of both.
  lemma MergeStable(cmp: Order, a: seq<Line>, b: seq<Line>, sa: seq<Line>, sb: seq<Line>)
    requires TotalPreorder(cmp)
    requires StableSortOf(cmp, a, sa) && StableSortOf(cmp, b, sb)
    ensures StableSortOf(cmp, a + b, Merge(cmp, sa, sb))
  {
    MergeSorted(cmp, sa, sb);
    forall x
      ensures Class(cmp, x, a + b) == Class(cmp, x, Merge(cmp, sa, sb))
    {
      ClassAppend(cmp, x, a, b);
      MergeClass(cmp, x, sa, sb);
    }
  }

  lemma {:induction false} UniqAfterPrefix(cmp: Order, last: Line, s: seq<Line>, t: seq<Line>)
    ensures UniqAfter(cmp, last, s) <= UniqAfter(cmp, last, s + t)
    decreases |s|
  {
    if s == [] {
    } else {
      assert (s + t)[0] == s[0] && (s + t)[1..] == s[1..] + t;
      UniqAfterPrefix(cmp, if cmp(last, s[0]) == 0 then last else s[0], s[1..], t);
    }
  }

  lemma UniqPrefix(cmp: Order, s: seq<Line>, t: seq<Line>)
    ensures Uniq(cmp, s) <= Uniq(cmp, s + t)
  {
    if s != [] {
      assert (s + t)[0] == s[0] && (s + t)[1..] == s[1..] + t;
      UniqAfterPrefix(cmp, s[0], s[1..], t);
    }
  }

  // The line that -u compares the next one with: the last line it kept.
  function LastKept(cmp: Order, s: seq<Line>): (r: Line)
    requires s != []
    ensures r in Uniq(cmp, s)
  {
    var u := Uniq(cmp, s);
    u[|u| - 1]
  }

  lemma {:induction false} UniqAfterSnoc(cmp: Order, last: Line, s: seq<Line>, x: Line)
    ensures var u := [last] + UniqAfter(cmp, last, s);
            UniqAfter(cmp, last, s + [x])
              == UniqAfter(cmp, last, s) + (if cmp(u[|u| - 1], x) == 0 then [] else [x])
    decreases |s|
  {
    if s == [] {
      assert s + [x] == [x];
    } else {
      assert (s + [x])[0] == s[0] && (s + [x])[1..] == s[1..] + [x];
      if cmp(last, s[0]) == 0 {
        UniqAfterSnoc(cmp, last, s[1..], x);
      } else {
        UniqAfterSnoc(cmp, s[0], s[1..], x);
      }
    }
  }

  // One line more in front of -u: kept exactly when it differs from the last line kept.
  lemma UniqSnoc(cmp: Order, s: seq<Line>, x: Line)
    ensures s == [] ==> Uniq(cmp, s + [x]) == [x]
    ensures s != [] ==> Uniq(cmp, s + [x])
                        == Uniq(cmp, s) + (if cmp(LastKept(cmp, s), x) == 0 then [] else [x])
  {
    if s == [] {
      assert s + [x] == [x];
    } else {
      assert (s + [x])[0] == s[0] && (s + [x])[1..] == s[1..] + [x];
      UniqAfterSnoc(cmp, s[0], s[1..], x);
    }
  }
}
