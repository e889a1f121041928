/** The single-threaded merge sort: mergelines and sequential_sort.  Line arrays
    are stored in reverse, and a pointer names the cell just past its array, so
    "the k-th line at p" is cell p - 1 - k. */
module SequentialSort {
  import opened StableSpec

  // The cells just below p hold the lines of s, first line uppermost.
  ghost predicate Holds(a: array<Line>, p: nat, s: seq<Line>)
    reads a
  {
    |s| <= p <= a.Length && forall c :: p - |s| <= c < p ==> a[c] == s[p - 1 - c]
  }

  // Outside the cells [from, to) the array is as it was.
  twostate predicate Untouched(a: array<Line>, from: int, to: int)
    reads a
  {
    forall i :: 0 <= i < a.Length && !(from <= i < to) ==> a[i] == old(a[i])
  }

  lemma MergeStep(cmp: Order, a: seq<Line>, b: seq<Line>)
    requires a != [] && b != []
    ensures cmp(a[0], b[0]) <= 0 ==> Merge(cmp, a, b) == [a[0]] + Merge(cmp, a[1..], b)
    ensures cmp(a[0], b[0]) > 0 ==> Merge(cmp, a, b) == [b[0]] + Merge(cmp, a, b[1..])
  {
  }

  // merged is the merge of los and his, seen after i lines of los and j of his.
  ghost predicate Reached(cmp: Order, merged: seq<Line>, los: seq<Line>, his: seq<Line>, i: nat, j: nat) {
    && i <= |los| && j <= |his| && |merged| == |los| + |his|
    && merged[i + j..] == Merge(cmp, los[i..], his[j..])
  }

  lemma ReachedNext(cmp: Order, merged: seq<Line>, los: seq<Line>, his: seq<Line>, i: nat, j: nat)
    requires i < |los| && j < |his| && Reached(cmp, merged, los, his, i, j)
    ensures cmp(los[i], his[j]) <= 0 ==> merged[i + j] == los[i] && Reached(cmp, merged, los, his, i + 1, j)
    ensures cmp(los[i], his[j]) > 0 ==> merged[i + j] == his[j] && Reached(cmp, merged, los, his, i, j + 1)
  {
    assert los[i..][1..] == los[i + 1..] && his[j..][1..] == his[j + 1..];
    assert merged[i + j..][1..] == merged[i + j + 1..];
  }

  // Once one side has gone, the other follows unchanged.
  lemma ReachedEnd(cmp: Order, merged: seq<Line>, los: seq<Line>, his: seq<Line>, i: nat, j: nat)
    requires Reached(cmp, merged, los, his, i, j) && (i == |los| || j == |his|)
    ensures i == |los| ==> forall k :: i + j <= k < |merged| ==> merged[k] == his[k - i]
    ensures j == |his| ==> forall k :: i + j <= k < |merged| ==> merged[k] == los[k - j]
  {
    var rest := merged[i + j..];
    assert forall k :: i + j <= k < |merged| ==> merged[k] == rest[k - i - j];
    if i == |los| {
      assert rest == his[j..];
    }
    if j == |his| {
      assert rest == los[i..];
    }
  }

  /** Merge LO (nlines / 2 lines ending at lo[lp0]) with HI (the other lines, already
      in t just below the room for LO) into the nlines cells ending at t[tp0]. */
  method MergeLines(cmp: Order, t: array<Line>, tp0: nat, nlines: nat, lo: array<Line>, lp0: nat,
                    ghost los: seq<Line>, ghost his: seq<Line>)
    requires 2 <= nlines <= tp0 <= t.Length && t != lo
    requires |los| == nlines / 2 && |his| == nlines - nlines / 2
    requires Holds(lo, lp0, los) && Holds(t, tp0 - nlines / 2, his)
    modifies t
    ensures Holds(t, tp0, Merge(cmp, los, his)) && |Merge(cmp, los, his)| == nlines
    ensures Untouched(t, tp0 - nlines, tp0)
  {
    ghost var merged := Merge(cmp, los, his);
    MergeMembers(cmp, los, his);
    MergeCells(cmp, t, tp0, nlines, lo, lp0, los, his, merged);
  }

  method MergeCells(cmp: Order, t: array<Line>, tp0: nat, nlines: nat, lo: array<Line>, lp0: nat,
                    ghost los: seq<Line>, ghost his: seq<Line>, ghost merged: seq<Line>)
    requires 2 <= nlines <= tp0 <= t.Length && t != lo
    requires |los| == nlines / 2 && |his| == nlines - nlines / 2
    requires Holds(lo, lp0, los) && Holds(t, tp0 - nlines / 2, his)
    requires |merged| == nlines && Reached(cmp, merged, los, his, 0, 0)
    modifies t
    ensures Holds(t, tp0, merged)
    ensures Untouched(t, tp0 - nlines, tp0)
  {
    hide Reached;
    var nlo := nlines / 2;
    var nhi := nlines - nlo;
    var tp, lp, hp := tp0, lp0, tp0 - nlo;
    ghost var i, j := 0, 0;
    while nlo != 0 && nhi != 0
      invariant 0 <= i <= |los| && 0 <= j <= |his| && i + j < nlines
      invariant nlo == |los| - i && nhi == |his| - j && lp == lp0 - i && tp == tp0 - i - j && hp == tp - nlo
      invariant Reached(cmp, merged, los, his, i, j)
      invariant forall c :: tp <= c < tp0 ==> t[c] == merged[tp0 - 1 - c]
      invariant Untouched(t, tp, tp0)   // in particular, the HI lines still to be read
      decreases nlo + nhi
    {
      ReachedNext(cmp, merged, los, his, i, j);
      if cmp(lo[lp - 1], t[hp - 1]) <= 0 {
        tp, lp := tp - 1, lp - 1;
        t[tp] := lo[lp];
        nlo := nlo - 1;
        i := i + 1;
      } else {
        tp, hp := tp - 1, hp - 1;
        t[tp] := t[hp];
        nhi := nhi - 1;
        j := j + 1;
      }
    }
    ReachedEnd(cmp, merged, los, his, i, j);
    // With LO used up, HI ends at tp and is already in place.
    if nlo != 0 {
      CopyRest(t, tp, lo, lp, nlo);
    }
  }

  // The end of mergelines once HI is used up: the rest of LO follows.
  method CopyRest(t: array<Line>, tp1: nat, lo: array<Line>, lp1: nat, n: nat)
    requires n <= tp1 <= t.Length && n <= lp1 <= lo.Length
    requires t != lo
    modifies t
    ensures forall k :: tp1 - n <= k < tp1 ==> t[k] == lo[lp1 - tp1 + k]
    ensures Untouched(t, tp1 - n, tp1)
  {
    var tp, lp, nlo := tp1, lp1, n;
    while nlo != 0
      invariant 0 <= nlo <= lp <= lp1 && tp - nlo == tp1 - n && lp - nlo == lp1 - n
      invariant forall k :: tp <= k < tp1 ==> t[k] == lo[lp1 - tp1 + k]
      invariant Untouched(t, tp1 - n, tp1)
    {
      tp, lp := tp - 1, lp - 1;
      t[tp] := lo[lp];
      nlo := nlo - 1;
    }
  }

  // The stable sort as a function: split as the program does, sort the parts, merge.
  function StableSort(cmp: Order, s: seq<Line>): (r: seq<Line>)
    ensures |r| == |s|
    decreases |s|
  {
    if |s| <= 1 then s
    else
      var m := |s| / 2;
      var r := Merge(cmp, StableSort(cmp, s[..m]), StableSort(cmp, s[m..]));
      MergeMembers(cmp, StableSort(cmp, s[..m]), StableSort(cmp, s[m..]));
      r
  }

  lemma {:induction false} StableSortCorrect(cmp: Order, s: seq<Line>)
    requires TotalPreorder(cmp)
    ensures StableSortOf(cmp, s, StableSort(cmp, s))
    decreases |s|
  {
    if |s| > 1 {
      var m := |s| / 2;
      StableSortCorrect(cmp, s[..m]);
      StableSortCorrect(cmp, s[m..]);
      MergeStable(cmp, s[..m], s[m..], StableSort(cmp, s[..m]), StableSort(cmp, s[m..]));
      assert s[..m] + s[m..] == s;
    }
  }

  // However the work is split, there is only one result.
  lemma StableSortOnly(cmp: Order, s: seq<Line>, r: seq<Line>)
    requires TotalPreorder(cmp) && StableSortOf(cmp, s, r)
    ensures r == StableSort(cmp, s)
  {
    StableSortCorrect(cmp, s);
    forall x
      ensures Class(cmp, x, r) == Class(cmp, x, StableSort(cmp, s))
    {
      assert Class(cmp, x, s) == Class(cmp, x, r);
      assert Class(cmp, x, s) == Class(cmp, x, StableSort(cmp, s));
    }
    StableSortUnique(cmp, r, StableSort(cmp, s));
  }

  lemma SortTwo(cmp: Order, s: seq<Line>)
    requires |s| == 2
    ensures StableSort(cmp, s) == if cmp(s[0], s[1]) <= 0 then [s[0], s[1]] else [s[1], s[0]]
  {
    assert s[..1] == [s[0]] && s[1..] == [s[1]];
    MergeStep(cmp, [s[0]], [s[1]]);
  }

  // The base case of sequential_sort.
  method SortPair(cmp: Order, lines: array<Line>, lp: nat, temp: array<Line>, tp: nat, toTemp: bool,
                  ghost input: seq<Line>)
    requires |input| == 2 && Holds(lines, lp, input)
    requires (if toTemp then 2 else 1) <= tp <= temp.Length
    requires lines != temp
    modifies lines, temp
    ensures Holds(if toTemp then temp else lines, if toTemp then tp else lp, StableSort(cmp, input))
    ensures Untouched(lines, lp - 2, lp)
    ensures Untouched(temp, tp - (if toTemp then 2 else 1), tp)
  {
    SortTwo(cmp, input);
    assert input[0] == lines[lp - 1] && input[1] == lines[lp - 2];
    var swap := if 0 < cmp(lines[lp - 1], lines[lp - 2]) then 1 else 0;
    if toTemp {
      temp[tp - 1] := lines[lp - 1 - swap];
      temp[tp - 2] := lines[lp - 2 + swap];
    } else if swap == 1 {
      temp[tp - 1] := lines[lp - 1];
      lines[lp - 1] := lines[lp - 2];
      lines[lp - 2] := temp[tp - 1];
    }
  }

  /** Sort the nlines lines ending at lines[lp].  With toTemp the result goes to the
      nlines cells ending at temp[tp]; otherwise the sort is in place and only the
      nlines / 2 cells of temp ending at tp are used. */
  method SequentialSort(cmp: Order, lines: array<Line>, lp: nat, nlines: nat, temp: array<Line>, tp: nat, toTemp: bool,
                        ghost input: seq<Line>)
    requires 2 <= nlines == |input| && Holds(lines, lp, input)
    requires (if toTemp then nlines else nlines / 2) <= tp <= temp.Length
    requires lines != temp
    modifies lines, temp
    ensures Holds(if toTemp then temp else lines, if toTemp then tp else lp, StableSort(cmp, input))
    ensures Untouched(lines, lp - nlines, lp)
    ensures Untouched(temp, tp - (if toTemp then nlines else nlines / 2), tp)
    decreases nlines, 0
  {
    if nlines == 2 {
      SortPair(cmp, lines, lp, temp, tp, toTemp, input);
    } else {
      var nlo := nlines / 2;
      var nhi := nlines - nlo;
      ghost var los, his := input[..nlo], input[nlo..];
      ghost var sortedLo, sortedHi := StableSort(cmp, los), StableSort(cmp, his);
      SequentialSort(cmp, lines, lp - nlo, nhi, temp, tp - (if toTemp then nlo else 0), toTemp, his);
      assert Holds(lines, lp, los);
      SortLo(cmp, lines, lp, nlo, temp, tp, toTemp, los);
      if toTemp {
        assert Holds(temp, tp - nlo, sortedHi);
        MergeLines(cmp, temp, tp, nlines, lines, lp, sortedLo, sortedHi);
      } else {
        assert Holds(lines, lp - nlo, sortedHi);
        MergeLines(cmp, lines, lp, nlines, temp, tp, sortedLo, sortedHi);
      }
    }
  }

  // The LO half goes to the array that is not the destination; a single line needs no sort.
  method SortLo(cmp: Order, lines: array<Line>, lp: nat, nlo: nat, temp: array<Line>, tp: nat, toTemp: bool,
                ghost los: seq<Line>)
    requires 1 <= nlo == |los| && Holds(lines, lp, los)
    requires nlo <= tp <= temp.Length
    requires lines != temp
    modifies lines, temp
    ensures Holds(if toTemp then lines else temp, if toTemp then lp else tp, StableSort(cmp, los))
    ensures Untouched(lines, lp - nlo, lp)
    ensures Untouched(temp, tp - nlo, tp)
    decreases nlo, 1
  {
    if 1 < nlo {
      SequentialSort(cmp, lines, lp, nlo, temp, tp, !toTemp, los);
    } else if !toTemp {
      temp[tp - 1] := lines[lp - 1];
    }
  }
}
