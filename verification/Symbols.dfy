/** find_symbol_for_address of objdump: a binary search with fallbacks, which agrees with
    a search through all symbols.  (Without dynamic relocations.) */
module Symbols {
  import opened Wrappers

  // vals are the values of the symbols; ok(w, p) is sym_ok for symbol p, with w asking for
  // the wanted section as well.
  predicate Ascending(vals: seq<nat>) {
    forall i, j :: 0 <= i < j < |vals| ==> vals[i] <= vals[j]
  }

  ghost predicate Narrows(vals: seq<nat>, ok: (bool, nat) -> bool) {
    forall p: nat :: p < |vals| && ok(true, p) ==> ok(false, p)
  }

  // Symbol p is acceptable, and no acceptable one is closer from below; if none is below,
  // no acceptable one is lower.
  ghost predicate BestSymbol(vals: seq<nat>, ok: (bool, nat) -> bool, w: bool, vma: nat, p: nat) {
    && p < |vals| && ok(w, p)
    && (vals[p] <= vma ==> forall q: nat :: q < |vals| && ok(w, q) && vals[q] <= vma ==> vals[q] <= vals[p])
    && (vals[p] > vma ==> forall q: nat :: q < |vals| && ok(w, q) ==> vals[p] <= vals[q])
  }

  // Symbol p is the first acceptable one of its value.
  ghost predicate First(vals: seq<nat>, ok: (bool, nat) -> bool, w: bool, p: nat) {
    p < |vals| && ok(w, p) && forall q: nat :: q < p && vals[q] == vals[p] ==> !ok(w, q)
  }

  // Symbol q is at the closest address from below.
  ghost predicate Closest(vals: seq<nat>, vma: nat, q: nat) {
    q < |vals| && vals[q] <= vma && forall k :: 0 <= k < |vals| && vals[k] <= vma ==> vals[k] <= vals[q]
  }

  /** The binary search: the first of the symbols with the greatest value not above vma (or
      the very first symbol), and an index behind all symbols of that value. */
  method Locate(vals: seq<nat>, vma: nat) returns (place: nat, maxCount: nat)
    requires Ascending(vals) && vals != []
    ensures place < maxCount <= |vals|
    ensures place > 0 ==> vals[place - 1] < vals[place]
    ensures vals[place] > vma ==> place == 0 && maxCount == 1
    ensures vals[place] <= vma ==> forall k :: maxCount <= k < |vals| ==> vals[k] > vma
    ensures vals[place] <= vma ==> forall k :: 0 <= k < |vals| && vals[k] <= vma ==> vals[k] <= vals[place]
  {
    var min := 0;
    maxCount := |vals|;
    while min + 1 < maxCount
      invariant 0 <= min < maxCount <= |vals|
      invariant min > 0 ==> vals[min] <= vma
      invariant forall k :: maxCount <= k < |vals| ==> vals[k] > vma
      decreases maxCount - min
    {
      place := (maxCount + min) / 2;
      if vals[place] > vma {
        maxCount := place;
      } else if vals[place] < vma {
        min := place;
      } else {
        min := place;
        break;
      }
    }
    place := min;
    while place > 0 && vals[place] == vals[place - 1]
      invariant place <= min && vals[place] == vals[min]
    {
      place := place - 1;
    }
  }

  // Where the symbols of a value begin, and none is acceptable before p, p is the first.
  lemma FirstFrom(vals: seq<nat>, ok: (bool, nat) -> bool, w: bool, place: nat, p: nat)
    requires Ascending(vals) && place <= p < |vals| && vals[p] == vals[place] && ok(w, p)
    requires place > 0 ==> vals[place - 1] < vals[place]
    requires forall k :: place <= k < p ==> !ok(w, k)
    ensures First(vals, ok, w, p)
  {
    forall q: nat | q < place
      ensures vals[q] < vals[place]
    {
      assert vals[q] <= vals[place - 1];
    }
  }

  /** find_symbol_for_address */
  method FindSymbol(vals: seq<nat>, ok: (bool, nat) -> bool, wantSection: bool, vma: nat) returns (r: Option<nat>)
    requires Ascending(vals) && Narrows(vals, ok)
    ensures r.None? <==> forall p: nat :: p < |vals| ==> !ok(wantSection, p)
    ensures r.Some? ==> BestSymbol(vals, ok, wantSection, vma, r.value)
    ensures r.Some? ==> First(vals, ok, true, r.value) || First(vals, ok, wantSection, r.value)
    ensures forall q: nat :: q < |vals| && ok(true, q) && Closest(vals, vma, q) ==>
              r.Some? && ok(true, r.value) && vals[r.value] == vals[q]
  {
    if |vals| < 1 {
      return None;
    }
    var place, maxCount := Locate(vals, vma);

    // prefer a symbol in the section
    var min := place;
    while min < maxCount && vals[min] == vals[place]
      invariant place <= min <= maxCount
      invariant forall k :: place <= k < min ==> vals[k] == vals[place] && !ok(true, k)
    {
      if ok(true, min) {
        assert forall q: nat :: Closest(vals, vma, q) ==> vals[q] == vals[place] by {
          assert vals[place] > vma ==> forall q :: 0 <= q < |vals| ==> vals[place] <= vals[q];
        }
        assert ok(wantSection, min) by {
          if !wantSection {
            assert ok(false, min);
          }
        }
        FirstFrom(vals, ok, true, place, min);
        return Some(min);
      }
      min := min + 1;
    }
    assert forall q: nat :: q < |vals| && Closest(vals, vma, q) ==> vals[q] == vals[place] && place <= q < min;

    if ok(wantSection, place) {
      FirstFrom(vals, ok, wantSection, place, place);
      return Some(place);
    }
    r := SearchOthers(vals, ok, wantSection, vma, place, min);
  }

  /** The symbol at place is not acceptable: look at those with smaller values, then at those
      with larger ones. */
  method SearchOthers(vals: seq<nat>, ok: (bool, nat) -> bool, w: bool, vma: nat, place: nat, min: nat) returns (r: Option<nat>)
    requires Ascending(vals) && place < min <= |vals| && !ok(w, place)
    requires forall k :: place <= k < min ==> vals[k] == vals[place]
    requires forall k :: 0 <= k < |vals| && vals[k] <= vma ==> vals[k] <= vals[place]
    requires vals[place] > vma ==> place == 0 && min == 1
    requires vals[place] <= vma ==> forall k :: min <= k < |vals| ==> vals[k] > vma
    ensures r.None? <==> forall p: nat :: p < |vals| ==> !ok(w, p)
    ensures r.Some? ==> BestSymbol(vals, ok, w, vma, r.value) && First(vals, ok, w, r.value)
  {
    var newplace := |vals|;
    var i := min;
    while i > 0
      invariant 0 <= i <= min && i <= newplace <= |vals|
      invariant newplace == |vals| ==> forall k :: i <= k < min ==> !ok(w, k)
      invariant newplace < |vals| ==>
        (newplace < min && ok(w, newplace) && forall k :: i <= k < min && ok(w, k) ==> vals[k] == vals[newplace] && k >= newplace)
    {
      i := i - 1;
      if ok(w, i) {
        if newplace == |vals| {
          newplace := i;
        }
        if vals[i] != vals[newplace] {
          break;
        }
        newplace := i;
      }
    }
    if newplace != |vals| {
      assert vals[newplace] <= vma by {
        assert newplace != place;
      }
      forall q: nat | q < |vals| && ok(w, q) && vals[q] <= vma
        ensures vals[q] <= vals[newplace] && (q < newplace ==> vals[q] < vals[newplace])
      {
        if q < i {
          assert vals[q] <= vals[i];
        }
      }
      return Some(newplace);
    }
    i := place + 1;
    while i < |vals|
      invariant place < i <= |vals|
      invariant forall k :: place < k < i ==> !ok(w, k)
    {
      if ok(w, i) {
        assert i >= min && forall q: nat :: q < i ==> !ok(w, q);
        return Some(i);
      }
      i := i + 1;
    }
    return None;
  }
}
