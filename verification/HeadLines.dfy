/** All but the last lines of a file: what head is to print, and the search for line ends. */
module HeadLines {

  type Byte = bv8

  function Newlines(s: seq<Byte>, e: Byte): nat {
    if s == [] then 0 else (if s[0] == e then 1 else 0) + Newlines(s[1..], e)
  }

  /** The number of lines, an unterminated last one included. */
  function Lines(s: seq<Byte>, e: Byte): nat {
    Newlines(s, e) + if s != [] && s[|s| - 1] != e then 1 else 0
  }

  function FirstLines(s: seq<Byte>, e: Byte, k: nat): seq<Byte> {
    if k == 0 || s == [] then [] else [s[0]] + FirstLines(s[1..], e, if s[0] == e then k - 1 else k)
  }

  /** What head is to print. */
  function AllButLines(s: seq<Byte>, e: Byte, nElide: nat): seq<Byte> {
    FirstLines(s, e, if nElide < Lines(s, e) then Lines(s, e) - nElide else 0)
  }

  lemma {:induction false} NewlinesConcat(a: seq<Byte>, b: seq<Byte>, e: Byte)
    ensures Newlines(a + b, e) == Newlines(a, e) + Newlines(b, e)
  {
    if a == [] {
      assert a + b == b;
    } else {
      NewlinesConcat(a[1..], b, e);
      assert (a + b)[1..] == a[1..] + b;
    }
  }

  lemma LinesConcat(a: seq<Byte>, b: seq<Byte>, e: Byte)
    requires b != []
    ensures Lines(a + b, e) == Newlines(a, e) + Lines(b, e)
  {
    NewlinesConcat(a, b, e);
  }

  lemma {:induction false} FirstLinesCons(x: Byte, s: seq<Byte>, e: Byte, k: nat)
    requires k > 0
    ensures FirstLines([x] + s, e, k) == [x] + FirstLines(s, e, if x == e then k - 1 else k)
  {
    assert ([x] + s)[1..] == s;
  }

  // The first lines reach into b.
  lemma {:induction false} FirstLinesBeyond(a: seq<Byte>, b: seq<Byte>, e: Byte, k: nat)
    requires k > 0
    ensures FirstLines(a + b, e, Newlines(a, e) + k) == a + FirstLines(b, e, k)
  {
    hide FirstLines;
    if a == [] {
      assert a + b == b && a + FirstLines(b, e, k) == FirstLines(b, e, k);
    } else {
      FirstLinesBeyond(a[1..], b, e, k);
      FirstLinesCons(a[0], a[1..] + b, e, Newlines(a, e) + k);
      hide Newlines;
      assert [a[0]] + (a[1..] + b) == a + b;
      assert [a[0]] + (a[1..] + FirstLines(b, e, k)) == a + FirstLines(b, e, k);
    }
  }

  // The first lines end in a.
  lemma {:induction false} FirstLinesWithin(a: seq<Byte>, b: seq<Byte>, e: Byte, k: nat)
    requires k <= Newlines(a, e)
    ensures FirstLines(a + b, e, k) == FirstLines(a, e, k)
  {
    if k > 0 {
      FirstLinesWithin(a[1..], b, e, if a[0] == e then k - 1 else k);
      assert (a + b)[1..] == a[1..] + b;
    }
  }

  // All lines of a, if it ends with a line end.
  lemma {:induction false} FirstLinesAll(a: seq<Byte>, e: Byte)
    requires a == [] || a[|a| - 1] == e
    ensures FirstLines(a, e, Newlines(a, e)) == a
  {
    if a != [] {
      var n := |a| - 1;
      assert a == a[..n] + [e];
      NewlinesConcat(a[..n], [e], e);
      assert Newlines([e], e) == 1 by {
        assert [e][1..] == [];
      }
      FirstLinesBeyond(a[..n], [e], e, 1);
      assert FirstLines([e], e, 1) == [e] by {
        assert [e][1..] == [];
      }
    }
  }

  /** With more than nElide lines still to come, what is before them is printed. */
  lemma AllButBeyond(a: seq<Byte>, b: seq<Byte>, e: Byte, nElide: nat)
    requires nElide < Lines(b, e)
    ensures AllButLines(a + b, e, nElide) == a + AllButLines(b, e, nElide)
  {
    LinesConcat(a, b, e);
    FirstLinesBeyond(a, b, e, Lines(b, e) - nElide);
  }

  /** With exactly nElide lines to come, what is before them is all that is printed. */
  lemma AllButExactly(a: seq<Byte>, b: seq<Byte>, e: Byte, nElide: nat)
    requires nElide == Lines(b, e) && (a == [] || a[|a| - 1] == e)
    ensures AllButLines(a + b, e, nElide) == a
  {
    if b == [] {
      assert a + b == a;
    } else {
      LinesConcat(a, b, e);
    }
    FirstLinesWithin(a, b, e, Newlines(a, e));
    FirstLinesAll(a, e);
  }

  lemma AllButNone(s: seq<Byte>, e: Byte)
    ensures AllButLines(s, e, 0) == s
  {
    if s == [] || s[|s| - 1] == e {
      FirstLinesAll(s, e);
    } else {
      FirstLinesBeyond(s, [], e, 1);
      assert s + [] == s;
    }
  }

  lemma {:induction false} FirstLinesPrefix(s: seq<Byte>, e: Byte, k: nat)
    ensures FirstLines(s, e, k) <= s
    ensures var out := FirstLines(s, e, k);
            && Newlines(s[|out|..], e) == (if k < Newlines(s, e) then Newlines(s, e) - k else 0)
            && if k <= Newlines(s, e) then out == [] || out[|out| - 1] == e else out == s
    decreases |s|
  {
    if k > 0 && s != [] {
      var k' := if s[0] == e then k - 1 else k;
      FirstLinesPrefix(s[1..], e, k');
      var rest := FirstLines(s[1..], e, k');
      assert FirstLines(s, e, k) == [s[0]] + rest;
      assert s[|rest| + 1..] == s[1..][|rest|..];
    } else {
      assert s[0..] == s;
    }
  }

  /** What is printed and what is left make up the input; what is left are nElide lines, or all
      of them; and the cut is behind a line end. */
  lemma AllButLinesMeans(s: seq<Byte>, e: Byte, nElide: nat)
    ensures AllButLines(s, e, nElide) <= s
    ensures var out := AllButLines(s, e, nElide);
            && Lines(s[|out|..], e) == (if nElide < Lines(s, e) then nElide else Lines(s, e))
            && (out == [] || out == s || out[|out| - 1] == e)
  {
    var k := if nElide < Lines(s, e) then Lines(s, e) - nElide else 0;
    FirstLinesPrefix(s, e, k);
    var out := FirstLines(s, e, k);
    if k == 0 {
      assert s[0..] == s;
    } else {
      AllButCount(s, e, k);
    }
  }

  lemma {:induction false} AllButCount(s: seq<Byte>, e: Byte, k: nat)
    requires 0 < k <= Lines(s, e)
    ensures FirstLines(s, e, k) <= s
    ensures Lines(s[|FirstLines(s, e, k)|..], e) == Lines(s, e) - k
    decreases |s|
  {
    FirstLinesPrefix(s, e, k);
    var out := FirstLines(s, e, k);
    var rest := s[|out|..];
    assert s == out + rest;
    assert rest != [] ==> rest[|rest| - 1] == s[|s| - 1];
  }
}
