/** elide_tail_lines_pipe of head: whatever comes in is kept in a linked list of buffers, and the
    oldest buffer is printed and used again as soon as enough lines are behind it. */
module HeadPipe {
  import opened HeadLines

  class LineBuffer {
    const buffer: array<Byte>
    var nbytes: nat
    var nlines: nat
    var next: LineBuffer?

    constructor (bufsiz: nat)
      ensures fresh(buffer) && buffer.Length == bufsiz && nbytes == nlines == 0 && next == null
    {
      buffer := new Byte[bufsiz];
      nbytes, nlines, next := 0, 0, null;
    }
  }

  function Flatten(parts: seq<seq<Byte>>): seq<Byte> {
    if parts == [] then [] else Flatten(parts[..|parts| - 1]) + parts[|parts| - 1]
  }

  // Buffer k of the list holds texts[k].
  ghost predicate Node(nodes: seq<LineBuffer>, texts: seq<seq<Byte>>, e: Byte, bufsiz: nat, k: nat)
    requires k < |nodes|
    reads nodes[k], nodes[k].buffer
  {
    var b := nodes[k];
    && k < |texts| && b.buffer.Length == bufsiz && b.nbytes == |texts[k]| <= bufsiz
    && b.buffer[..b.nbytes] == texts[k]
    && b.nlines == Newlines(texts[k], e)
    && b.next == if k + 1 < |nodes| then nodes[k + 1] else null
  }

  ghost predicate Distinct(nodes: seq<LineBuffer>) {
    forall j, k :: 0 <= j < k < |nodes| ==> nodes[j] != nodes[k] && nodes[j].buffer != nodes[k].buffer
  }

  ghost function Arrays(nodes: seq<LineBuffer>): set<array<Byte>> {
    set k | 0 <= k < |nodes| :: nodes[k].buffer
  }

  /** The list from first to last. */
  ghost predicate List(nodes: seq<LineBuffer>, texts: seq<seq<Byte>>, e: Byte, bufsiz: nat)
    reads nodes, Arrays(nodes)
  {
    && nodes != [] && |nodes| == |texts| && Distinct(nodes)
    && forall k: nat :: k < |nodes| ==> Node(nodes, texts, e, bufsiz, k)
  }

  /** memchr: the first line end from p on, or end. */
  method MemChr(buffer: array<Byte>, p: nat, e: Byte, end: nat) returns (q: nat)
    requires p <= end <= buffer.Length
    ensures p <= q <= end && (q < end ==> buffer[q] == e)
    ensures forall k :: p <= k < q ==> buffer[k] != e
  {
    q := p;
    while q < end && buffer[q] != e
      invariant p <= q <= end && forall k :: p <= k < q ==> buffer[k] != e
    {
      q := q + 1;
    }
  }

  lemma {:induction false} NextLineEnd(s: seq<Byte>, e: Byte, p: nat, q: nat)
    requires p <= q <= |s| && forall k :: p <= k < q ==> s[k] != e
    requires q < |s| ==> s[q] == e
    ensures q < |s| ==> Newlines(s[p..], e) == 1 + Newlines(s[q + 1..], e)
    ensures q == |s| ==> Newlines(s[p..], e) == 0
    ensures q < |s| ==> forall k: nat :: k > 0 ==> FirstLines(s[p..], e, k) == s[p..q + 1] + FirstLines(s[q + 1..], e, k - 1)
    decreases q - p
  {
    if p < q {
      NextLineEnd(s, e, p + 1, q);
      assert s[p..][1..] == s[p + 1..];
      assert q < |s| ==> [s[p]] + s[p + 1..q + 1] == s[p..q + 1];
    } else if q < |s| {
      assert s[p..][1..] == s[p + 1..];
      assert s[p..q + 1] == [s[p]];
    }
  }

  /** Counts the newlines just read. */
  method CountNewlines(buffer: array<Byte>, e: Byte, n: nat) returns (nlines: nat)
    requires n <= buffer.Length
    ensures nlines == Newlines(buffer[..n], e)
  {
    hide Newlines, FirstLines;
    ghost var s := buffer[..n];
    nlines := 0;
    var p := 0;
    assert s[0..] == s;
    while true
      invariant 0 <= p <= n && nlines + Newlines(s[p..], e) == Newlines(s, e)
      decreases n - p
    {
      var q := MemChr(buffer, p, e, n);
      NextLineEnd(s, e, p, q);
      if q == n {
        return;
      }
      p := q + 1;
      nlines := nlines + 1;
    }
  }

  lemma NoLinesWanted(s: seq<Byte>, e: Byte)
    ensures FirstLines(s, e, 0) == []
  {
  }

  /** The end of the first n lines of the buffer. */
  method EndOfLines(buffer: array<Byte>, e: Byte, nbytes: nat, n0: nat) returns (p: nat)
    requires nbytes <= buffer.Length && n0 <= Newlines(buffer[..nbytes], e)
    ensures p <= nbytes && buffer[..p] == FirstLines(buffer[..nbytes], e, n0)
  {
    hide Newlines, FirstLines;
    ghost var s := buffer[..nbytes];
    var n := n0;
    p := 0;
    assert s[0..] == s && s[..0] == [];
    while n > 0
      invariant 0 <= n && p <= nbytes && n <= Newlines(s[p..], e)
      invariant FirstLines(s, e, n0) == s[..p] + FirstLines(s[p..], e, n)
      decreases n
    {
      var q := MemChr(buffer, p, e, nbytes);
      NextLineEnd(s, e, p, q);
      assert q < nbytes;
      assert s[..p] + s[p..q + 1] == s[..q + 1];
      p := q + 1;
      n := n - 1;
    }
    NoLinesWanted(s[p..], e);
    assert buffer[..p] == s[..p];
  }

  // ---------- the list ----------

  // A buffer that is not in the list.
  ghost predicate Spare(tmp: LineBuffer, nodes: seq<LineBuffer>, bufsiz: nat) {
    && tmp.buffer.Length == bufsiz && tmp !in nodes
    && forall k :: 0 <= k < |nodes| ==> nodes[k].buffer != tmp.buffer
  }

  ghost predicate Loaded(tmp: LineBuffer, chunk: seq<Byte>, e: Byte)
    reads tmp, tmp.buffer
  {
    && tmp.nbytes == |chunk| <= tmp.buffer.Length && tmp.buffer[..tmp.nbytes] == chunk
    && tmp.nlines == Newlines(chunk, e) && tmp.next == null
  }

  /** safe_read into the spare buffer. */
  method Load(tmp: LineBuffer, chunk: seq<Byte>, e: Byte, ghost nodes: seq<LineBuffer>, ghost texts: seq<seq<Byte>>,
              ghost bufsiz: nat)
    requires List(nodes, texts, e, bufsiz) && Spare(tmp, nodes, bufsiz) && |chunk| <= bufsiz
    modifies tmp, tmp.buffer
    ensures List(nodes, texts, e, bufsiz) && Loaded(tmp, chunk, e)
  {
    hide Newlines;
    forall k | 0 <= k < |chunk| {
      tmp.buffer[k] := chunk[k];
    }
    tmp.nbytes := |chunk|;
    tmp.next := null;
    assert tmp.buffer[..|chunk|] == chunk;
    tmp.nlines := CountNewlines(tmp.buffer, e, |chunk|);
    forall k: nat | k < |nodes|
      ensures Node(nodes, texts, e, bufsiz, k)
    {
      assert old(Node(nodes, texts, e, bufsiz, k));
    }
  }

  /** There is room in the last buffer. */
  method Append(last: LineBuffer, tmp: LineBuffer, chunk: seq<Byte>, e: Byte, ghost nodes: seq<LineBuffer>,
                ghost texts: seq<seq<Byte>>, ghost bufsiz: nat)
    requires List(nodes, texts, e, bufsiz) && Spare(tmp, nodes, bufsiz) && Loaded(tmp, chunk, e)
    requires last == nodes[|nodes| - 1] && tmp.nbytes + last.nbytes < bufsiz
    modifies last, last.buffer
    ensures List(nodes, texts[|texts| - 1 := texts[|texts| - 1] + chunk], e, bufsiz)
  {
    hide Newlines;
    ghost var n := |nodes| - 1;
    assert Node(nodes, texts, e, bufsiz, n);
    ghost var text := texts[n];
    NewlinesConcat(text, chunk, e);
    var at := last.nbytes;
    forall k | 0 <= k < tmp.nbytes {
      last.buffer[at + k] := tmp.buffer[k];
    }
    last.nbytes := last.nbytes + tmp.nbytes;
    last.nlines := last.nlines + tmp.nlines;
    assert last.buffer[..last.nbytes] == text + chunk;
    ghost var longer := texts[n := text + chunk];
    forall k: nat | k < |nodes|
      ensures Node(nodes, longer, e, bufsiz, k)
    {
      assert old(Node(nodes, texts, e, bufsiz, k));
    }
  }

  /** The new buffer goes to the end of the list. */
  method Link(last: LineBuffer, tmp: LineBuffer, chunk: seq<Byte>, e: Byte, ghost nodes: seq<LineBuffer>,
              ghost texts: seq<seq<Byte>>, ghost bufsiz: nat)
    requires List(nodes, texts, e, bufsiz) && Spare(tmp, nodes, bufsiz) && Loaded(tmp, chunk, e)
    requires last == nodes[|nodes| - 1]
    modifies last`next
    ensures List(nodes + [tmp], texts + [chunk], e, bufsiz)
  {
    hide Newlines;
    last.next := tmp;
    ghost var nodes', texts' := nodes + [tmp], texts + [chunk];
    forall k: nat | k < |nodes'|
      ensures Node(nodes', texts', e, bufsiz, k)
    {
      if k < |nodes| {
        assert old(Node(nodes, texts, e, bufsiz, k));
      }
    }
  }

  lemma {:induction false} Unlinked(nodes: seq<LineBuffer>, texts: seq<seq<Byte>>, e: Byte, bufsiz: nat)
    requires List(nodes, texts, e, bufsiz) && |nodes| > 1
    ensures List(nodes[1..], texts[1..], e, bufsiz) && Spare(nodes[0], nodes[1..], bufsiz)
    ensures nodes[0].next == nodes[1]
    ensures nodes[0].nlines == Newlines(texts[0], e)
    ensures nodes[0].nbytes <= nodes[0].buffer.Length && nodes[0].buffer[..nodes[0].nbytes] == texts[0]
  {
    hide Newlines;
    assert Node(nodes, texts, e, bufsiz, 0);
    var nodes', texts' := nodes[1..], texts[1..];
    forall k: nat | k < |nodes'|
      ensures Node(nodes', texts', e, bufsiz, k)
    {
      assert Node(nodes, texts, e, bufsiz, k + 1);
    }
  }

  lemma {:induction false} FlattenCons(parts: seq<seq<Byte>>)
    requires parts != []
    ensures Flatten(parts) == parts[0] + Flatten(parts[1..])
    decreases |parts|
  {
    var n := |parts| - 1;
    if n > 0 {
      FlattenCons(parts[..n]);
      assert parts[..n][1..] == parts[1..][..n - 1];
    }
  }

  lemma {:induction false} FlattenSnoc(parts: seq<seq<Byte>>, part: seq<Byte>)
    ensures Flatten(parts + [part]) == Flatten(parts) + part
  {
    assert (parts + [part])[..|parts|] == parts;
  }

  lemma {:induction false} FlattenLast(parts: seq<seq<Byte>>, more: seq<Byte>)
    requires parts != []
    ensures Flatten(parts[|parts| - 1 := parts[|parts| - 1] + more]) == Flatten(parts) + more
  {
    var n := |parts| - 1;
    assert parts[n := parts[n] + more][..n] == parts[..n];
  }

  // ---------- reading ----------

  /** What is printed and what is in the list make up what is read; and there are always more
      than nElide line ends behind what is printed. */
  ghost predicate Keeping(out: seq<Byte>, texts: seq<seq<Byte>>, e: Byte, total: nat, nElide: nat, consumed: seq<Byte>) {
    && texts != [] && consumed == out + Flatten(texts)
    && total == Newlines(Flatten(texts), e)
    && (nElide == 0 ==> texts == [[]])
    && (nElide > 0 && out != [] ==> total > nElide)
    && (|texts| > 1 ==> texts[|texts| - 1] != [])
  }

  lemma {:induction false} KeepMore(out: seq<Byte>, texts: seq<seq<Byte>>, e: Byte, total: nat, nElide: nat,
                                    consumed: seq<Byte>,
                                    chunk: seq<Byte>)
    requires Keeping(out, texts, e, total, nElide, consumed) && nElide > 0 && chunk != []
    ensures var total' := total + Newlines(chunk, e);
            && Keeping(out, texts[|texts| - 1 := texts[|texts| - 1] + chunk], e, total', nElide, consumed + chunk)
            && Keeping(out, texts + [chunk], e, total', nElide, consumed + chunk)
  {
    hide Newlines, Flatten;
    FlattenSnoc(texts, chunk);
    FlattenLast(texts, chunk);
    NewlinesConcat(Flatten(texts), chunk, e);
    assert out + Flatten(texts) + chunk == out + (Flatten(texts) + chunk);
  }

  lemma {:induction false} KeepLess(out: seq<Byte>, texts: seq<seq<Byte>>, e: Byte, total: nat, nElide: nat,
                                    consumed: seq<Byte>)
    requires Keeping(out, texts, e, total, nElide, consumed) && nElide > 0 && |texts| > 1
    requires nElide < total - Newlines(texts[0], e)
    ensures Keeping(out + texts[0], texts[1..], e, total - Newlines(texts[0], e), nElide, consumed)
  {
    hide Newlines, Flatten;
    FlattenCons(texts);
    NewlinesConcat(texts[0], Flatten(texts[1..]), e);
    assert out + (texts[0] + Flatten(texts[1..])) == out + texts[0] + Flatten(texts[1..]);
  }

  lemma {:induction false} KeepAll(out: seq<Byte>, texts: seq<seq<Byte>>, e: Byte, total: nat, consumed: seq<Byte>,
                                   chunk: seq<Byte>)
    requires Keeping(out, texts, e, total, 0, consumed)
    ensures Keeping(out + chunk, texts, e, total, 0, consumed + chunk)
  {
    assert Flatten(texts) == [] by {
      assert texts[..0] == [];
    }
  }

  ghost predicate Fresh(nodes: seq<LineBuffer>, news: set<object>) {
    forall k :: 0 <= k < |nodes| ==> nodes[k] in news && nodes[k].buffer in news
  }

  /** One round of reading. */
  method Round(first0: LineBuffer, last0: LineBuffer, tmp0: LineBuffer, chunk: seq<Byte>, e: Byte, nElide: nat, bufsiz: nat,
               total0: nat, out0: seq<Byte>, pos0: int, ghost nodes0: seq<LineBuffer>, ghost texts0: seq<seq<Byte>>,
               ghost consumed: seq<Byte>, ghost news: set<object>)
    returns (first: LineBuffer, last: LineBuffer, tmp: LineBuffer, total: nat, out: seq<Byte>, pos: int,
             ghost nodes: seq<LineBuffer>, ghost texts: seq<seq<Byte>>)
    requires 0 < |chunk| <= bufsiz && nElide > 0
    requires List(nodes0, texts0, e, bufsiz) && first0 == nodes0[0] && last0 == nodes0[|nodes0| - 1]
             && Spare(tmp0, nodes0, bufsiz)
    requires Keeping(out0, texts0, e, total0, nElide, consumed)
    requires Fresh(nodes0, news) && tmp0 in news && tmp0.buffer in news
    modifies news
    ensures nodes != [] && List(nodes, texts, e, bufsiz)
    ensures first == nodes[0] && last == nodes[|nodes| - 1] && Spare(tmp, nodes, bufsiz)
    ensures Keeping(out, texts, e, total, nElide, consumed + chunk) && pos == pos0 + |out| - |out0|
    ensures forall k :: 0 <= k < |nodes| ==> nodes[k] in news && nodes[k].buffer in news
    ensures (tmp in news && tmp.buffer in news) || (fresh(tmp) && fresh(tmp.buffer))
  {
    hide Newlines, Node, Flatten, Keeping;
    first, last, tmp, total, out, pos := first0, last0, tmp0, total0, out0, pos0;
    nodes, texts := nodes0, texts0;
    Load(tmp, chunk, e, nodes, texts, bufsiz);
    KeepMore(out, texts, e, total, nElide, consumed, chunk);
    total := total + tmp.nlines;
    LastBytes(nodes, texts, e, bufsiz);
    if tmp.nbytes + last.nbytes < bufsiz {
      Append(last, tmp, chunk, e, nodes, texts, bufsiz);
      texts := texts[|texts| - 1 := texts[|texts| - 1] + chunk];
    } else {
      Link(last, tmp, chunk, e, nodes, texts, bufsiz);
      nodes, texts := nodes + [tmp], texts + [chunk];
      last := tmp;
      Unlinked(nodes, texts, e, bufsiz);
      if nElide < total - first.nlines {
        KeepLess(out, texts, e, total, nElide, consumed + chunk);
        pos := pos + first.nbytes;
        out := out + first.buffer[..first.nbytes];
        tmp := first;
        total := total - first.nlines;
        first := first.next;
        nodes, texts := nodes[1..], texts[1..];
      } else {
        tmp := new LineBuffer(bufsiz);
      }
    }
  }

  lemma {:induction false} LastBytes(nodes: seq<LineBuffer>, texts: seq<seq<Byte>>, e: Byte, bufsiz: nat)
    requires List(nodes, texts, e, bufsiz)
    ensures nodes[|nodes| - 1].nbytes == |texts[|texts| - 1]| <= nodes[|nodes| - 1].buffer.Length
  {
    assert Node(nodes, texts, e, bufsiz, |nodes| - 1);
  }

  // ---------- the end of the input ----------

  // The number of lines that end in part k, an unterminated last one included.
  ghost function LinesOf(texts: seq<seq<Byte>>, e: Byte, k: nat): nat
    requires k < |texts|
  {
    if k + 1 == |texts| then Lines(texts[k], e) else Newlines(texts[k], e)
  }

  ghost predicate Closed(nodes: seq<LineBuffer>, texts: seq<seq<Byte>>, e: Byte, k: nat)
    requires k < |nodes| == |texts|
    reads nodes[k], nodes[k].buffer
  {
    var b := nodes[k];
    && b.nbytes == |texts[k]| <= b.buffer.Length && b.buffer[..b.nbytes] == texts[k]
    && b.nlines == LinesOf(texts, e, k)
    && (k + 1 < |nodes| ==> b.next == nodes[k + 1])
  }

  lemma {:induction false} FlattenSome(parts: seq<seq<Byte>>)
    requires parts != [] && parts[|parts| - 1] != []
    ensures Flatten(parts) != []
  {
  }

  lemma {:induction false} RestLines(texts: seq<seq<Byte>>, e: Byte, k: nat)
    requires k < |texts| && (|texts| > 1 ==> texts[|texts| - 1] != [])
    ensures Flatten(texts[k..]) == texts[k] + Flatten(texts[k + 1..])
    ensures k + 1 == |texts| ==> Flatten(texts[k + 1..]) == [] && Flatten(texts[k..]) == texts[k]
    ensures Lines(Flatten(texts[k..]), e) == LinesOf(texts, e, k) + (if k + 1 < |texts| then Lines(Flatten(texts[k + 1..]), e) else 0)
  {
    hide Newlines;
    FlattenCons(texts[k..]);
    assert texts[k..][1..] == texts[k + 1..];
    if k + 1 < |texts| {
      FlattenSome(texts[k + 1..]);
      LinesConcat(texts[k], Flatten(texts[k + 1..]), e);
    } else {
      assert texts[k + 1..] == [];
    }
  }

  /** Counts the incomplete line of an input that does not end with a line end. */
  method Close(last: LineBuffer, e: Byte, total0: nat, ghost nodes: seq<LineBuffer>, ghost texts: seq<seq<Byte>>,
               ghost bufsiz: nat)
    returns (total: nat)
    requires List(nodes, texts, e, bufsiz) && last == nodes[|nodes| - 1]
    requires total0 == Newlines(Flatten(texts), e) && (|texts| > 1 ==> texts[|texts| - 1] != [])
    modifies last`nlines
    ensures total == Lines(Flatten(texts), e)
    ensures forall k: nat :: k < |nodes| ==> Closed(nodes, texts, e, k)
  {
    hide Newlines;
    ghost var n := |nodes| - 1;
    assert Node(nodes, texts, e, bufsiz, n);
    total := total0;
    assert last.nbytes > 0 ==> last.buffer[last.nbytes - 1] == texts[n][|texts[n]| - 1];
    if last.nbytes > 0 && last.buffer[last.nbytes - 1] != e {
      last.nlines := last.nlines + 1;
      total := total + 1;
    }
    forall k: nat | k < |nodes|
      ensures Closed(nodes, texts, e, k)
    {
      assert old(Node(nodes, texts, e, bufsiz, k));
    }
    assert Flatten(texts)[|Flatten(texts)| - |texts[n]|..] == texts[n];
  }

  lemma {:induction false} PrintedSoFar(out: seq<Byte>, texts: seq<seq<Byte>>, e: Byte, total: nat, nElide: nat,
                                        consumed: seq<Byte>)
    requires Keeping(out, texts, e, total, nElide, consumed)
    ensures AllButLines(consumed, e, nElide) == out + AllButLines(Flatten(texts), e, nElide)
  {
    if nElide == 0 {
      AllButNone(consumed, e);
      AllButNone(Flatten(texts), e);
    } else if out != [] {
      AllButBeyond(out, Flatten(texts), e, nElide);
    } else {
      assert [] + Flatten(texts) == Flatten(texts);
      assert [] + AllButLines(Flatten(texts), e, nElide) == AllButLines(Flatten(texts), e, nElide);
    }
  }

  // The last lines to be printed are in part k.
  lemma {:induction false} LastPart(texts: seq<seq<Byte>>, e: Byte, k: nat, nElide: nat)
    requires k < |texts| && (|texts| > 1 ==> texts[|texts| - 1] != []) && (nElide == 0 ==> texts == [[]])
    requires k + 1 < |texts| ==> Lines(Flatten(texts[k + 1..]), e) <= nElide
    ensures var total := Lines(Flatten(texts[k..]), e);
            if nElide < total then
              && total - nElide <= Newlines(texts[k], e)
              && AllButLines(Flatten(texts[k..]), e, nElide) == FirstLines(texts[k], e, total - nElide)
            else AllButLines(Flatten(texts[k..]), e, nElide) == []
  {
    hide Newlines, Flatten;
    RestLines(texts, e, k);
    var total := Lines(Flatten(texts[k..]), e);
    if nElide < total {
      assert nElide == 0 ==> texts[k] == [];
      assert total - nElide <= Newlines(texts[k], e) by {
        NoNewlines(e);
      }
      FirstLinesWithin(texts[k], Flatten(texts[k + 1..]), e, total - nElide);
    }
  }

  lemma NoNewlines(e: Byte)
    ensures Newlines([], e) == 0
  {
  }

  /** What is printed when the input has ended. */
  method PrintRest(first: LineBuffer, last: LineBuffer, e: Byte, nElide: nat, total0: nat, out0: seq<Byte>, pos0: int,
                   ghost nodes: seq<LineBuffer>, ghost texts: seq<seq<Byte>>, ghost bufsiz: nat, ghost consumed: seq<Byte>)
    returns (out: seq<Byte>, pos: int)
    requires List(nodes, texts, e, bufsiz) && first == nodes[0] && last == nodes[|nodes| - 1]
    requires Keeping(out0, texts, e, total0, nElide, consumed)
    modifies last`nlines
    ensures out == AllButLines(consumed, e, nElide) && pos == pos0 + |out| - |out0|
  {
    hide Newlines, Lines, Flatten, AllButLines, FirstLines, LinesOf;
    PrintedSoFar(out0, texts, e, total0, nElide, consumed);
    out, pos := out0, pos0;
    var total := Close(last, e, total0, nodes, texts, bufsiz);
    var tmp := first;
    ghost var k := 0;
    assert texts[0..] == texts;
    assert Closed(nodes, texts, e, 0);
    RestLines(texts, e, 0);
    while nElide < total - tmp.nlines
      invariant 0 <= k < |nodes| && tmp == nodes[k]
      invariant forall j: nat :: j < |nodes| ==> Closed(nodes, texts, e, j)
      invariant Closed(nodes, texts, e, k)
      invariant total == Lines(Flatten(texts[k..]), e) && tmp.nlines <= total
      invariant AllButLines(consumed, e, nElide) == out + AllButLines(Flatten(texts[k..]), e, nElide)
      invariant pos == pos0 + |out| - |out0|
      decreases |nodes| - k
    {
      RestLines(texts, e, k);
      assert k + 1 < |nodes|;
      AllButBeyond(texts[k], Flatten(texts[k + 1..]), e, nElide);
      assert out + (texts[k] + AllButLines(Flatten(texts[k + 1..]), e, nElide))
          == out + texts[k] + AllButLines(Flatten(texts[k + 1..]), e, nElide);
      pos := pos + tmp.nbytes;
      out := out + tmp.buffer[..tmp.nbytes];
      total := total - tmp.nlines;
      k := k + 1;
      assert Closed(nodes, texts, e, k);
      RestLines(texts, e, k);
      tmp := tmp.next;
    }
    RestLines(texts, e, k);
    LastPart(texts, e, k, nElide);
    if nElide < total {
      var p := EndOfLines(tmp.buffer, e, tmp.nbytes, total - nElide);
      pos := pos + p;
      out := out + tmp.buffer[..p];
    }
  }

  /** elide_tail_lines_pipe, the input coming in chunks of any size up to that of a buffer. */
  method ElideLinesPipe(chunks: seq<seq<Byte>>, e: Byte, nElide: nat, bufsiz: nat, currentPos: int)
    returns (out: seq<Byte>, desiredPos: int)
    requires bufsiz > 0 && forall k :: 0 <= k < |chunks| ==> 0 < |chunks[k]| <= bufsiz
    ensures out == AllButLines(Flatten(chunks), e, nElide)
    ensures desiredPos == currentPos + |out|
  {
    hide Newlines, Flatten, AllButLines, Keeping, List, Spare;
    out, desiredPos := [], currentPos;
    var first := new LineBuffer(bufsiz);
    var last := first;
    var total := 0;
    var tmp := new LineBuffer(bufsiz);
    ghost var nodes, texts := [first], [[]];
    ghost var news: set<object> := {first, first.buffer, tmp, tmp.buffer};
    StartList(first, tmp, e, bufsiz, nElide);
    var i := 0;
    assert chunks[..0] == [];
    while i < |chunks|
      invariant 0 <= i <= |chunks| && 0 <= total
      invariant List(nodes, texts, e, bufsiz) && nodes != [] && first == nodes[0] && last == nodes[|nodes| - 1]
      invariant Spare(tmp, nodes, bufsiz) && Keeping(out, texts, e, total, nElide, Flatten(chunks[..i]))
      invariant desiredPos == currentPos + |out|
      invariant fresh(news) && Fresh(nodes, news) && tmp in news && tmp.buffer in news
    {
      var chunk := chunks[i];
      FlattenSnoc(chunks[..i], chunk);
      assert chunks[..i + 1] == chunks[..i] + [chunk];
      if nElide == 0 {
        KeepAll(out, texts, e, total, Flatten(chunks[..i]), chunk);
        desiredPos := desiredPos + |chunk|;
        out := out + chunk;
      } else {
        first, last, tmp, total, out, desiredPos, nodes, texts :=
          Round(first, last, tmp, chunk, e, nElide, bufsiz, total, out, desiredPos, nodes, texts, Flatten(chunks[..i]), news);
        news := news + {tmp, tmp.buffer};
      }
      i := i + 1;
    }
    assert chunks[..i] == chunks;
    out, desiredPos := PrintRest(first, last, e, nElide, total, out, desiredPos, nodes, texts, bufsiz, Flatten(chunks));
  }

  lemma {:induction false} StartList(first: LineBuffer, tmp: LineBuffer, e: Byte, bufsiz: nat, nElide: nat)
    requires first.buffer.Length == tmp.buffer.Length == bufsiz && first != tmp && first.buffer != tmp.buffer
    requires first.nbytes == first.nlines == 0 && first.next == null
    ensures List([first], [[]], e, bufsiz) && Spare(tmp, [first], bufsiz)
    ensures Keeping([], [[]], e, 0, nElide, Flatten([]))
  {
    assert Node([first], [[]], e, bufsiz, 0);
    var one: seq<seq<Byte>> := [[]];
    assert one[..0] == [] && Flatten(one) == [];
  }
}
