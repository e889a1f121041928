/** elide_tail_bytes_pipe of head: all but the last nElide bytes of a stream, with two buffers or
    with a ring of buffers. */
module HeadBytes {
  import opened Division

  type Byte = bv8

  /** What head is to print. */
  function AllButBytes(input: seq<Byte>, nElide: nat): seq<Byte> {
    if nElide <= |input| then input[..|input| - nElide] else []
  }

  // The first n cells of buf are the input from pos on.
  ghost predicate Holds(buf: array<Byte>, input: seq<Byte>, pos: int, n: int)
    reads buf
  {
    && 0 <= n <= buf.Length && 0 <= pos && pos + n <= |input|
    && forall k :: 0 <= k < n ==> buf[k] == input[pos + k]
  }

  lemma {:induction false} HoldsSlice(buf: array<Byte>, input: seq<Byte>, pos: int, n: int, lo: int, hi: int)
    requires Holds(buf, input, pos, n) && 0 <= lo <= hi <= n
    ensures buf[lo..hi] == input[pos + lo..pos + hi]
  {
  }

  /** full_read: fills the buffer, unless the input ends before. */
  method FullRead(input: seq<Byte>, pos: nat, buf: array<Byte>) returns (nRead: nat)
    requires pos <= |input|
    modifies buf
    ensures nRead == if |input| - pos < buf.Length then |input| - pos else buf.Length
    ensures Holds(buf, input, pos, nRead)
  {
    nRead := if |input| - pos < buf.Length then |input| - pos else buf.Length;
    forall k | 0 <= k < nRead {
      buf[k] := input[pos + k];
    }
  }

  lemma {:induction false} Extend(input: seq<Byte>, out: seq<Byte>, n: nat)
    requires |out| + n <= |input| && out == input[..|out|]
    ensures out + input[|out|..|out| + n] == input[..|out| + n]
  {
  }

  // What the next round prints of the part that the previous one held back.
  method PrintHeld(input: seq<Byte>, prev: array<Byte>, readBufsize: nat, nElide: nat, delta: nat, out0: seq<Byte>,
                   ghost pos: nat)
    returns (out: seq<Byte>)
    requires prev.Length == readBufsize + nElide && delta <= nElide && pos == |out0| + nElide
    requires pos >= prev.Length && Holds(prev, input, pos - prev.Length, prev.Length) && out0 == input[..|out0|]
    ensures |out0| + nElide - delta <= |input| && out == input[..|out0| + nElide - delta]
  {
    HoldsSlice(prev, input, pos - prev.Length, prev.Length, readBufsize, readBufsize + nElide - delta);
    out := out0 + prev[readBufsize..readBufsize + nElide - delta];
    Extend(input, out0, nElide - delta);
  }

  // What it prints of the part just read, if that is more than is to be held back.
  method PrintRead(input: seq<Byte>, cur: array<Byte>, nElide: nat, nRead: nat, out0: seq<Byte>, ghost pos: nat)
    returns (out: seq<Byte>)
    requires nElide < nRead && pos == |out0| && Holds(cur, input, pos, nRead) && out0 == input[..|out0|]
    ensures |out0| + nRead - nElide <= |input| && out == input[..|out0| + nRead - nElide]
  {
    HoldsSlice(cur, input, pos, nRead, 0, nRead - nElide);
    out := out0 + cur[..nRead - nElide];
    Extend(input, out0, nRead - nElide);
  }

  /** The first case: every round prints what the previous one held back. */
  method DoubleBuffer(input: seq<Byte>, nElide: nat, readBufsize: nat, currentPos: int)
    returns (out: seq<Byte>, desiredPos: int)
    requires readBufsize > 0
    ensures out == AllButBytes(input, nElide)
    ensures desiredPos == currentPos + |out|
  {
    hide Holds;
    desiredPos, out := currentPos, [];
    var first, eof := true, false;
    var nToRead := readBufsize + nElide;
    var b0, b1 := new Byte[nToRead], new Byte[nToRead];
    var i := false;
    var pos := 0;
    while !eof
      invariant 0 <= pos <= |input| && (first ==> pos == 0) && (!first && !eof ==> pos >= nToRead)
      invariant desiredPos == currentPos + |out|
      invariant |out| <= |input| && out == input[..|out|]
      invariant |out| == if eof then |AllButBytes(input, nElide)| else if first then 0 else pos - nElide
      invariant !eof && !first ==> Holds(if i then b0 else b1, input, pos - nToRead, nToRead)
      decreases !eof, |input| - pos
    {
      var cur, prev := if i then b1 else b0, if i then b0 else b1;
      var nRead := FullRead(input, pos, cur);
      var delta := 0;
      if nRead < nToRead {
        if nRead <= nElide && !first {
          delta := nElide - nRead;
        }
        eof := true;
      }
      if !first {
        desiredPos := desiredPos + nElide - delta;
        out := PrintHeld(input, prev, readBufsize, nElide, delta, out, pos);
      }
      if nElide < nRead {
        desiredPos := desiredPos + nRead - nElide;
        out := PrintRead(input, cur, nElide, nRead, out, pos);
      }
      first := false;
      pos := pos + nRead;
      i := !i;
    }
  }

  // ---------- the ring ----------

  datatype Ring = Ring(rem: nat, round: nat, bufs: nat)

  // nElide rounded up beyond the next multiple of the buffer size, and the number of buffers.
  function RingOf(nElide: nat, readBufsize: nat): (r: Ring)
    requires readBufsize > 0
    ensures 0 < r.rem <= readBufsize && r.round == nElide + r.rem && r.bufs >= 2
    ensures (r.bufs - 1) * readBufsize == r.round
  {
    var rem := readBufsize - nElide % readBufsize;
    var round := nElide + rem;
    RoundExact(nElide, readBufsize);
    Ring(rem, round, round / readBufsize + 1)
  }

  lemma RoundExact(n: nat, b: nat)
    requires b > 0
    ensures (n + b - n % b) == (n / b + 1) * b && (n + b - n % b) / b == n / b + 1
  {
    assert n == n / b * b + n % b;
    var q := n / b + 1;
    assert q * b == n + b - n % b;
    DivModUnique(q * b, q, 0, b);
  }

  // i_next, as it is computed
  function Around(i: nat, n: nat): (k: nat)
    requires i < n
    ensures k == Succ(i, n)
  {
    (i + 1) % n
  }

  function Succ(i: nat, n: nat): nat { if i + 1 == n then 0 else i + 1 }

  /** The inputs for which the amount to be printed at the end is computed as a negative number:
      they end before the bytes to be elided do, but in the same block. */
  predicate Underflows(size: nat, nElide: nat, readBufsize: nat)
    requires readBufsize > 0
  {
    size < nElide && size / readBufsize == nElide / readBufsize
  }

  lemma {:induction false} UnderflowsWhen(size: nat, nElide: nat, b: nat)
    requires b > 0
    ensures Underflows(size, nElide, b) <==> RingOf(nElide, b).round - b <= size < nElide
  {
    RoundExact(nElide, b);
    BlockOf(size, nElide / b, b);
    if size < nElide {
      BlockOf(size, size / b, b);
      BlockOf(nElide, size / b, b);
    }
  }

  lemma {:induction false} BlockOf(n: nat, q: nat, b: nat)
    requires b > 0
    ensures n / b >= q <==> n >= q * b
  {
    var k := n / b;
    assert n == k * b + n % b;
    if k < q {
      TimesRises(k, q, b);
    } else if q < k {
      TimesRises(q, k, b);
    }
  }

  /** There are such inputs exactly if the bytes to be elided are no whole number of blocks. */
  lemma {:induction false} UnderflowsFor(nElide: nat, b: nat)
    requires b > 0
    ensures (exists size: nat :: Underflows(size, nElide, b)) <==> nElide % b != 0
  {
    assert nElide == nElide / b * b + nElide % b;
    if nElide % b != 0 {
      BlockOf(nElide - 1, nElide / b, b);
      BlockOf(nElide, nElide / b + 1, b);
      BlockOf(nElide - 1, nElide / b + 1, b);
      assert Underflows(nElide - 1, nElide, b);
    } else {
      forall size: nat
        ensures !Underflows(size, nElide, b)
      {
        BlockOf(size, nElide / b, b);
      }
    }
  }

  // Up to this many bytes are elided with two buffers.
  const THRESHOLD: nat := 1024 * 1024

  /** For instance, with the usual blocks of 8192 bytes, and beyond what two buffers are used for. */
  lemma ShortInputUnderflows()
    ensures THRESHOLD < 1_048_578 && Underflows(1_048_577, 1_048_578, 8192)
    ensures forall size: nat :: Underflows(size, 1_048_578, 8192) <==> 1_048_576 <= size < 1_048_578
  {
  }

  // ---------- the loop over the ring ----------

  // Buffer j holds a whole block of the input, the one at position at[j].
  ghost predicate Block(b: seq<array<Byte>>, at: seq<nat>, input: seq<Byte>, j: nat, size: nat)
    requires j < |b| == |at|
    reads b[j]
  {
    b[j].Length == size && Holds(b[j], input, at[j], size)
  }

  ghost predicate Apart(b: seq<array<Byte>>) {
    forall j, k :: 0 <= j < k < |b| ==> b[j] != b[k]
  }

  /** Where the ring stands before a block is read into buffer i: pos bytes are read, shown bytes
      are printed, at[j] is the position of the block in buffer j. */
  ghost predicate Turning(r: Ring, size: nat, enough: bool, i: nat, pos: nat, shown: nat, at: seq<nat>) {
    && i < r.bufs && |at| <= r.bufs
    && (forall j: nat :: j < |at| ==> Linked(r, size, i, pos, at, j))
    && if enough then |at| == r.bufs && pos == shown + r.round && at[i] + size == shown && at[Succ(i, r.bufs)] == shown
       else |at| == i && pos == i * size && shown == 0 && (i > 0 ==> at[0] == 0)
  }

  // The block in buffer j is followed by the next one, or by what is read next.
  ghost predicate Linked(r: Ring, size: nat, i: nat, pos: nat, at: seq<nat>, j: nat)
    requires j < |at|
  {
    var k := Succ(j, r.bufs);
    if k == i then at[j] + size == pos else k < |at| && at[k] == at[j] + size
  }

  /** The next whole block turns the ring by one. */
  lemma {:induction false} TurnOn(r: Ring, size: nat, enough: bool, i: nat, pos: nat, shown: nat, at: seq<nat>)
    requires size > 0 && r.bufs >= 2 && (r.bufs - 1) * size == r.round
    requires Turning(r, size, enough, i, pos, shown, at)
    ensures var enough' := enough || i + 1 == r.bufs;
            var at' := if enough then at[i := pos] else at + [pos];
            && (enough' ==> at'[Succ(i, r.bufs)] == shown && pos == shown + r.round)
            && Turning(r, size, enough', Succ(i, r.bufs), pos + size, if enough' then shown + size else 0, at')
  {
    var at' := if enough then at[i := pos] else at + [pos];
    assert i > 0 && !enough ==> Linked(r, size, i, pos, at, i - 1);
    var i', pos' := Succ(i, r.bufs), pos + size;
    forall j: nat | j < |at'|
      ensures Linked(r, size, i', pos', at', j)
    {
      if j < |at| {
        assert Linked(r, size, i, pos, at, j);
      }
    }
    if enough {
      assert Linked(r, size, i, pos, at, Succ(i, r.bufs));
    } else if i + 1 == r.bufs {
      assert Linked(r, size, i, pos, at, 0);
    }
  }

  /** The input has ended with a short read of nRead bytes, and i and iNext have moved on. */
  ghost predicate Ended(b: seq<array<Byte>>, input: seq<Byte>, r: Ring, size: nat, enough: bool, i: nat, iNext: nat,
                        nRead: nat, out: seq<Byte>)
    reads b
  {
    && nRead < size && i < r.bufs && iNext == Succ(i, r.bufs)
    && if enough then
         && |b| == r.bufs && nRead <= |out| && |input| == |out| + r.round && out == input[..|out|]
         && b[i].Length == size && Holds(b[i], input, |out| - nRead, size)
         && b[iNext].Length == size && Holds(b[iNext], input, |out| - nRead + size, nRead)
       else
         && 0 < i == |b| && out == [] && |input| == (i - 1) * size + nRead
         && b[0].Length == size && Holds(b[0], input, 0, nRead)
  }

  // Before the ring is full.
  lemma {:induction false} UnfilledSize(r: Ring, size: nat, i: nat, nRead: nat, total: nat)
    requires 0 < i < r.bufs && nRead < size && (r.bufs - 1) * size == r.round && total == (i - 1) * size + nRead
    ensures if i + 1 == r.bufs then total == r.round - size + nRead else total < r.round - size
  {
    assert (r.bufs - 2) * size == r.round - size;
    if i + 1 < r.bufs {
      TimesRises(i - 1, r.bufs - 2, size);
    }
  }

  // The ring is full: rem bytes, from the oldest block and the one behind it.
  method PrintFull(b0: array<Byte>, b1: array<Byte>, input: seq<Byte>, rem: nat, size: nat, nRead: nat, out0: seq<Byte>)
    returns (out: seq<Byte>)
    requires nRead < size == b0.Length == b1.Length && rem <= size && |out0| + rem <= |input| && out0 == input[..|out0|]
    requires Holds(b0, input, |out0| - nRead, size) && Holds(b1, input, |out0| - nRead + size, nRead)
    ensures out == input[..|out0| + rem]
  {
    hide Holds;
    var left := size - nRead;
    if rem < left {
      HoldsSlice(b0, input, |out0| - nRead, size, nRead, nRead + rem);
      out := out0 + b0[nRead..nRead + rem];
      Extend(input, out0, rem);
    } else {
      HoldsSlice(b0, input, |out0| - nRead, size, nRead, size);
      HoldsSlice(b1, input, |out0| - nRead + size, nRead, 0, rem - left);
      out := out0 + b0[nRead..nRead + left];
      Extend(input, out0, left);
      Extend(input, out, rem - left);
      out := out + b1[..rem - left];
    }
  }

  /** What is printed at the end; overrun if the amount would be negative. */
  method PrintRemainder(b: seq<array<Byte>>, input: seq<Byte>, nElide: nat, size: nat, enough: bool, i: nat, iNext: nat,
                        nRead: nat, out0: seq<Byte>, pos0: int)
    returns (out: seq<Byte>, desiredPos: int, overrun: bool)
    requires size > 0 && Ended(b, input, RingOf(nElide, size), size, enough, i, iNext, nRead, out0)
    ensures overrun <==> Underflows(|input|, nElide, size)
    ensures !overrun ==> out == AllButBytes(input, nElide) && desiredPos == pos0 + |out| - |out0|
  {
    hide Holds, RingOf, Underflows;
    var r := RingOf(nElide, size);
    UnderflowsWhen(|input|, nElide, size);
    out, desiredPos, overrun := out0, pos0, false;
    if enough {
      desiredPos := desiredPos + r.rem;
      out := PrintFull(b[i], b[iNext], input, r.rem, size, nRead, out0);
    } else {
      UnfilledSize(r, size, i, nRead, |input|);
      if i + 1 == r.bufs {
        var y := size - r.rem;
        var x := nRead - y;
        if x < 0 {
          overrun := true;
        } else {
          HoldsSlice(b[0], input, 0, nRead, 0, x);
          desiredPos := desiredPos + x;
          out := out + b[iNext][..x];
        }
      }
    }
  }

  ghost predicate AllBlocks(b: seq<array<Byte>>, at: seq<nat>, input: seq<Byte>, size: nat)
    requires |b| == |at|
    reads b
  {
    forall j: nat :: j < |b| ==> Block(b, at, input, j, size)
  }

  // All buffers but one hold their blocks; that one holds what was just read.
  ghost predicate Refilled(b: seq<array<Byte>>, at: seq<nat>, input: seq<Byte>, size: nat, i: nat, pos: nat, nRead: nat)
    requires |b| == |at|
    reads b
  {
    && i < |b| && b[i].Length == size && Holds(b[i], input, pos, nRead)
    && forall j: nat :: j < |b| && j != i ==> Block(b, at, input, j, size)
  }

  method Refill(b: seq<array<Byte>>, ghost at: seq<nat>, input: seq<Byte>, size: nat, i: nat, pos: nat) returns (nRead: nat)
    requires |b| == |at| && i < |b| && Apart(b) && pos == at[i] <= |input| && b[i].Length == size
    requires forall j: nat :: j < |b| && j != i ==> Block(b, at, input, j, size)
    modifies b[i]
    ensures nRead == if |input| - pos < size then |input| - pos else size
    ensures Refilled(b, at, input, size, i, pos, nRead)
    ensures nRead == size ==> AllBlocks(b, at, input, size)
  {
    hide Holds;
    nRead := FullRead(input, pos, b[i]);
    assert forall j: nat :: j < |b| && j != i ==> b[j] != b[i];
  }

  /** Reads into buffer i, which is allocated while the ring is not full. */
  method ReadBlock(b0: seq<array<Byte>>, ghost at0: seq<nat>, input: seq<Byte>, size: nat, enough: bool, i: nat, pos: nat)
    returns (b: seq<array<Byte>>, ghost at: seq<nat>, nRead: nat)
    requires |b0| == |at0| && AllBlocks(b0, at0, input, size) && Apart(b0) && pos <= |input|
    requires if enough then i < |b0| else i == |b0|
    modifies b0
    ensures |b| == |at| && i < |b| && Apart(b) && at == if enough then at0[i := pos] else at0 + [pos]
    ensures if enough then b == b0 else b[..i] == b0 && |b| == i + 1 && fresh(b[i])
    ensures nRead == if |input| - pos < size then |input| - pos else size
    ensures Refilled(b, at, input, size, i, pos, nRead)
    ensures nRead == size ==> AllBlocks(b, at, input, size)
  {
    hide Holds;
    b, at := b0, at0;
    if enough {
      at := at[i := pos];
      assert b[i].Length == size by {
        assert Block(b0, at0, input, i, size);
      }
    } else {
      var buffer := new Byte[size];
      b, at := b + [buffer], at + [pos];
    }
    forall j: nat | j < |b| && j != i
      ensures Block(b, at, input, j, size)
    {
      assert Block(b0, at0, input, j, size);
    }
    nRead := Refill(b, at, input, size, i, pos);
  }

  lemma {:induction false} HoldsLess(buf: array<Byte>, input: seq<Byte>, pos: int, n: int, m: int)
    requires Holds(buf, input, pos, n) && 0 <= m <= n
    ensures Holds(buf, input, pos, m)
  {
  }

  /** A short read ends the loop. */
  lemma {:induction false} ShortRead(b: seq<array<Byte>>, at: seq<nat>, input: seq<Byte>, r: Ring, size: nat, enough: bool,
                                     i: nat, pos: nat, nRead: nat, shown: nat)
    requires size > 0 && r.bufs >= 2 && (r.bufs - 1) * size == r.round && |b| == |at| <= r.bufs && i < r.bufs
    requires Refilled(b, at, input, size, i, pos, nRead) && nRead < size && pos + nRead == |input| && shown + nRead <= |input|
    requires var i' := Succ(i, r.bufs);
             if enough then |b| == r.bufs && pos == shown + r.round && at[i'] == shown && at[Succ(i', r.bufs)] == shown + size
             else |at| == i + 1 < r.bufs && pos == i * size && shown == 0 && at[0] == 0
    ensures var i' := Succ(i, r.bufs);
            Ended(b, input, r, size, enough, i', Succ(i', r.bufs), nRead, if enough then input[..shown + nRead] else [])
  {
    hide Holds;
    var i' := Succ(i, r.bufs);
    var k := Succ(i', r.bufs);
    if enough {
      assert Block(b, at, input, i', size);
      if k != i {
        assert Block(b, at, input, k, size);
        HoldsLess(b[k], input, shown + size, size, nRead);
      } else {
        assert r.bufs == 2;
      }
    } else if i > 0 {
      assert Block(b, at, input, 0, size);
      HoldsLess(b[0], input, 0, size, nRead);
    }
  }

  // The array of buffers grows from at most 16 entries by doubling.
  function GrowArray(n: nat, bufs: nat): (r: nat)
    requires n < bufs
    ensures n < r <= bufs
  {
    if n == 0 then (if bufs < 16 then bufs else 16)
    else if n <= bufs / 2 then n * 2
    else bufs
  }

  /** The second case: once the ring is full, every block read prints the oldest one. */
  method RingBuffer(input: seq<Byte>, nElide: nat, readBufsize: nat, currentPos: int)
    returns (out: seq<Byte>, desiredPos: int, overrun: bool)
    requires readBufsize > 0
    ensures overrun <==> Underflows(|input|, nElide, readBufsize)
    ensures !overrun ==> out == AllButBytes(input, nElide) && desiredPos == currentPos + |out|
  {
    hide Holds, RingOf, Turning, Ended, AllBlocks, Apart, Refilled, Underflows, AllButBytes, GrowArray, Around;
    desiredPos, out := currentPos, [];
    var eof, enough := false, false;
    var r := RingOf(nElide, readBufsize);
    var b: seq<array<Byte>> := [];
    var i, iNext, nArrayAlloc, nRead := 0, 1, 0, 0;
    var pos: nat := 0;
    ghost var at: seq<nat> := [];
    TurnStart(r, readBufsize);
    NoBlocks(b, at, input, readBufsize);
    while !eof
      invariant 0 <= i < r.bufs && iNext == Succ(i, r.bufs) && pos <= |input| && 0 <= nRead
      invariant desiredPos == currentPos + |out| && |b| == |at| && |out| <= |input| && out == input[..|out|]
      invariant forall j :: 0 <= j < |b| ==> fresh(b[j])
      invariant if eof then Ended(b, input, r, readBufsize, enough, i, iNext, nRead, out)
                else Turning(r, readBufsize, enough, i, pos, |out|, at) && AllBlocks(b, at, input, readBufsize) && Apart(b)
      invariant !eof ==> |b| <= nArrayAlloc <= r.bufs && (enough ==> nArrayAlloc == r.bufs)
      decreases !eof, |input| - pos
    {
      TurnOn(r, readBufsize, enough, i, pos, |out|, at);
      TurnNow(r, readBufsize, enough, i, pos, |out|, at);
      if nArrayAlloc == i {
        nArrayAlloc := GrowArray(nArrayAlloc, r.bufs);
      }
      b, at, nRead := ReadBlock(b, at, input, readBufsize, enough, i, pos);
      if nRead < readBufsize {
        eof := true;
      }
      if i + 1 == r.bufs {
        enough := true;
      }
      if eof {
        TurnNow(r, readBufsize, enough, Succ(i, r.bufs), pos + readBufsize, if enough then |out| + readBufsize else 0, at);
        ShortRead(b, at, input, r, readBufsize, enough, i, pos, nRead, |out|);
      }
      if enough {
        OldestBlock(b, at, input, readBufsize, i, iNext, pos, nRead);
        Extend(input, out, nRead);
        desiredPos := desiredPos + nRead;
        out := out + b[iNext][..nRead];
      }
      pos := pos + nRead;
      i, iNext := iNext, Around(iNext, r.bufs);
    }
    out, desiredPos, overrun := PrintRemainder(b, input, nElide, readBufsize, enough, i, iNext, nRead, out, desiredPos);
  }

  /** elide_tail_bytes_pipe: the two cases. */
  method ElideBytesPipe(input: seq<Byte>, nElide: nat, readBufsize: nat, currentPos: int)
    returns (out: seq<Byte>, desiredPos: int, overrun: bool)
    requires readBufsize > 0
    ensures overrun <==> nElide > THRESHOLD && Underflows(|input|, nElide, readBufsize)
    ensures !overrun ==> out == AllButBytes(input, nElide) && desiredPos == currentPos + |out|
    ensures nElide <= |input| ==> !overrun
  {
    if nElide <= THRESHOLD {
      out, desiredPos := DoubleBuffer(input, nElide, readBufsize, currentPos);
      overrun := false;
    } else {
      out, desiredPos, overrun := RingBuffer(input, nElide, readBufsize, currentPos);
    }
  }

  lemma {:induction false} OldestBlock(b: seq<array<Byte>>, at: seq<nat>, input: seq<Byte>, size: nat, i: nat, k: nat,
                                       pos: nat, nRead: nat)
    requires |b| == |at| && Refilled(b, at, input, size, i, pos, nRead) && k < |b| && k != i && nRead <= size
    ensures b[k].Length == size && at[k] + nRead <= |input| && b[k][..nRead] == input[at[k]..at[k] + nRead]
  {
    assert Block(b, at, input, k, size);
    HoldsSlice(b[k], input, at[k], size, 0, nRead);
  }

  lemma {:induction false} TurnStart(r: Ring, size: nat)
    requires r.bufs >= 2
    ensures Turning(r, size, false, 0, 0, 0, [])
  {
  }

  lemma {:induction false} NoBlocks(b: seq<array<Byte>>, at: seq<nat>, input: seq<Byte>, size: nat)
    requires b == [] && at == []
    ensures AllBlocks(b, at, input, size) && Apart(b)
  {
  }

  lemma {:induction false} TurnNow(r: Ring, size: nat, enough: bool, i: nat, pos: nat, shown: nat, at: seq<nat>)
    requires Turning(r, size, enough, i, pos, shown, at)
    ensures if enough then |at| == r.bufs else |at| == i
    ensures enough ==> i < |at| && Succ(i, r.bufs) < |at| && at[i] + size == shown && at[Succ(i, r.bufs)] == shown
    ensures !enough ==> shown == 0 && pos == i * size && (i > 0 ==> at[0] == 0)
  {
  }
}
