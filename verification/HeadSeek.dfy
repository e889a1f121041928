/** elide_tail_lines_seekable of head: the file is searched backwards, block by block. */
module HeadSeek {
  import opened HeadLines

  // The first n bytes of the buffer are those of the file from pos on.
  ghost predicate Loaded(buffer: array<Byte>, file: seq<Byte>, pos: int, n: int)
    reads buffer
  {
    && 0 <= pos && 0 <= n <= buffer.Length && pos + n <= |file|
    && forall k :: 0 <= k < n ==> buffer[k] == file[pos + k]
  }

  method ReadAt(file: seq<Byte>, pos: nat, buffer: array<Byte>, n: nat)
    requires pos + n <= |file| && n <= buffer.Length
    modifies buffer
    ensures Loaded(buffer, file, pos, n)
  {
    forall k | 0 <= k < n {
      buffer[k] := file[pos + k];
    }
  }

  /** memrchr: the last line end among the first n bytes. */
  method MemRChr(buffer: array<Byte>, e: Byte, n: nat) returns (nl: int)
    requires n <= buffer.Length
    ensures -1 <= nl < n && (nl >= 0 ==> buffer[nl] == e)
    ensures forall k :: nl < k < n ==> buffer[k] != e
  {
    nl := n - 1;
    while nl >= 0 && buffer[nl] != e
      invariant -1 <= nl < n && forall k :: nl < k < n ==> buffer[k] != e
    {
      nl := nl - 1;
    }
  }

  lemma {:induction false} NoneCounted(s: seq<Byte>, e: Byte)
    requires forall k :: 0 <= k < |s| ==> s[k] != e
    ensures Newlines(s, e) == 0
  {
    if s != [] {
      NoneCounted(s[1..], e);
    }
  }

  // Stepping back over bytes none of which ends a line.
  lemma {:induction false} StepOver(file: seq<Byte>, e: Byte, lo: nat, hi: nat)
    requires lo <= hi <= |file| && forall k :: lo <= k < hi ==> file[k] != e
    ensures Newlines(file[lo..], e) == Newlines(file[hi..], e)
  {
    assert file[lo..] == file[lo..hi] + file[hi..];
    NoneCounted(file[lo..hi], e);
    NewlinesConcat(file[lo..hi], file[hi..], e);
  }

  lemma {:induction false} StepBack(buffer: array<Byte>, file: seq<Byte>, e: Byte, pos: nat, n: nat, lo: nat, hi: nat)
    requires Loaded(buffer, file, pos, n) && lo <= hi <= n && forall k :: lo <= k < hi ==> buffer[k] != e
    ensures pos + n <= |file| && Newlines(file[pos + lo..], e) == Newlines(file[pos + hi..], e)
  {
    forall j | pos + lo <= j < pos + hi
      ensures file[j] != e
    {
      assert buffer[j - pos] == file[pos + (j - pos)];
    }
    StepOver(file, e, pos + lo, pos + hi);
  }

  lemma {:induction false} StepOn(file: seq<Byte>, e: Byte, q: nat)
    requires q < |file|
    ensures Newlines(file[q..], e) == Newlines(file[q + 1..], e) + if file[q] == e then 1 else 0
  {
    assert file[q..][1..] == file[q + 1..];
  }

  // Found: behind the line end at q there are n line ends, and perhaps an unterminated line.
  lemma {:induction false} FoundAt(file: seq<Byte>, e: Byte, start: nat, q: nat, nElide: nat)
    requires start <= q < |file| && file[q] == e && nElide > 0
    requires Newlines(file[q + 1..], e) == nElide - if file[|file| - 1] != e then 1 else 0
    ensures AllButLines(file[start..], e, nElide) == file[start..q + 1]
  {
    var a, b := file[start..q + 1], file[q + 1..];
    assert file[start..] == a + b && a[|a| - 1] == e;
    assert b != [] ==> b[|b| - 1] == file[|file| - 1];
    AllButExactly(a, b, e, nElide);
  }

  // Not found: there are no more than nElide lines.
  lemma {:induction false} NotFound(file: seq<Byte>, e: Byte, start: nat, nElide: nat)
    requires start < |file| && nElide > 0
    requires Newlines(file[start..], e) <= nElide - if file[|file| - 1] != e then 1 else 0
    ensures AllButLines(file[start..], e, nElide) == []
  {
    var s := file[start..];
    assert s[|s| - 1] == file[|file| - 1];
  }

  /** Scans backwards over one block.  Before it, nLines0 of the line ends to be passed are left. */
  method ScanBlock(file: seq<Byte>, buffer: array<Byte>, e: Byte, pos: nat, bytesRead: nat, allLines: bool,
                   nLines0: nat, ghost t: nat)
    returns (found: bool, n: nat, nLines: nat)
    requires bytesRead > 0 && Loaded(buffer, file, pos, bytesRead) && nLines0 <= t
    requires Newlines(file[pos + bytesRead..], e) == t - nLines0 && (allLines ==> nLines0 == 0)
    ensures n <= bytesRead && nLines <= t && (found ==> n < bytesRead)
    ensures found && !allLines ==> file[pos + n] == e && Newlines(file[pos + n + 1..], e) == t
    ensures found && allLines ==> n == bytesRead - 1
    ensures !found ==> !allLines && Newlines(file[pos..], e) == t - nLines
  {
    hide Newlines;
    found, n, nLines := false, bytesRead, nLines0;
    while n > 0
      invariant 0 <= n <= bytesRead && 0 <= nLines <= t && !found
      invariant Newlines(file[pos + n..], e) == t - nLines
      invariant allLines ==> n == bytesRead && nLines == 0
    {
      if allLines {
        n := n - 1;
      } else {
        var nl := MemRChr(buffer, e, n);
        if nl < 0 {
          StepBack(buffer, file, e, pos, bytesRead, 0, n);
          return;
        }
        StepBack(buffer, file, e, pos, bytesRead, nl + 1, n);
        n := nl;
        StepOn(file, e, pos + n);
      }
      if nLines == 0 {
        found := true;
        return;
      }
      nLines := nLines - 1;
    }
  }

  // Prints up to and including the byte at n of the block.
  method Found(file: seq<Byte>, buffer: array<Byte>, e: Byte, nElide: nat, startPos: nat, pos: nat, bytesRead: nat, n: nat)
    returns (out: seq<Byte>)
    requires startPos <= pos && n < bytesRead && pos + bytesRead <= |file| && Loaded(buffer, file, pos, bytesRead)
    requires nElide > 0 ==> file[pos + n] == e
    requires nElide > 0 ==> Newlines(file[pos + n + 1..], e) == nElide - if file[|file| - 1] != e then 1 else 0
    requires nElide == 0 ==> pos + n + 1 == |file|
    ensures out == AllButLines(file[startPos..], e, nElide) && |out| == pos + n + 1 - startPos
  {
    hide Newlines, AllButLines, Loaded;
    out := if startPos < pos then file[startPos..pos] else [];
    LoadedPart(buffer, file, pos, bytesRead, n + 1);
    assert file[startPos..pos + n + 1] == file[startPos..pos] + file[pos..pos + n + 1];
    out := out + buffer[..n + 1];
    if nElide == 0 {
      AllButNone(file[startPos..], e);
      assert file[startPos..pos + n + 1] == file[startPos..];
    } else {
      FoundAt(file, e, startPos, pos + n, nElide);
    }
  }

  /** elide_tail_lines_seekable: prints all but the last lines of the file from startPos on, and
      leaves the file positioned behind what is printed; if that is nothing, behind the block that
      was read last, the first one. */
  method ElideLinesSeekable(file: seq<Byte>, e: Byte, nElide: nat, startPos: nat, bufsiz: nat)
    returns (out: seq<Byte>, offset: nat)
    requires startPos < |file| && bufsiz > 0
    ensures out == AllButLines(file[startPos..], e, nElide)
    ensures out != [] ==> offset == startPos + |out|
    ensures out == [] ==> offset == startPos + if |file| - startPos < bufsiz then |file| - startPos else bufsiz
  {
    hide Newlines, Lines, FirstLines, AllButLines, Loaded, Times, LastBlock;
    var buffer := new Byte[bufsiz];
    ghost var last := LastBlock(|file| - startPos, bufsiz);
    var bytesRead := LastBlock(|file| - startPos, bufsiz).0;
    ghost var blocks := last.1;
    var pos: nat := |file| - bytesRead;
    ReadAt(file, pos, buffer, bytesRead);
    var nLines := nElide;
    var allLines := nLines == 0;
    assert file[pos + bytesRead..] == [];
    EndCounts(e);
    LastByte(buffer, file, pos, bytesRead);
    if nLines > 0 && buffer[bytesRead - 1] != e {
      nLines := nLines - 1;
    }
    ghost var t := nLines;
    while true
      invariant 0 < bytesRead <= bufsiz && pos + bytesRead <= |file| && Loaded(buffer, file, pos, bytesRead)
      invariant pos + bytesRead == |file| || bytesRead == bufsiz
      invariant 0 <= blocks && pos == startPos + Times(blocks, bufsiz)
      invariant 0 <= nLines <= t && Newlines(file[pos + bytesRead..], e) == t - nLines
      invariant allLines ==> nLines == 0 && pos + bytesRead == |file|
      decreases blocks
    {
      var found, n;
      found, n, nLines := ScanBlock(file, buffer, e, pos, bytesRead, allLines, nLines, t);
      if found {
        out := Found(file, buffer, e, nElide, startPos, pos, bytesRead, n);
        return out, pos + n + 1;
      }
      if pos == startPos {
        NotFound(file, e, startPos, nElide);
        return [], pos + bytesRead;
      }
      BlockBefore(blocks, bufsiz);
      pos, blocks := pos - bufsiz, blocks - 1;
      bytesRead := bufsiz;
      ReadAt(file, pos, buffer, bytesRead);
    }
  }

  function Times(k: nat, b: nat): nat { k * b }

  // The last block, and the number of whole blocks before it.
  function LastBlock(size: nat, b: nat): (r: (nat, nat))
    requires size > 0 && b > 0
    ensures 0 < r.0 <= b && size == Times(r.1, b) + r.0
  {
    assert size == size / b * b + size % b;
    if size % b == 0 then
      assert size / b > 0 && (size / b - 1) * b == size - b;
      (b, size / b - 1)
    else (size % b, size / b)
  }

  lemma BlockBefore(blocks: nat, bufsiz: nat)
    requires Times(blocks, bufsiz) != 0
    ensures blocks > 0 && Times(blocks - 1, bufsiz) == Times(blocks, bufsiz) - bufsiz
  {
  }

  lemma EndCounts(e: Byte)
    ensures Newlines([], e) == 0
  {
  }

  lemma LastByte(buffer: array<Byte>, file: seq<Byte>, pos: nat, n: nat)
    requires Loaded(buffer, file, pos, n) && n > 0
    ensures n <= buffer.Length && pos + n <= |file| && buffer[n - 1] == file[pos + n - 1]
  {
  }

  lemma LoadedPart(buffer: array<Byte>, file: seq<Byte>, pos: nat, n: nat, m: nat)
    requires Loaded(buffer, file, pos, n) && m <= n
    ensures n <= buffer.Length && pos + m <= |file| && buffer[..m] == file[pos..pos + m]
  {
  }
}
