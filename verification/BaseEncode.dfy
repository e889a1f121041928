/** wrap_write and do_encode of basenc: encoding in blocks, and breaking lines. */
module BaseEncode {
  import opened BaseCodec

  /** The text in lines of w characters, the last one shorter, each with its newline; w = 0 asks
      for no newlines at all. */
  function Wrap(text: string, w: nat): string
    decreases |text|
  {
    if w == 0 || text == [] then text
    else if |text| <= w then text + "\n"
    else text[..w] + "\n" + Wrap(text[w..], w)
  }

  predicate WholeLines(text: string, w: nat)
    requires w > 0
  {
    text == [] || (|text| >= w && WholeLines(text[w..], w))
  }

  // Behind whole lines, the rest is wrapped on its own.
  lemma {:induction false} WrapConcat(full: string, rest: string, w: nat)
    requires w > 0 && WholeLines(full, w)
    ensures Wrap(full + rest, w) == Wrap(full, w) + Wrap(rest, w)
    ensures |rest| == w ==> WholeLines(full + rest, w)
    decreases |full|
  {
    if full == [] {
      assert full + rest == rest;
    } else if |full| == w {
      assert full[w..] == [] && full[..w] == full;
      assert (full + rest)[w..] == rest && (full + rest)[..w] == full;
      assert rest == [] ==> full + rest == full;
    } else {
      WrapConcat(full[w..], rest, w);
      assert (full + rest)[w..] == full[w..] + rest && (full + rest)[..w] == full[..w];
    }
  }

  lemma {:induction false} StripConcat(a: string, b: string)
    ensures Strip(a + b) == Strip(a) + Strip(b)
  {
    if b == [] {
      assert a + b == a;
    } else {
      StripConcat(a, b[..|b| - 1]);
      assert (a + b)[..|a + b| - 1] == a + b[..|b| - 1];
    }
  }

  lemma {:induction false} StripNone(s: string)
    requires '\n' !in s
    ensures Strip(s) == s
  {
    if s != [] {
      StripNone(s[..|s| - 1]);
    }
  }

  lemma StripNewline()
    ensures Strip("\n") == []
  {
    assert "\n"[..0] == [];
  }

  /** Nothing is lost by wrapping. */
  lemma {:induction false} StripWrap(text: string, w: nat)
    requires '\n' !in text
    ensures Strip(Wrap(text, w)) == text
    decreases |text|
  {
    hide Strip;
    StripNewline();
    if w == 0 || text == [] {
      StripNone(text);
    } else if |text| <= w {
      StripNone(text);
      StripConcat(text, "\n");
    } else {
      StripNone(text[..w]);
      StripConcat(text[..w], "\n");
      StripConcat(text[..w] + "\n", Wrap(text[w..], w));
      StripWrap(text[w..], w);
    }
  }

  /** Where each character of the text comes to stand, and where the newlines do: character c of
      line k in column c of that line, and a newline behind every w characters and the last one. */
  lemma {:induction false} WrapAt(text: string, w: nat, k: nat, c: nat)
    requires w > 0 && c <= w && k * w + c <= |text| && (c > 0 || k * w < |text|)
    ensures k * (w + 1) + c < |Wrap(text, w)|
    ensures Wrap(text, w)[k * (w + 1) + c] == if c < w && k * w + c < |text| then text[k * w + c] else '\n'
    decreases k
  {
    TimesNext(k, w);
    TimesNext(k, w + 1);
    if k > 0 {
      WrapAt(text[w..], w, k - 1, c);
      var head, tail := text[..w] + "\n", Wrap(text[w..], w);
      assert Wrap(text, w) == head + tail && |head| == w + 1;
      var i, p := (k - 1) * (w + 1) + c, (k - 1) * w + c;
      assert (head + tail)[w + 1 + i] == tail[i];
      assert p < |text[w..]| ==> text[w..][p] == text[w + p];
    }
  }

  lemma TimesNext(n: nat, w: nat)
    ensures n == 0 ==> n * w == 0
    ensures n > 0 ==> n * w == (n - 1) * w + w && (n - 1) * w >= 0 && (n == 1 ==> (n - 1) * w == 0)
    ensures n > 1 ==> (n - 1) * w >= w
  {
    if n > 1 {
      assert (n - 1) * w == (n - 2) * w + w;
    }
  }

  /** There are as many newlines as lines. */
  lemma {:induction false} WrapSize(text: string, w: nat, n: nat)
    requires w > 0 && |text| <= n * w < |text| + w
    ensures |Wrap(text, w)| == |text| + n
    decreases n
  {
    TimesNext(n, w);
    if n > 1 {
      TimesNext(n - 1, w);
      WrapSize(text[w..], w, n - 1);
    }
  }

  /** Where a wrapped output stands: text is put out, col characters of it in a line that has not
      been ended yet. */
  ghost predicate Wrapping(out: string, text: string, w: nat, col: nat) {
    if w == 0 then out == text && col == 0
    else
      && col <= |text| && col <= w && WholeLines(text[..|text| - col], w)
      && out == Wrap(text[..|text| - col], w) + text[|text| - col..]
  }

  lemma {:induction false} BreakLine(out: string, text: string, w: nat)
    requires w > 0 && Wrapping(out, text, w, w)
    ensures Wrapping(out + "\n", text, w, 0)
  {
    var full, line := text[..|text| - w], text[|text| - w..];
    WrapConcat(full, line, w);
    assert full + line == text && text[..|text|] == text && text[|text|..] == [];
    assert Wrap(line, w) == line + "\n";
    assert Wrap(full, w) + (line + "\n") == Wrap(full, w) + line + "\n";
  }

  lemma {:induction false} FillLine(out: string, text: string, w: nat, col: nat, piece: string)
    requires w > 0 && Wrapping(out, text, w, col) && col + |piece| <= w
    ensures Wrapping(out + piece, text + piece, w, col + |piece|)
  {
    assert (text + piece)[..|text| - col] == text[..|text| - col];
    assert (text + piece)[|text| - col..] == text[|text| - col..] + piece;
  }

  lemma {:induction false} EndLine(out: string, text: string, w: nat, col: nat)
    requires Wrapping(out, text, w, col)
    ensures Wrap(text, w) == out + if w > 0 && col > 0 then "\n" else ""
  {
    if w > 0 {
      var full, line := text[..|text| - col], text[|text| - col..];
      WrapConcat(full, line, w);
      assert full + line == text;
      if col > 0 {
        assert Wrap(full, w) + (line + "\n") == Wrap(full, w) + line + "\n";
      }
    }
  }

  /** wrap_write: a newline goes in front of what no longer fits on the line. */
  method WrapWrite(out0: string, buffer: string, w: nat, col0: nat, ghost text: string) returns (out: string, col: nat)
    requires Wrapping(out0, text, w, col0)
    ensures Wrapping(out, text + buffer, w, col)
  {
    hide Wrapping;
    out, col := out0, col0;
    if w == 0 {
      out := out + buffer;
      PlainWrite(out0, text, col0, buffer);
    } else {
      var written := 0;
      assert text + buffer[..0] == text;
      ColumnFits(out, text, w, col);
      while written < |buffer|
        invariant 0 <= written <= |buffer| && col <= w && Wrapping(out, text + buffer[..written], w, col)
        decreases |buffer| - written, col
      {
        var colsRemaining := w - col;
        var toWrite := if colsRemaining < |buffer| - written then colsRemaining else |buffer| - written;
        if toWrite == 0 {
          BreakLine(out, text + buffer[..written], w);
          out := out + "\n";
          col := 0;
        } else {
          FillLine(out, text + buffer[..written], w, col, buffer[written..written + toWrite]);
          assert text + buffer[..written] + buffer[written..written + toWrite] == text + buffer[..written + toWrite];
          out := out + buffer[written..written + toWrite];
          col := col + toWrite;
          written := written + toWrite;
        }
      }
      assert buffer[..written] == buffer;
    }
  }

  lemma PlainWrite(out: string, text: string, col: nat, buffer: string)
    requires Wrapping(out, text, 0, col)
    ensures Wrapping(out + buffer, text + buffer, 0, col)
  {
  }

  lemma ColumnFits(out: string, text: string, w: nat, col: nat)
    requires w > 0 && Wrapping(out, text, w, col)
    ensures col <= w
  {
  }

  lemma WrapStart(w: nat)
    ensures Wrapping("", "", w, 0)
  {
  }

  lemma EncodeNothing(c: Code)
    requires c.bytes > 0
    ensures Encode(c, []) == [] && WholeGroups(c, [])
  {
  }
}
