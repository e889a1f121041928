/** basenc as a whole: the decoders with their contexts, and the block loops of do_encode and
    do_decode. */
module Basenc {
  import opened BaseCodec
  import opened BaseEncode
  import opened Division
  import Z85
  import Base16
  import Base2

  datatype Base = Base85 | Hex | Bits | BitsReversed

  function CodeOf(b: Base): Code {
    match b
    case Base85 => Z85.Code()
    case Hex => Base16.Code()
    case Bits => Base2.CodeHigh()
    case BitsReversed => Base2.CodeLow()
  }

  lemma AllLawful(b: Base)
    ensures Lawful(CodeOf(b))
  {
    Z85.IsLawful();
    Base16.IsLawful();
    Base2.AreLawful();
  }

  // The four codes, each on one group.
  lemma Samples()
    ensures Encode(CodeOf(Bits), [1]) == "00000001" && Encode(CodeOf(BitsReversed), [1]) == "10000000"
    ensures Encode(CodeOf(Hex), [0x4E]) == "4E"
    ensures Encode(CodeOf(Base85), [0x86, 0x4F, 0xD2, 0x6F]) == "Hello"
  {
    OneGroup(CodeOf(Bits), [1]);
    OneGroup(CodeOf(BitsReversed), [1]);
    OneGroup(CodeOf(Hex), [0x4E]);
    OneGroup(CodeOf(Base85), [0x86, 0x4F, 0xD2, 0x6F]);
    hide Encode;
    BitSamples();
    HelloSample();
    hide Base2.SpellLow, Base2.SpellHigh, Z85.Spell;
  }

  lemma BitSamples()
    ensures Base2.SpellHigh([1]) == "00000001" && Base2.SpellLow([1]) == "10000000"
  {
    Base2.SpellMeans(1);
    hide Base2.SpellLow, Base2.SpellHigh;
    var s, t := Base2.SpellHigh([1]), Base2.SpellLow([1]);
    assert s[0] in "01" && s[1] in "01" && s[2] in "01" && s[3] in "01" && s[4] in "01" && s[5] in "01" && s[6] in "01";
    assert t[7] in "01" && t[1] in "01" && t[2] in "01" && t[3] in "01" && t[4] in "01" && t[5] in "01" && t[6] in "01";
  }

  lemma HelloSample()
    ensures Z85.Spell([0x86, 0x4F, 0xD2, 0x6F]) == "Hello"
  {
    var g: seq<Byte> := [0x86, 0x4F, 0xD2, 0x6F];
    assert Z85.Number(g) == 0x864F_D26F;
    assert Z85.Digits(0x864F_D26F) == [43, 14, 21, 21, 24];
    hide Z85.Number, Z85.Digits;
  }

  lemma OneGroup(c: Code, g: seq<Byte>)
    requires c.bytes > 0 && |g| == c.bytes
    ensures Encode(c, g) == c.spell(g)
  {
    assert g[..c.bytes] == g && g[c.bytes..] == [];
    assert c.spell(g) + [] == c.spell(g);
  }

  // ---------- encoding ----------

  lemma {:induction false} SingleBytes(c: Code, input: seq<Byte>)
    requires c.bytes == 1
    ensures WholeGroups(c, input)
    decreases |input|
  {
    if input != [] {
      SingleBytes(c, input[1..]);
    }
  }

  lemma {:induction false} WholeQuads(c: Code, input: seq<Byte>)
    requires c.bytes == 4 && |input| % 4 == 0
    ensures WholeGroups(c, input)
    decreases |input|
  {
    if input != [] {
      WholeQuads(c, input[4..]);
    }
  }

  method EncodeBlock(b: Base, input: seq<Byte>) returns (ok: bool, out: string)
    ensures CodeOf(b).bytes > 0
    ensures ok <==> WholeGroups(CodeOf(b), input)
    ensures ok ==> out == Encode(CodeOf(b), input)
  {
    match b {
      case Base85 => ok, out := Z85.EncodeGroups(input);
      case Hex => ok := true; out := Base16.EncodeBytes(input); SingleBytes(Base16.Code(), input);
      case Bits => ok := true; out := Base2.EncodeHigh(input); SingleBytes(Base2.CodeHigh(), input);
      case BitsReversed => ok := true; out := Base2.EncodeLow(input); SingleBytes(Base2.CodeLow(), input);
    }
  }

  /** do_encode: the input is read in blocks, which are encoded and wrapped one by one; an
      incomplete group at the end is an error. */
  method DoEncode(b: Base, input: seq<Byte>, blocksize: nat, w: nat) returns (ok: bool, out: string)
    requires blocksize > 0 && blocksize % 4 == 0
    ensures CodeOf(b).bytes > 0
    ensures ok <==> WholeGroups(CodeOf(b), input)
    ensures ok ==> out == Wrap(Encode(CodeOf(b), input), w)
  {
    hide Wrapping, WholeGroups, Encode;
    ghost var c := CodeOf(b);
    var currentColumn := 0;
    out := "";
    var pos := 0;
    WrapStart(w);
    EncodeNothing(c);
    assert input[..0] == [];
    while true
      invariant 0 <= pos <= |input| && WholeGroups(c, input[..pos])
      invariant Wrapping(out, Encode(c, input[..pos]), w, currentColumn)
      decreases |input| - pos
    {
      var sum := if |input| - pos < blocksize then |input| - pos else blocksize;
      var inbuf := input[pos..pos + sum];
      assert input[..pos] + inbuf == input[..pos + sum];
      EncodeConcat(c, input[..pos], inbuf);
      if sum > 0 {
        var whole, outbuf := EncodeBlock(b, inbuf);
        if sum == blocksize {
          WholeBlock(b, inbuf);
        }
        if !whole {
          assert input[..pos + sum] == input;
          return false, out;
        }
        out, currentColumn := WrapWrite(out, outbuf, w, currentColumn, Encode(c, input[..pos]));
        pos := pos + sum;
      }
      if sum < blocksize {
        break;
      }
    }
    assert input[..pos] == input;
    EndLine(out, Encode(c, input), w, currentColumn);
    if w > 0 && currentColumn > 0 {
      out := out + "\n";
    }
    return true, out;
  }

  lemma WholeBlock(b: Base, input: seq<Byte>)
    requires |input| % 4 == 0
    ensures CodeOf(b).bytes > 0 && WholeGroups(CodeOf(b), input)
  {
    if b.Base85? {
      WholeQuads(CodeOf(b), input);
    } else {
      SingleBytes(CodeOf(b), input);
    }
  }

  // ---------- decoding ----------

  lemma {:induction false} FeedSnoc(c: Code, s: State, text: string, k: nat)
    requires k < |text|
    ensures FeedAll(c, s, text[..k + 1]) == Feed(c, FeedAll(c, s, text[..k]), text[k])
  {
    assert text[..k + 1][..k] == text[..k];
  }

  lemma {:induction false} FailedStays(c: Code, s: State, text: string)
    requires s.Failed?
    ensures FeedAll(c, s, text) == s
  {
    if text != [] {
      FailedStays(c, s, text[..|text| - 1]);
    }
  }

  // Once it has failed, it has failed with what was put out before.
  lemma {:induction false} FailedEarly(c: Code, s: State, text: string, k: nat)
    requires k <= |text| && FeedAll(c, s, text[..k]).Failed?
    ensures FeedAll(c, s, text) == FeedAll(c, s, text[..k])
  {
    FeedConcat(c, s, text[..k], text[k..]);
    assert text == text[..k] + text[k..];
    FailedStays(c, FeedAll(c, s, text[..k]), text[k..]);
  }

  // One character, for each of the codes.
  lemma FeedHigh(s: State, ch: char)
    requires s.Open? && |s.pending| < 8
    ensures Feed(CodeOf(Bits), s, ch) ==
            if ch == '\n' then s
            else if ch != '0' && ch != '1' then Failed(s.out)
            else
              var p := s.pending + [Base2.Digit(ch)];
              if |p| < 8 then Open(s.out, p)
              else if Base2.High(p) < 256 then Open(s.out + [Base2.High(p)], []) else Failed(s.out)
  {
  }

  lemma FeedLow(s: State, ch: char)
    requires s.Open? && |s.pending| < 8
    ensures Feed(CodeOf(BitsReversed), s, ch) ==
            if ch == '\n' then s
            else if ch != '0' && ch != '1' then Failed(s.out)
            else
              var p := s.pending + [Base2.Digit(ch)];
              if |p| < 8 then Open(s.out, p)
              else if Base2.Low(p) < 256 then Open(s.out + [Base2.Low(p)], []) else Failed(s.out)
  {
  }

  lemma FeedQuintet(s: State, ch: char)
    requires s.Open? && |s.pending| < 5
    ensures Feed(CodeOf(Base85), s, ch) ==
            if ch == '\n' then s
            else if Z85.Digit(ch) < 0 then Failed(s.out)
            else
              var p := s.pending + [Z85.Digit(ch)];
              if |p| < 5 then Open(s.out, p)
              else if Z85.Value(p) < Z85.LIMIT then Open(s.out + Z85.Bytes(Z85.Value(p)), []) else Failed(s.out)
  {
  }

  class Context {
    const base: Base
    // Zero means that there is nothing to be flushed.
    var i: int
    var haveNibble: bool
    var nibble: nat
    var octet: nat
    var count: nat
    const octets: array<nat>

    /** base_decode_ctx_init */
    constructor (base: Base)
      ensures this.base == base && Holds(START) && fresh(octets)
    {
      this.base := base;
      i := if base.Base85? || base.Hex? then 1 else 0;
      haveNibble, nibble, octet, count := false, 0, 0, 0;
      octets := new nat[5];
    }

    /** The context holds the digits of the group the decoder is in. */
    ghost predicate InGroup(s: State)
      reads this, octets
    {
      && s.Open? && octets.Length == 5
      && match base
         case Base85 => count < 5 && s.pending == octets[..count] && (forall k :: 0 <= k < count ==> octets[k] < 85)
         case Hex => s.pending == (if haveNibble then [nibble] else []) && nibble < 16 && i == 1
         case Bits => |s.pending| < 8 && i == (if s.pending == [] then 0 else 8 - |s.pending|)
                      && octet == Base2.High(s.pending) && Base2.Bits(s.pending)
         case BitsReversed => |s.pending| < 8 && i == |s.pending| && octet == Base2.Low(s.pending) && Base2.Bits(s.pending)
    }

    ghost predicate Holds(s: State)
      reads this, octets
    {
      InGroup(s) && (i == 0 ==> s.pending == [])
    }

    // z85_decode_ctx, for one character
    method Take85(ch: char, ghost s: State) returns (ok: bool, out: seq<Byte>)
      requires InGroup(s) && base.Base85?
      modifies this`count, octets
      ensures var r := Feed(CodeOf(base), s, ch);
              (ok <==> r.Open?) && r.out == s.out + out && (ok ==> InGroup(r))
    {
      FeedQuintet(s, ch);
      hide Feed, CodeOf, Z85.Digit, Z85.Letter, Z85.Bytes, Z85.Value;
      if ch == '\n' {
        return true, [];
      }
      var c := Z85.Digit(ch);
      if c < 0 {
        return false, [];
      }
      Z85.DigitLetter(ch);
      ghost var before := octets[..count];
      octets[count] := c;
      count := count + 1;
      assert octets[..count] == before + [c];
      if count < 5 {
        return true, [];
      }
      ghost var d := s.pending + [c];
      assert octets[..] == d;
      Z85.OverflowTest(d);
      var val := octets[1] * 85 * 85 * 85 + octets[2] * 85 * 85 + octets[3] * 85 + octets[4];
      if octets[0] == 84 || octets[0] == 83 || (octets[0] == 82 && val > 0xFFFF_FFFF - 82 * 85 * 85 * 85 * 85) {
        return false, [];
      }
      val := val + octets[0] * 85 * 85 * 85 * 85;
      count := 0;
      return true, Z85.Bytes(val);
    }

    // base16_decode_ctx, for one character
    method Take16(ch: char, ghost s: State) returns (ok: bool, out: seq<Byte>)
      requires InGroup(s) && base.Hex?
      modifies this`haveNibble, this`nibble
      ensures var r := Feed(CodeOf(base), s, ch);
              (ok <==> r.Open?) && r.out == s.out + out && (ok ==> InGroup(r))
    {
      if ch == '\n' {
        return true, [];
      }
      var nib := Base16.Digit(ch);
      if nib < 0 {
        return false, [];
      }
      ok, out := true, [];
      if haveNibble {
        assert s.pending + [nib] == [nibble, nib];
        out := [nibble * 16 + nib];
      } else {
        nibble := nib;
      }
      haveNibble := !haveNibble;
    }

    // base2msbf_decode_ctx, for one character; the bit that is set was not set before
    method TakeHigh(ch: char, ghost s: State) returns (ok: bool, out: seq<Byte>)
      requires InGroup(s) && base.Bits?
      modifies this`i, this`octet
      ensures var r := Feed(CodeOf(base), s, ch);
              (ok <==> r.Open?) && r.out == s.out + out && (ok ==> InGroup(r))
    {
      FeedHigh(s, ch);
      hide Feed, CodeOf;
      if ch == '\n' {
        return true, [];
      }
      if ch != '0' && ch != '1' {
        return false, [];
      }
      Base2.HighNext(s.pending, Base2.Digit(ch));
      NothingYet();
      hide Pow2, Base2.High, Base2.Bits;
      if i == 0 {
        i := 8;
      }
      i := i - 1;
      octet := octet + Base2.Digit(ch) * Pow2(i);
      out := [];
      if i == 0 {
        out := [octet];
        octet := 0;
      }
      ok := true;
    }

    // base2lsbf_decode_ctx, for one character
    method TakeLow(ch: char, ghost s: State) returns (ok: bool, out: seq<Byte>)
      requires InGroup(s) && base.BitsReversed?
      modifies this`i, this`octet
      ensures var r := Feed(CodeOf(base), s, ch);
              (ok <==> r.Open?) && r.out == s.out + out && (ok ==> InGroup(r))
    {
      FeedLow(s, ch);
      hide Feed, CodeOf;
      if ch == '\n' {
        return true, [];
      }
      if ch != '0' && ch != '1' {
        return false, [];
      }
      Base2.LowNext(s.pending, Base2.Digit(ch));
      NothingYet();
      hide Pow2, Base2.Low, Base2.Bits;
      octet := octet + Base2.Digit(ch) * Pow2(i);
      i := i + 1;
      out := [];
      if i == 8 {
        out := [octet];
        octet := 0;
        i := 0;
      }
      ok := true;
    }

    method Take(ch: char, ghost s: State) returns (ok: bool, out: seq<Byte>)
      requires InGroup(s)
      modifies this, octets
      ensures var r := Feed(CodeOf(base), s, ch);
              (ok <==> r.Open?) && r.out == s.out + out && (ok ==> InGroup(r))
    {
      hide Feed, InGroup;
      match base {
        case Base85 => ok, out := Take85(ch, s);
        case Hex => ok, out := Take16(ch, s);
        case Bits => ok, out := TakeHigh(ch, s);
        case BitsReversed => ok, out := TakeLow(ch, s);
      }
    }

    method Flush(ghost s: State) returns (ok: bool)
      requires Holds(s)
      ensures ok <==> s.pending == []
    {
      match base {
        case Base85 => ok := count == 0;
        case Hex => ok := !haveNibble;
        case _ => ok := i == 0;
      }
    }

    /** base_decode_ctx: a chunk of text; an empty one asks whether anything is missing. */
    method Decode(chunk: string, ghost s: State) returns (ok: bool, out: seq<Byte>)
      requires Holds(s)
      modifies this, octets
      ensures chunk == [] ==> out == [] && (ok <==> s.pending == []) && Holds(s)
      ensures chunk != [] ==>
                var r := FeedAll(CodeOf(base), s, chunk);
                (ok <==> r.Open?) && r.out == s.out + out && (ok ==> Holds(r))
    {
      hide Feed, FeedAll, InGroup, CodeOf;
      if chunk == [] {
        ok := Flush(s);
        return ok, [];
      }
      ghost var c := CodeOf(base);
      var k := 0;
      out := [];
      FeedNothing(c, s);
      assert chunk[..0] == [];
      while k < |chunk|
        invariant 0 <= k <= |chunk| && InGroup(FeedAll(c, s, chunk[..k]))
        invariant FeedAll(c, s, chunk[..k]).out == s.out + out
      {
        FeedSnoc(c, s, chunk, k);
        var good, bytes := Take(chunk[k], FeedAll(c, s, chunk[..k]));
        assert s.out + out + bytes == s.out + (out + bytes);
        out := out + bytes;
        k := k + 1;
        if !good {
          FailedNow(FeedAll(c, s, chunk[..k]));
          FailedEarly(c, s, chunk, k);
          return false, out;
        }
      }
      assert chunk[..k] == chunk;
      Settle(FeedAll(c, s, chunk));
      return true, out;
    }

    // ctx->i = ctx->ctx.z85.i
    method Settle(ghost s: State)
      requires InGroup(s)
      modifies this`i
      ensures Holds(s) && s.Open?
    {
      if base.Base85? {
        i := count;
      }
    }
  }

  /** do_decode: the text is read in blocks; it is accepted, and decoded, as if it were read at
      once. */
  method DoDecode(b: Base, text: string, blocksize: nat) returns (ok: bool, out: seq<Byte>)
    requires blocksize > 0
    ensures ok <==> Accepts(CodeOf(b), text)
    ensures out == Decoded(CodeOf(b), text)
  {
    hide Feed, FeedAll, CodeOf;
    var ctx := new Context(b);
    ghost var c := CodeOf(b);
    var pos := 0;
    var eof := false;
    out := [];
    FeedNothing(c, START);
    assert text[..0] == [];
    while !eof
      invariant 0 <= pos <= |text| && ctx.base == b && fresh(ctx) && fresh(ctx.octets)
      invariant ctx.Holds(FeedAll(c, START, text[..pos])) && out == FeedAll(c, START, text[..pos]).out
      invariant eof ==> pos == |text| && FeedAll(c, START, text[..pos]).pending == []
      decreases !eof, |text| - pos
    {
      var sum := if |text| - pos < blocksize then |text| - pos else blocksize;
      var inbuf := text[pos..pos + sum];
      assert text[..pos] + inbuf == text[..pos + sum];
      FeedConcat(c, START, text[..pos], inbuf);
      FeedNothing(c, FeedAll(c, START, text[..pos]));
      var good, bytes := ctx.Decode(inbuf, FeedAll(c, START, text[..pos]));
      out := out + bytes;
      pos := pos + sum;
      eof := sum < blocksize;
      if !good {
        ghost var r := FeedAll(c, START, text[..pos]);
        if inbuf != [] {
          FailedNow(r);
          FailedEarly(c, START, text, pos);
        } else {
          assert text[..pos] == text;
        }
        return false, out;
      }
      if eof {
        assert text[..pos] == text;
        if ctx.i != 0 {
          good, bytes := ctx.Decode([], FeedAll(c, START, text[..pos]));
          out := out + bytes;
          if !good {
            return false, out;
          }
        }
      }
    }
    assert text[..pos] == text;
    return true, out;
  }

  // No bits at all.
  lemma NothingYet()
    ensures Base2.High([]) == 0 && Base2.Low([]) == 0 && Base2.Bits([])
  {
  }

  lemma FailedNow(s: State)
    requires !s.Open?
    ensures s.Failed?
  {
  }

  /** Whatever has been encoded, in lines of any length, is decoded to what it was. */
  lemma DecodesWhatWasEncoded(b: Base, input: seq<Byte>, w: nat)
    requires CodeOf(b).bytes > 0 && WholeGroups(CodeOf(b), input)
    ensures Accepts(CodeOf(b), Wrap(Encode(CodeOf(b), input), w))
    ensures Decoded(CodeOf(b), Wrap(Encode(CodeOf(b), input), w)) == input
  {
    hide CodeOf, Encode, Wrap, WholeGroups, Accepts, Decoded, Lawful;
    AllLawful(b);
    EncodeHasNoNewline(CodeOf(b), input);
    StripWrap(Encode(CodeOf(b), input), w);
    RoundTrip(CodeOf(b), input, Wrap(Encode(CodeOf(b), input), w));
  }
}
