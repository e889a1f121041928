/** Base2 in basenc, with the bits of a byte in either order. */
module Base2 {
  import opened BaseCodec
  import opened Division
  import opened Wrappers

  function Digit(ch: char): int { if ch == '0' then 0 else if ch == '1' then 1 else -1 }

  function Letter(bit: bool): char { if bit then '1' else '0' }

  /** The number that bits denote, the lowest one first, or the highest one of eight first. */
  function Low(d: seq<nat>): nat {
    if d == [] then 0 else Low(d[..|d| - 1]) + d[|d| - 1] * Pow2(|d| - 1)
  }

  function High(d: seq<nat>): nat {
    if d == [] then 0 else High(d[..|d| - 1]) + if |d| <= 8 then d[|d| - 1] * Pow2(8 - |d|) else 0
  }

  function Bit(b: nat, k: nat): (r: nat)
    ensures r < 2
  {
    b / Pow2(k) % 2
  }

  function SpellLow(g: seq<Byte>): string {
    if |g| == 1 then seq(8, k requires 0 <= k < 8 => Letter(Bit(g[0], k) == 1)) else []
  }

  function SpellHigh(g: seq<Byte>): string {
    if |g| == 1 then seq(8, k requires 0 <= k < 8 => Letter(Bit(g[0], 7 - k) == 1)) else []
  }

  function PackLow(d: seq<nat>): Option<seq<Byte>> {
    if |d| == 8 && Low(d) < 256 then Some([Low(d)]) else None
  }

  function PackHigh(d: seq<nat>): Option<seq<Byte>> {
    if |d| == 8 && High(d) < 256 then Some([High(d)]) else None
  }

  function CodeLow(): Code { Code(1, 8, SpellLow, Digit, PackLow) }

  function CodeHigh(): Code { Code(1, 8, SpellHigh, Digit, PackHigh) }

  // What a letter contributes.
  function One(c: char): nat { if c == '1' then 1 else 0 }

  // Bytes are spelled with zeros and ones, of which the first, or the last, stands for 128.
  lemma SpellMeans(b: Byte)
    ensures forall k :: 0 <= k < 8 ==> SpellHigh([b])[k] in "01" && SpellLow([b])[k] in "01"
    ensures var s := SpellHigh([b]);
            |s| == 8 && b == One(s[0]) * 128 + One(s[1]) * 64 + One(s[2]) * 32 + One(s[3]) * 16
                             + One(s[4]) * 8 + One(s[5]) * 4 + One(s[6]) * 2 + One(s[7])
    ensures var s := SpellLow([b]);
            |s| == 8 && b == One(s[0]) + One(s[1]) * 2 + One(s[2]) * 4 + One(s[3]) * 8
                             + One(s[4]) * 16 + One(s[5]) * 32 + One(s[6]) * 64 + One(s[7]) * 128
  {
    hide Bit;
    forall k | 0 <= k < 8
      ensures One(SpellLow([b])[k]) == Bit(b, k) && One(SpellHigh([b])[k]) == Bit(b, 7 - k)
    {
    }
    BitsAre(b);
  }

  lemma BitsAre(b: Byte)
    ensures b == Bit(b, 7) * 128 + Bit(b, 6) * 64 + Bit(b, 5) * 32 + Bit(b, 4) * 16
                 + Bit(b, 3) * 8 + Bit(b, 2) * 4 + Bit(b, 1) * 2 + Bit(b, 0)
  {
    var d: seq<nat> := seq(8, k requires 0 <= k < 8 => Bit(b, k));
    LowIs(b, d);
    LowSum(d);
    hide *;
  }

  lemma LowIs(b: Byte, d: seq<nat>)
    requires |d| == 8 && forall k :: 0 <= k < 8 ==> d[k] == Bit(b, k)
    ensures Low(d) == b
  {
    LowBits(b, d);
    Powers();
    hide *;
    assert b as nat % 256 == b as nat;
  }

  lemma LowSum(d: seq<nat>)
    requires |d| == 8
    ensures Low(d) == d[7] * 128 + d[6] * 64 + d[5] * 32 + d[4] * 16 + d[3] * 8 + d[2] * 4 + d[1] * 2 + d[0]
  {
    Powers();
    hide *;
    LowOf(d, 0, 1);
    LowOf(d, 1, 2);
    LowOf(d, 2, 4);
    LowOf(d, 3, 8);
    LowOf(d, 4, 16);
    LowOf(d, 5, 32);
    LowOf(d, 6, 64);
    LowOf(d, 7, 128);
    assert d[..8] == d;
  }

  lemma Powers()
    ensures Pow2(0) == 1 && Pow2(1) == 2 && Pow2(2) == 4 && Pow2(3) == 8
    ensures Pow2(4) == 16 && Pow2(5) == 32 && Pow2(6) == 64 && Pow2(7) == 128 && Pow2(8) == 256
  {
    assert Pow2(0) == 1 && Pow2(1) == 2 && Pow2(2) == 4 && Pow2(3) == 8;
    assert Pow2(4) == 16 && Pow2(5) == 32 && Pow2(6) == 64 && Pow2(7) == 128 && Pow2(8) == 256;
  }

  lemma LowOf(d: seq<nat>, k: nat, weight: nat)
    requires k < |d| && weight == Pow2(k)
    ensures Low(d[..k + 1]) == Low(d[..k]) + d[k] * weight && Low(d[..0]) == 0
  {
    assert d[..k + 1][..k] == d[..k];
  }

  predicate Bits(d: seq<nat>) { forall k :: 0 <= k < |d| ==> d[k] < 2 }

  /** Some bits denote a number that is low enough to be stored beside those still to come. */
  lemma {:induction false} LowBound(d: seq<nat>)
    requires Bits(d)
    ensures Low(d) < Pow2(|d|)
  {
    if d != [] {
      LowBound(d[..|d| - 1]);
    }
  }

  lemma {:induction false} HighBound(d: seq<nat>)
    requires Bits(d) && |d| <= 8
    ensures High(d) + Pow2(8 - |d|) <= 256
  {
    if d != [] {
      HighBound(d[..|d| - 1]);
    } else {
      assert Pow2(8) == 256;
    }
  }

  // One more bit, of eight that are to come.
  lemma HighNext(d: seq<nat>, bit: nat)
    requires Bits(d) && |d| < 8 && bit < 2
    ensures Bits(d + [bit]) && High(d + [bit]) == High(d) + bit * Pow2(7 - |d|) < 256 && Pow2(7 - |d|) > 0
  {
    assert (d + [bit])[..|d|] == d;
    HighBound(d + [bit]);
  }

  lemma LowNext(d: seq<nat>, bit: nat)
    requires Bits(d) && |d| < 8 && bit < 2
    ensures Bits(d + [bit]) && Low(d + [bit]) == Low(d) + bit * Pow2(|d|) < 256
  {
    assert (d + [bit])[..|d|] == d;
    LowBound(d + [bit]);
    Pow2Grows(|d| + 1);
  }

  lemma Pow2Grows(n: nat)
    requires n <= 8
    ensures Pow2(n) <= 256
    decreases 8 - n
  {
    if n < 8 {
      Pow2Grows(n + 1);
    } else {
      assert Pow2(8) == 256;
    }
  }

  // The lowest n bits of a byte, and the highest ones.
  lemma {:induction false} LowBits(b: nat, d: seq<nat>)
    requires forall k :: 0 <= k < |d| ==> d[k] == Bit(b, k)
    ensures Low(d) == b % Pow2(|d|)
  {
    if d != [] {
      var n := |d| - 1;
      LowBits(b, d[..n]);
      Doubling(b, Pow2(n));
    }
  }

  lemma Doubling(b: nat, m: nat)
    requires m > 0
    ensures b % (2 * m) == b % m + b / m % 2 * m
  {
    var q, r := b / m, b % m;
    assert b == q * m + r;
    var h, t := q / 2, q % 2;
    assert q == 2 * h + t;
    assert q * m == h * (2 * m) + t * m;
    assert b == h * (2 * m) + (t * m + r);
    DivModUnique(b, h, t * m + r, 2 * m);
  }

  lemma {:induction false} HighBits(b: nat, d: seq<nat>)
    requires b < 256 && |d| <= 8 && forall k :: 0 <= k < |d| ==> d[k] == Bit(b, 7 - k)
    ensures High(d) == b - b % Pow2(8 - |d|)
  {
    if d != [] {
      var n := |d| - 1;
      HighBits(b, d[..n]);
      assert Pow2(8 - n) == 2 * Pow2(7 - n);
      Doubling(b, Pow2(7 - n));
    } else {
      assert Pow2(8) == 256;
    }
  }

  lemma {:induction false} LegibleLow(g: seq<Byte>)
    requires |g| == 1
    ensures Legible(CodeLow(), g)
  {
    hide Bit;
    var d: seq<nat> := seq(8, k requires 0 <= k < 8 => Bit(g[0], k));
    assert DigitsOf(CodeLow(), SpellLow(g)) == d;
    LowBits(g[0], d);
    assert Pow2(8) == 256 && [g[0]] == g;
  }

  lemma {:induction false} LegibleHigh(g: seq<Byte>)
    requires |g| == 1
    ensures Legible(CodeHigh(), g)
  {
    hide Bit;
    var d: seq<nat> := seq(8, k requires 0 <= k < 8 => Bit(g[0], 7 - k));
    forall k | 0 <= k < 8
      ensures Digit(SpellHigh(g)[k]) == d[k]
    {
      assert SpellHigh(g)[k] == Letter(Bit(g[0], 7 - k) == 1);
    }
    assert DigitsOf(CodeHigh(), SpellHigh(g)) == d;
    HighBits(g[0], d);
    assert Pow2(0) == 1 && [g[0]] == g;
  }

  lemma AreLawful()
    ensures Lawful(CodeLow()) && Lawful(CodeHigh())
  {
    hide Legible;
    forall g: seq<Byte> | |g| == 1
      ensures Legible(CodeLow(), g) && Legible(CodeHigh(), g)
    {
      LegibleLow(g);
      LegibleHigh(g);
    }
  }

  lemma EncodeStep(c: Code, input: seq<Byte>, k: nat)
    requires c.bytes == 1 && k < |input|
    ensures Encode(c, input[k..]) == c.spell([input[k]]) + Encode(c, input[k + 1..])
  {
    assert input[k..][..1] == [input[k]] && input[k..][1..] == input[k + 1..];
  }

  /** base2lsbf_encode and base2msbf_encode */
  method EncodeLow(input: seq<Byte>) returns (out: string)
    ensures out == Encode(CodeLow(), input)
  {
    hide Encode, SpellLow;
    out := [];
    var k := 0;
    assert input[0..] == input;
    while k < |input|
      invariant 0 <= k <= |input| && out + Encode(CodeLow(), input[k..]) == Encode(CodeLow(), input)
    {
      EncodeStep(CodeLow(), input, k);
      var bits := BitsLow(input[k]);
      assert out + (bits + Encode(CodeLow(), input[k + 1..])) == out + bits + Encode(CodeLow(), input[k + 1..]);
      out := out + bits;
      k := k + 1;
    }
    EncodeEnd(CodeLow(), input[k..]);
  }

  method EncodeHigh(input: seq<Byte>) returns (out: string)
    ensures out == Encode(CodeHigh(), input)
  {
    hide Encode, SpellHigh;
    out := [];
    var k := 0;
    assert input[0..] == input;
    while k < |input|
      invariant 0 <= k <= |input| && out + Encode(CodeHigh(), input[k..]) == Encode(CodeHigh(), input)
    {
      EncodeStep(CodeHigh(), input, k);
      var bits := BitsHigh(input[k]);
      assert out + (bits + Encode(CodeHigh(), input[k + 1..])) == out + bits + Encode(CodeHigh(), input[k + 1..]);
      out := out + bits;
      k := k + 1;
    }
    EncodeEnd(CodeHigh(), input[k..]);
  }

  lemma EncodeEnd(c: Code, input: seq<Byte>)
    requires c.bytes == 1 && input == []
    ensures Encode(c, input) == []
  {
  }

  // c & 0x01 and c >>= 1
  method BitsLow(b: Byte) returns (out: string)
    ensures out == SpellLow([b])
  {
    var c: nat := b;
    out := [];
    for i := 0 to 8
      invariant c == b / Pow2(i) && |out| == i
      invariant forall k :: 0 <= k < i ==> out[k] == Letter(Bit(b, k) == 1)
    {
      out := out + [Letter(c % 2 == 1)];
      HalfStep(b, i);
      c := c / 2;
    }
  }

  lemma HalfStep(b: nat, i: nat)
    ensures b / Pow2(i) / 2 == b / Pow2(i + 1)
  {
    Halved(b, Pow2(i));
  }

  lemma Halved(b: nat, m: nat)
    requires m > 0
    ensures b / m / 2 == b / (2 * m)
  {
    var q, r := b / m, b % m;
    assert b == q * m + r;
    var h, t := q / 2, q % 2;
    Twice(h, t, m);
    DivModUnique(b, h, t * m + r, 2 * m);
  }

  lemma Twice(h: nat, t: nat, m: nat)
    requires t < 2
    ensures (2 * h + t) * m == h * (2 * m) + t * m && t * m <= m
  {
    assert (2 * h + t) * m == 2 * h * m + t * m;
  }

  // c & 0x80 and c <<= 1, in 8 bits
  method BitsHigh(b: Byte) returns (out: string)
    ensures out == SpellHigh([b])
  {
    hide Bit, Pow2;
    var c: nat := b;
    out := [];
    Ends(b);
    for i := 0 to 8
      invariant c == b % Pow2(8 - i) * Pow2(i) && |out| == i
      invariant forall k :: 0 <= k < i ==> out[k] == Letter(Bit(b, 7 - k) == 1)
    {
      ShiftStep(b, i);
      out := out + [Letter(c >= 128)];
      c := c * 2 % 256;
    }
  }

  lemma Ends(b: Byte)
    ensures b as nat % Pow2(8) * Pow2(0) == b as nat
  {
    assert Pow2(8) == 256 && Pow2(0) == 1;
  }

  // The bits that are left, shifted to the top.
  lemma {:induction false} ShiftStep(b: nat, i: nat)
    requires b < 256 && i < 8
    ensures b % Pow2(8 - i) * Pow2(i) >= 128 <==> Bit(b, 7 - i) == 1
    ensures b % Pow2(8 - i) * Pow2(i) * 2 % 256 == b % Pow2(7 - i) * Pow2(i + 1)
  {
    var m, p := Pow2(7 - i), Pow2(i);
    assert Pow2(8 - i) == 2 * m && Pow2(i + 1) == 2 * p;
    Complement(i);
    Doubling(b, m);
    ShiftTop(b % m, b / m % 2, m, p);
  }

  lemma ShiftTop(r: nat, bit: nat, m: nat, p: nat)
    requires r < m && bit < 2 && m * p == 128
    ensures (r + bit * m) * p >= 128 <==> bit == 1
    ensures (r + bit * m) * p * 2 % 256 == r * (2 * p)
  {
    var low := r * p;
    TopSum(r, bit, m, p);
    TimesRises(r, m, p);
    assert r * (2 * p) == 2 * low;
  }

  lemma TopSum(r: nat, bit: nat, m: nat, p: nat)
    requires bit < 2
    ensures (r + bit * m) * p == r * p + if bit == 1 then m * p else 0
  {
    if bit == 0 {
      assert r + bit * m == r;
    } else {
      assert r + bit * m == r + m && (r + m) * p == r * p + m * p;
    }
  }

  lemma {:induction false} Complement(i: nat)
    requires i < 8
    ensures Pow2(7 - i) * Pow2(i) == 128
    decreases i
  {
    if i == 0 {
      assert Pow2(7) == 128;
    } else {
      Complement(i - 1);
      assert Pow2(8 - i) * Pow2(i - 1) == 2 * Pow2(7 - i) * Pow2(i - 1);
    }
  }
}
