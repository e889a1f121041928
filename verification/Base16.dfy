/** Base16 in basenc. */
module Base16 {
  import opened BaseCodec
  import opened Wrappers

  function Letter(v: nat): char
    requires v < 16
  {
    if v < 10 then '0' + v as char else 'A' + (v - 10) as char
  }

  function Digit(ch: char): int {
    if 'A' <= ch <= 'F' then ch as int - 'A' as int + 10
    else if '0' <= ch <= '9' then ch as int - '0' as int
    else -1
  }

  function Spell(g: seq<Byte>): string {
    if |g| == 1 then [Letter(g[0] / 16), Letter(g[0] % 16)] else []
  }

  function Pack(d: seq<nat>): Option<seq<Byte>> {
    if |d| == 2 && d[0] < 16 && d[1] < 16 then Some([d[0] * 16 + d[1]]) else None
  }

  function Code(): Code { BaseCodec.Code(1, 2, Spell, Digit, Pack) }

  // A byte is spelled with its upper four bits first, in digits and upper-case letters.
  lemma SpellMeans(b: Byte)
    ensures Spell([b]) == ["0123456789ABCDEF"[b / 16], "0123456789ABCDEF"[b % 16]]
  {
    LettersAre(b / 16);
    LettersAre(b % 16);
  }

  lemma LettersAre(v: nat)
    requires v < 16
    ensures Letter(v) == "0123456789ABCDEF"[v]
  {
    if v < 10 {
      assert "0123456789ABCDEF"[..10] == "0123456789";
    } else {
      assert "0123456789ABCDEF"[10..] == "ABCDEF";
    }
  }

  lemma IsLawful()
    ensures Lawful(Code())
  {
    forall g: seq<Byte> | |g| == 1
      ensures Legible(Code(), g)
    {
      assert DigitsOf(Code(), Spell(g)) == [g[0] / 16, g[0] % 16];
      assert [g[0]] == g;
    }
  }

  /** base16_encode */
  method EncodeBytes(input: seq<Byte>) returns (out: string)
    ensures out == Encode(Code(), input)
  {
    out := [];
    var k := 0;
    assert input[0..] == input;
    while k < |input|
      invariant 0 <= k <= |input| && out + Encode(Code(), input[k..]) == Encode(Code(), input)
    {
      var c := input[k];
      assert input[k..][..1] == [c] && input[k..][1..] == input[k + 1..];
      out := out + [Letter(c / 16)];
      out := out + [Letter(c % 16)];
      k := k + 1;
    }
  }
}
