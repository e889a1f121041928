/** Z85 in basenc: the code, its encoder, and what its decoder accepts. */
module Z85 {
  import opened BaseCodec
  import opened Wrappers

  // z85_encoding
  function Letter(v: nat): char
    requires v < 85
  {
    if v < 10 then '0' + v as char
    else if v < 36 then 'a' + (v - 10) as char
    else if v < 62 then 'A' + (v - 36) as char
    else match v
      case 62 => '.' case 63 => '-' case 64 => ':' case 65 => '+' case 66 => '=' case 67 => '^'
      case 68 => '!' case 69 => '/' case 70 => '*' case 71 => '?' case 72 => '&' case 73 => '<'
      case 74 => '>' case 75 => '(' case 76 => ')' case 77 => '[' case 78 => ']' case 79 => '{'
      case 80 => '}' case 81 => '@' case 82 => '%' case 83 => '$' case _ => '#'
  }

  // z85_decoding, with -1 for 255 and for what is outside the table
  function Digit(ch: char): int {
    if '0' <= ch <= '9' then ch as int - '0' as int
    else if 'a' <= ch <= 'z' then ch as int - 'a' as int + 10
    else if 'A' <= ch <= 'Z' then ch as int - 'A' as int + 36
    else match ch
      case '!' => 68 case '#' => 84 case '$' => 83 case '%' => 82 case '&' => 72 case '(' => 75
      case ')' => 76 case '*' => 70 case '+' => 65 case '-' => 63 case '.' => 62 case '/' => 69
      case ':' => 64 case '<' => 73 case '=' => 66 case '>' => 74 case '?' => 71 case '@' => 81
      case '[' => 77 case ']' => 78 case '^' => 67 case '{' => 79 case '}' => 80
      case _ => -1
  }

  /** The two tables are inverse to each other. */
  lemma LetterDigit(v: nat)
    requires v < 85
    ensures Digit(Letter(v)) == v && Letter(v) != '\n'
  {
  }

  lemma DigitLetter(ch: char)
    requires Digit(ch) >= 0
    ensures Digit(ch) < 85 && Letter(Digit(ch)) == ch
  {
  }

  const NUMERALS := "0123456789"
  const LOWER := "abcdefghijklmnopqrstuvwxyz"
  const UPPER := "ABCDEFGHIJKLMNOPQRSTUVWXYZ"
  const OTHERS := ".-:+=^!/*?&<>()[]{}@%$#"

  /** The letters, in the order of their digits. */
  function Alphabet(): (s: string)
    ensures |s| == 85
  {
    NUMERALS + LOWER + UPPER + OTHERS
  }

  lemma LettersAre(v: nat)
    requires v < 85
    ensures Letter(v) == Alphabet()[v]
  {
    if v < 10 {
      assert NUMERALS[v] == '0' + v as char;
    } else if v < 36 {
      assert LOWER[v - 10] == 'a' + (v - 10) as char;
    } else if v < 62 {
      assert UPPER[v - 36] == 'A' + (v - 36) as char;
    } else {
      assert OTHERS[v - 62] == Letter(v);
    }
  }

  const LIMIT: nat := 0x1_0000_0000

  /** The number that five digits denote, and four bytes. */
  function Value(d: seq<nat>): nat
    requires |d| == 5
  {
    (((d[0] * 85 + d[1]) * 85 + d[2]) * 85 + d[3]) * 85 + d[4]
  }

  function Number(b: seq<Byte>): nat
    requires |b| == 4
  {
    ((b[0] as nat * 256 + b[1] as nat) * 256 + b[2] as nat) * 256 + b[3] as nat
  }

  function Digits(v: nat): (d: seq<nat>)
    requires v < LIMIT
    ensures |d| == 5 && forall k :: 0 <= k < 5 ==> d[k] < 85
  {
    [v / 85 / 85 / 85 / 85, v / 85 / 85 / 85 % 85, v / 85 / 85 % 85, v / 85 % 85, v % 85]
  }

  function Bytes(v: nat): (b: seq<Byte>)
    requires v < LIMIT
    ensures |b| == 4
  {
    [v / 256 / 256 / 256, v / 256 / 256 % 256, v / 256 % 256, v % 256]
  }

  lemma ValueDigits(v: nat)
    requires v < LIMIT
    ensures Value(Digits(v)) == v
  {
  }

  lemma DigitsValue(d: seq<nat>)
    requires |d| == 5 && (forall k :: 0 <= k < 5 ==> d[k] < 85) && Value(d) < LIMIT
    ensures Digits(Value(d)) == d
  {
    var v := Value(d);
    assert v / 85 == ((d[0] * 85 + d[1]) * 85 + d[2]) * 85 + d[3] && v % 85 == d[4];
    assert v / 85 / 85 == (d[0] * 85 + d[1]) * 85 + d[2] && v / 85 % 85 == d[3];
    assert v / 85 / 85 / 85 == d[0] * 85 + d[1] && v / 85 / 85 % 85 == d[2];
  }

  lemma NumberBytes(v: nat)
    requires v < LIMIT
    ensures Number(Bytes(v)) == v
  {
  }

  lemma BytesNumber(b: seq<Byte>)
    requires |b| == 4
    ensures Number(b) < LIMIT && Bytes(Number(b)) == b
  {
    var v := Number(b);
    var w := b[0] as nat * 256 + b[1] as nat;
    assert v / 256 == w * 256 + b[2] as nat && v % 256 == b[3];
    assert v / 256 / 256 == w && v / 256 % 256 == b[2];
  }

  function Letters(d: seq<nat>): string
    requires forall k :: 0 <= k < |d| ==> d[k] < 85
  {
    seq(|d|, k requires 0 <= k < |d| => Letter(d[k]))
  }

  function Spell(g: seq<Byte>): string {
    if |g| == 4 then (BytesNumber(g); Letters(Digits(Number(g)))) else []
  }

  /** Four bytes are spelled with the letters of the five digits, to base 85 and the highest first,
      of the number that they are to base 256. */
  lemma SpellMeans(g: seq<Byte>) returns (d: seq<nat>)
    requires |g| == 4
    ensures |d| == |Spell(g)| == 5 && forall k :: 0 <= k < 5 ==> d[k] < 85 && Spell(g)[k] == Alphabet()[d[k]]
    ensures d[0] * 52_200_625 + d[1] * 614_125 + d[2] * 7225 + d[3] * 85 + d[4]
            == g[0] as nat * 16_777_216 + g[1] as nat * 65_536 + g[2] as nat * 256 + g[3] as nat
  {
    BytesNumber(g);
    hide Digits, Bytes, Letter, Alphabet;
    d := Digits(Number(g));
    ValueDigits(Number(g));
    forall k | 0 <= k < 5
      ensures Spell(g)[k] == Alphabet()[d[k]]
    {
      LettersAre(d[k]);
    }
  }

  /** Five digits are packed into four bytes, unless they denote too large a number. */
  function Pack(d: seq<nat>): Option<seq<Byte>> {
    if |d| == 5 && Value(d) < LIMIT then Some(Bytes(Value(d))) else None
  }

  function Code(): Code { BaseCodec.Code(4, 5, Spell, Digit, Pack) }

  /** Every group of four bytes is read back from its spelling. */
  lemma IsLawful()
    ensures Lawful(Code())
  {
    forall g: seq<Byte> | |g| == 4
      ensures Legible(Code(), g)
    {
      BytesNumber(g);
      var d := Digits(Number(g));
      forall k | 0 <= k < 5
        ensures Digit(Spell(g)[k]) == d[k] && Spell(g)[k] != '\n'
      {
        LetterDigit(d[k]);
      }
      assert DigitsOf(Code(), Spell(g)) == d;
      ValueDigits(Number(g));
    }
  }

  /** Five characters of the alphabet are accepted exactly if they denote a number below 2^32;
      then they are the spelling of what they are decoded to. */
  lemma GroupAccepted(s: string)
    requires |s| == 5 && InAlphabet(Code(), s)
    ensures Value(DigitsOf(Code(), s)) < LIMIT <==> Pack(DigitsOf(Code(), s)).Some?
    ensures Pack(DigitsOf(Code(), s)).Some? <==> FeedAll(Code(), START, s).Open?
    ensures Pack(DigitsOf(Code(), s)).Some? ==> Spell(Pack(DigitsOf(Code(), s)).value) == s
  {
    var d := DigitsOf(Code(), s);
    FeedGroup(Code(), [], s, 5);
    forall k | 0 <= k < 5
      ensures d[k] < 85 && Letter(d[k]) == s[k]
    {
      DigitLetter(s[k]);
    }
    if Value(d) < LIMIT {
      DigitsValue(d);
      NumberBytes(Value(d));
    }
  }

  lemma EncodeStep(input: seq<Byte>)
    ensures input == [] ==> Encode(Code(), input) == [] && WholeGroups(Code(), input)
    ensures 0 < |input| < 4 ==> !WholeGroups(Code(), input)
    ensures |input| >= 4 ==> Encode(Code(), input) == Spell(input[..4]) + Encode(Code(), input[4..])
    ensures |input| >= 4 ==> (WholeGroups(Code(), input) <==> WholeGroups(Code(), input[4..]))
  {
    hide Spell;
  }

  /** z85_encode: groups of four bytes, and an error if some bytes are left over. */
  method EncodeGroups(input: seq<Byte>) returns (ok: bool, out: string)
    ensures ok <==> WholeGroups(Code(), input)
    ensures ok ==> out == Encode(Code(), input)
  {
    hide Encode, WholeGroups, Spell;
    var rest := input;
    out := [];
    assert [] + Encode(Code(), input) == Encode(Code(), input);
    while true
      invariant WholeGroups(Code(), input) <==> WholeGroups(Code(), rest)
      invariant Encode(Code(), input) == out + Encode(Code(), rest)
      decreases |rest|
    {
      EncodeStep(rest);
      if rest == [] {
        return true, out;
      }
      if |rest| < 4 {
        return false, out;
      }
      var group := SpellQuad(rest[..4]);
      assert out + (group + Encode(Code(), rest[4..])) == out + group + Encode(Code(), rest[4..]);
      out := out + group;
      rest := rest[4..];
    }
  }

  // One group: the five letters, from the last to the first.
  method SpellQuad(quad: seq<Byte>) returns (group: string)
    requires |quad| == 4
    ensures group == Spell(quad)
  {
    var v := quad[0] as nat * 0x100_0000 + quad[1] as nat * 0x1_0000 + quad[2] as nat * 0x100 + quad[3] as nat;
    BytesNumber(quad);
    assert v == Number(quad);
    group := SpellNumber(v);
  }

  method SpellNumber(v: nat) returns (group: string)
    requires v < LIMIT
    ensures group == Letters(Digits(v))
  {
    hide Letter;
    var out := new char[5];
    var val: nat, j := v, 4;
    ghost var d := Digits(v);
    while j >= 0
      invariant -1 <= j <= 4
      invariant val == Quotient(v, 4 - j)
      invariant forall k :: j < k <= 4 ==> out[k] == Letter(d[k])
    {
      QuotientDigit(v, j);
      var c := val % 85;
      val := val / 85;
      out[j] := Letter(c);
      j := j - 1;
    }
    group := out[..];
  }

  function Quotient(v: nat, n: nat): nat {
    if n == 0 then v else Quotient(v, n - 1) / 85
  }

  lemma QuotientDigit(v: nat, j: nat)
    requires v < LIMIT && j <= 4
    ensures Digits(v)[j] == Quotient(v, 4 - j) % 85
  {
    assert Quotient(v, 1) == v / 85;
    assert Quotient(v, 2) == v / 85 / 85;
    assert Quotient(v, 3) == v / 85 / 85 / 85;
    assert Quotient(v, 4) == v / 85 / 85 / 85 / 85;
  }

  // The test for too large a number, as the decoder makes it.
  predicate Overflows(d: seq<nat>)
    requires |d| == 5
  {
    var val := d[1] * 85 * 85 * 85 + d[2] * 85 * 85 + d[3] * 85 + d[4];
    d[0] == 84 || d[0] == 83 || (d[0] == 82 && val > 0xFFFF_FFFF - 82 * 85 * 85 * 85 * 85)
  }

  lemma OverflowTest(d: seq<nat>)
    requires |d| == 5 && forall k :: 0 <= k < 5 ==> d[k] < 85
    ensures Overflows(d) <==> Value(d) >= LIMIT
    ensures Value(d) == d[1] * 85 * 85 * 85 + d[2] * 85 * 85 + d[3] * 85 + d[4] + d[0] * 85 * 85 * 85 * 85
  {
  }
}
