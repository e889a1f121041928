/** What encoding and decoding mean in basenc, for any code that spells a group of bytes with a
    group of characters: block by block on one side, character by character on the other. */
module BaseCodec {
  import opened Wrappers

  type Byte = n: nat | n < 256

  /** A code: a group of bytes is spelled with a number of characters; a character stands for a
      digit (a negative number, if it is not in the alphabet); digits are packed into bytes. */
  datatype Code = Code(bytes: nat, digits: nat, spell: seq<Byte> -> string, digit: char -> int,
                       pack: seq<nat> -> Option<seq<Byte>>)

  function DigitsOf(c: Code, s: string): seq<int> { seq(|s|, k requires 0 <= k < |s| => c.digit(s[k])) }

  predicate InAlphabet(c: Code, s: string) { forall k :: 0 <= k < |s| ==> s[k] != '\n' && c.digit(s[k]) >= 0 }

  /** Every group of bytes is read back from its spelling. */
  ghost predicate Lawful(c: Code) {
    && c.bytes > 0 && c.digits > 0
    && forall g: seq<Byte> :: |g| == c.bytes ==> Legible(c, g)
  }

  ghost predicate Legible(c: Code, g: seq<Byte>) {
    var s := c.spell(g);
    |s| == c.digits && InAlphabet(c, s) && c.pack(DigitsOf(c, s)) == Some(g)
  }

  /** The encoding of whole groups. */
  function Encode(c: Code, input: seq<Byte>): string
    requires c.bytes > 0
  {
    if |input| < c.bytes then [] else c.spell(input[..c.bytes]) + Encode(c, input[c.bytes..])
  }

  predicate WholeGroups(c: Code, input: seq<Byte>)
    requires c.bytes > 0
  {
    input == [] || (|input| >= c.bytes && WholeGroups(c, input[c.bytes..]))
  }

  /** A decoder: what it has put out, and the digits of the group it is in. */
  datatype State = Open(out: seq<Byte>, pending: seq<nat>) | Failed(out: seq<Byte>)

  const START := Open([], [])

  function Feed(c: Code, s: State, ch: char): State {
    if s.Failed? || ch == '\n' then s
    else if c.digit(ch) < 0 then Failed(s.out)
    else
      var p := s.pending + [c.digit(ch)];
      if |p| < c.digits then Open(s.out, p)
      else match c.pack(p)
        case None => Failed(s.out)
        case Some(bs) => Open(s.out + bs, [])
  }

  function FeedAll(c: Code, s: State, text: string): State {
    if text == [] then s else Feed(c, FeedAll(c, s, text[..|text| - 1]), text[|text| - 1])
  }

  /** A text is accepted if it is in the alphabet, newlines aside, and ends with a whole group. */
  predicate Accepts(c: Code, text: string) {
    var s := FeedAll(c, START, text);
    s.Open? && s.pending == []
  }

  function Decoded(c: Code, text: string): seq<Byte> { FeedAll(c, START, text).out }

  // The text without its newlines.
  function Strip(text: string): string {
    if text == [] then [] else Strip(text[..|text| - 1]) + if text[|text| - 1] == '\n' then [] else [text[|text| - 1]]
  }

  /** Chunks make no difference. */
  lemma {:induction false} FeedConcat(c: Code, s: State, a: string, b: string)
    ensures FeedAll(c, s, a + b) == FeedAll(c, FeedAll(c, s, a), b)
  {
    if b == [] {
      assert a + b == a;
    } else {
      FeedConcat(c, s, a, b[..|b| - 1]);
      assert (a + b)[..|a + b| - 1] == a + b[..|b| - 1];
    }
  }

  /** Newlines make no difference. */
  lemma {:induction false} FeedStrip(c: Code, s: State, text: string)
    ensures FeedAll(c, s, text) == FeedAll(c, s, Strip(text))
  {
    if text != [] {
      var n := |text| - 1;
      FeedStrip(c, s, text[..n]);
      if text[n] == '\n' {
        assert Strip(text) == Strip(text[..n]);
      } else {
        assert Strip(text)[..|Strip(text)| - 1] == Strip(text[..n]);
      }
    }
  }

  // The digits of a group, one after the other.
  lemma {:induction false} FeedGroup(c: Code, out: seq<Byte>, s: string, n: nat)
    requires n <= |s| == c.digits && InAlphabet(c, s) && c.digits > 0
    ensures n < |s| ==> FeedAll(c, Open(out, []), s[..n]) == Open(out, DigitsOf(c, s)[..n])
    ensures n == |s| && c.pack(DigitsOf(c, s)).Some? ==>
              FeedAll(c, Open(out, []), s) == Open(out + c.pack(DigitsOf(c, s)).value, [])
    ensures n == |s| && c.pack(DigitsOf(c, s)).None? ==> FeedAll(c, Open(out, []), s) == Failed(out)
  {
    if n > 0 {
      FeedGroup(c, out, s, n - 1);
      assert s[..n][..n - 1] == s[..n - 1];
      assert DigitsOf(c, s)[..n - 1] + [c.digit(s[n - 1])] == DigitsOf(c, s)[..n];
      if n == |s| {
        assert s[..n] == s && DigitsOf(c, s)[..n] == DigitsOf(c, s);
      }
    }
  }

  lemma FeedNothing(c: Code, s: State)
    ensures FeedAll(c, s, []) == s
  {
  }

  lemma {:induction false} FeedEncoded(c: Code, out: seq<Byte>, input: seq<Byte>)
    requires Lawful(c) && WholeGroups(c, input)
    ensures FeedAll(c, Open(out, []), Encode(c, input)) == Open(out + input, [])
    decreases |input|
  {
    hide Feed, FeedAll, InAlphabet, DigitsOf;
    if input == [] {
      FeedNothing(c, Open(out, []));
      assert out + input == out;
    } else {
      var g, rest := input[..c.bytes], input[c.bytes..];
      assert Legible(c, g);
      FeedGroup(c, out, c.spell(g), c.digits);
      FeedConcat(c, Open(out, []), c.spell(g), Encode(c, rest));
      FeedEncoded(c, out + g, rest);
      assert out + g + rest == out + input;
    }
  }

  /** The encoding of whole groups, broken into lines in any way, is accepted and decoded to what
      was encoded. */
  lemma RoundTrip(c: Code, input: seq<Byte>, text: string)
    requires Lawful(c) && WholeGroups(c, input) && Strip(text) == Encode(c, input)
    ensures Accepts(c, text) && Decoded(c, text) == input
  {
    FeedStrip(c, START, text);
    FeedEncoded(c, [], input);
    assert [] + input == input;
  }

  /** Block by block is the same as all at once. */
  lemma {:induction false} EncodeConcat(c: Code, a: seq<Byte>, b: seq<Byte>)
    requires c.bytes > 0 && WholeGroups(c, a)
    ensures Encode(c, a + b) == Encode(c, a) + Encode(c, b)
    ensures WholeGroups(c, b) <==> WholeGroups(c, a + b)
    decreases |a|
  {
    if a == [] {
      assert a + b == b;
    } else {
      EncodeConcat(c, a[c.bytes..], b);
      assert (a + b)[c.bytes..] == a[c.bytes..] + b && (a + b)[..c.bytes] == a[..c.bytes];
    }
  }

  lemma {:induction false} EncodeHasNoNewline(c: Code, input: seq<Byte>)
    requires Lawful(c)
    ensures '\n' !in Encode(c, input)
    decreases |input|
  {
    if |input| >= c.bytes {
      assert Legible(c, input[..c.bytes]);
      EncodeHasNoNewline(c, input[c.bytes..]);
    }
  }
}
