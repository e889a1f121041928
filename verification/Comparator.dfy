/** compare and keycompare: the order in which sort puts lines, and what -c checks. */
module Comparator {
  import opened StableSpec
  import opened KWayMerge
  import opened Wrappers

  type Bytes = seq<Byte>

  // A byte table, as used for -f and the like.
  type Table = t: seq<Byte> | |t| == 256 witness seq(256, i => 0)

  type Flags = f: seq<bool> | |f| == 256 witness seq(256, i => false)

  /** Plain keys compare as bytes; the others (numbers, months, versions, locale order, ...)
      by an order that is not defined here. */
  datatype Kind = Plain | Other(order: (Bytes, Bytes) -> int)

  /** One -k option: where the key begins and ends in a line, bytes to ignore, and a
      translation of the rest. */
  datatype Key = Key(kind: Kind, ignore: Option<Flags>, translate: Option<Table>, reverse: bool,
                     beg: Line -> nat, lim: Line -> nat)

  datatype Options = Options(keys: seq<Key>, unique: bool, stable: bool, reverse: bool)

  // ---------------------------------------------------------------- what is computed

  function Sign(n: int): int { if n < 0 then -1 else if n > 0 then 1 else 0 }

  // Lexicographic order on bytes, a proper prefix first.
  function Lex(a: Bytes, b: Bytes): int {
    if a == [] then (if b == [] then 0 else -1)
    else if b == [] then 1
    else if a[0] != b[0] then a[0] - b[0]
    else Lex(a[1..], b[1..])
  }

  predicate Skipped(k: Key, c: Byte) { k.ignore.Some? && k.ignore.value[c] }

  function Shown(k: Key, c: Byte): Byte { if k.translate.Some? then k.translate.value[c] else c }

  // The key text that counts: bytes not ignored, translated.
  function Clean(k: Key, s: Bytes): Bytes {
    if s == [] then []
    else if Skipped(k, s[0]) then Clean(k, s[1..])
    else [Shown(k, s[0])] + Clean(k, s[1..])
  }

  // The bytes of the line from beg up to lim; fields that end before they start are empty.
  function KeyText(k: Key, x: Line): (r: Bytes)
    ensures forall i :: 0 <= i < |r| ==> k.beg(x) + i < k.lim(x) && k.beg(x) + i < |x.text| && r[i] == x.text[k.beg(x) + i]
    ensures k.beg(x) + |r| >= k.lim(x) || k.beg(x) + |r| >= |x.text|
  {
    var n := |x.text|;
    var beg := if k.beg(x) <= n then k.beg(x) else n;
    var lim := if k.lim(x) <= n then k.lim(x) else n;
    if beg <= lim then x.text[beg..lim] else []
  }

  function KeyOrder(k: Key, a: Bytes, b: Bytes): int {
    if k.kind.Plain? then Lex(Clean(k, a), Clean(k, b)) else k.kind.order(Clean(k, a), Clean(k, b))
  }

  function ByKey(k: Key, x: Line, y: Line): int {
    var d := KeyOrder(k, KeyText(k, x), KeyText(k, y));
    if k.reverse then -d else d
  }

  function ByKeys(keys: seq<Key>, x: Line, y: Line): int {
    if keys == [] then 0
    else var d := ByKey(keys[0], x, y); if d != 0 then d else ByKeys(keys[1..], x, y)
  }

  function ByOptions(o: Options, x: Line, y: Line): int {
    var d := ByKeys(o.keys, x, y);
    if o.keys != [] && (d != 0 || o.unique || o.stable) then d
    else if o.reverse then -Lex(x.text, y.text) else Lex(x.text, y.text)
  }

  function OrderOf(o: Options): Order { (x, y) => ByOptions(o, x, y) }

  // ---------------------------------------------------------------- the program

  /** CMP_WITH_IGNORE: walk both keys at once, stepping over ignored bytes. */
  method CompareIgnoring(k: Key, a: Bytes, b: Bytes) returns (diff: int)
    requires k.ignore.Some?
    ensures Sign(diff) == Sign(Lex(Clean(k, a), Clean(k, b)))
  {
    var i, j := 0, 0;
    while true
      invariant i <= |a| && j <= |b|
      invariant Lex(Clean(k, a), Clean(k, b)) == Lex(Clean(k, a[i..]), Clean(k, b[j..]))
      decreases |a| - i
    {
      i := SkipIgnored(k, a, i);
      j := SkipIgnored(k, b, j);
      if !(i < |a| && j < |b|) {
        break;
      }
      diff := Shown(k, a[i]) - Shown(k, b[j]);
      CleanStep(k, a, i);
      CleanStep(k, b, j);
      if diff != 0 {
        return;
      }
      i, j := i + 1, j + 1;
    }
    if i < |a| { CleanStep(k, a, i); }
    if j < |b| { CleanStep(k, b, j); }
    diff := (if i < |a| then 1 else 0) - (if j < |b| then 1 else 0);
  }

  method SkipIgnored(k: Key, s: Bytes, from: nat) returns (i: nat)
    requires from <= |s|
    ensures from <= i <= |s| && (i < |s| ==> !Skipped(k, s[i]))
    ensures Clean(k, s[i..]) == Clean(k, s[from..])
  {
    i := from;
    while i < |s| && Skipped(k, s[i])
      invariant from <= i <= |s| && Clean(k, s[i..]) == Clean(k, s[from..])
    {
      assert s[i..][1..] == s[i + 1..];
      i := i + 1;
    }
  }

  lemma CleanStep(k: Key, s: Bytes, i: nat)
    requires i < |s| && !Skipped(k, s[i])
    ensures Clean(k, s[i..]) == [Shown(k, s[i])] + Clean(k, s[i + 1..])
  {
    assert s[i..][1..] == s[i + 1..];
  }

  // The comparison of keys without ignored bytes: empty keys first, then byte by byte, then by length.
  method CompareShown(k: Key, a: Bytes, b: Bytes) returns (diff: int)
    requires k.ignore.None?
    ensures Sign(diff) == Sign(Lex(Clean(k, a), Clean(k, b)))
  {
    if |a| == 0 {
      if |b| > 0 { CleanStep(k, b, 0); }
      return if |b| == 0 then 0 else -1;
    }
    if |b| == 0 {
      CleanStep(k, a, 0);
      return 1;
    }
    var i := 0;
    assert a[0..] == a && b[0..] == b;
    while i < |a| && i < |b|
      invariant i <= |a| && i <= |b|
      invariant Lex(Clean(k, a), Clean(k, b)) == Lex(Clean(k, a[i..]), Clean(k, b[i..]))
    {
      CleanStep(k, a, i);
      CleanStep(k, b, i);
      diff := Shown(k, a[i]) - Shown(k, b[i]);
      if diff != 0 {
        return;
      }
      i := i + 1;
    }
    if i < |a| { CleanStep(k, a, i); }
    if i < |b| { CleanStep(k, b, i); }
    diff := if |a| < |b| then -1 else if |a| != |b| then 1 else 0;
  }

  // The copy of a key that is handed to one of the other orders.
  method CopyKey(k: Key, s: Bytes) returns (t: Bytes)
    ensures t == Clean(k, s)
  {
    if k.ignore.None? && k.translate.None? {
      CleanNothing(k, s);
      return s;
    }
    t := [];
    var i := 0;
    assert s[0..] == s;
    while i < |s|
      invariant i <= |s| && t + Clean(k, s[i..]) == Clean(k, s)
    {
      if !Skipped(k, s[i]) {
        CleanStep(k, s, i);
        t := t + [Shown(k, s[i])];
      } else {
        assert s[i..][1..] == s[i + 1..];
      }
      i := i + 1;
    }
  }

  lemma {:induction false} CleanNothing(k: Key, s: Bytes)
    requires k.ignore.None? && k.translate.None?
    ensures Clean(k, s) == s
  {
    if s != [] {
      CleanNothing(k, s[1..]);
    }
  }

  method CompareKeys(k: Key, a: Bytes, b: Bytes) returns (diff: int)
    ensures Sign(diff) == Sign(KeyOrder(k, a, b))
  {
    if k.kind.Other? {
      var ta := CopyKey(k, a);
      var tb := CopyKey(k, b);
      diff := k.kind.order(ta, tb);
    } else if k.ignore.Some? {
      diff := CompareIgnoring(k, a, b);
    } else {
      diff := CompareShown(k, a, b);
    }
  }

  /** keycompare: the first key that tells the lines apart decides. */
  method KeyCompare(keys: seq<Key>, x: Line, y: Line) returns (diff: int)
    ensures Sign(diff) == Sign(ByKeys(keys, x, y))
  {
    hide KeyOrder, KeyText;
    var i := 0;
    assert keys[0..] == keys;
    while i < |keys|
      invariant i <= |keys| && ByKeys(keys, x, y) == ByKeys(keys[i..], x, y)
    {
      var k := keys[i];
      var a, b := KeyText(k, x), KeyText(k, y);
      diff := CompareKeys(k, a, b);
      assert keys[i..][0] == k && keys[i..][1..] == keys[i + 1..];
      if diff != 0 {
        return if k.reverse then -diff else diff;
      }
      i := i + 1;
    }
    diff := 0;
  }

  /** compare: the keys, then, unless -s or -u, the whole lines. */
  method Compare(o: Options, x: Line, y: Line) returns (diff: int)
    ensures Sign(diff) == Sign(OrderOf(o)(x, y))
  {
    if o.keys != [] {
      diff := KeyCompare(o.keys, x, y);
      if diff != 0 || o.unique || o.stable {
        return;
      }
    }
    var plain := Key(Plain, None, None, false, l => 0, (l: Line) => |l.text|);
    CleanNothing(plain, x.text);
    CleanNothing(plain, y.text);
    diff := CompareShown(plain, x.text, y.text);
    if o.reverse {
      diff := -diff;
    }
  }

  // ---------------------------------------------------------------- it is an order

  ghost predicate Preorder(cmp: (Bytes, Bytes) -> int) {
    && (forall a, b :: cmp(a, b) < 0 <==> cmp(b, a) > 0)
    && (forall a, b, c :: cmp(a, b) <= 0 && cmp(b, c) <= 0 ==> cmp(a, c) <= 0)
  }

  lemma {:induction false} LexOpposite(a: Bytes, b: Bytes)
    ensures Lex(a, b) == -Lex(b, a)
  {
    if a != [] && b != [] && a[0] == b[0] {
      LexOpposite(a[1..], b[1..]);
    }
  }

  lemma {:induction false} LexTransitive(a: Bytes, b: Bytes, c: Bytes)
    requires Lex(a, b) <= 0 && Lex(b, c) <= 0
    ensures Lex(a, c) <= 0
  {
    if a != [] && b != [] && c != [] && a[0] == b[0] == c[0] {
      LexTransitive(a[1..], b[1..], c[1..]);
    }
  }

  lemma {:induction false} LexZero(a: Bytes, b: Bytes)
    ensures Lex(a, b) == 0 <==> a == b
  {
    if a != [] && b != [] {
      LexZero(a[1..], b[1..]);
      assert a == [a[0]] + a[1..] && b == [b[0]] + b[1..];
    }
  }

  // Each of the other key types is given by a total preorder.
  ghost predicate KeysOk(keys: seq<Key>) {
    forall i :: 0 <= i < |keys| && keys[i].kind.Other? ==> Preorder(keys[i].kind.order)
  }

  lemma ByKeyOpposite(k: Key, x: Line, y: Line)
    requires k.kind.Other? ==> Preorder(k.kind.order)
    ensures Sign(ByKey(k, x, y)) == -Sign(ByKey(k, y, x))
  {
    LexOpposite(Clean(k, KeyText(k, x)), Clean(k, KeyText(k, y)));
  }

  lemma ByKeyTransitive(k: Key, x: Line, y: Line, z: Line)
    requires k.kind.Other? ==> Preorder(k.kind.order)
    requires ByKey(k, x, y) <= 0 && ByKey(k, y, z) <= 0
    ensures ByKey(k, x, z) <= 0
  {
    var a, b, c := Clean(k, KeyText(k, x)), Clean(k, KeyText(k, y)), Clean(k, KeyText(k, z));
    LexOpposite(a, b);
    LexOpposite(b, c);
    LexOpposite(a, c);
    if k.kind.Plain? {
      if k.reverse { LexTransitive(c, b, a); } else { LexTransitive(a, b, c); }
    }
  }

  lemma {:induction false} ByKeysOpposite(keys: seq<Key>, x: Line, y: Line)
    requires KeysOk(keys)
    ensures Sign(ByKeys(keys, x, y)) == -Sign(ByKeys(keys, y, x))
  {
    if keys != [] {
      ByKeyOpposite(keys[0], x, y);
      ByKeysOpposite(keys[1..], x, y);
    }
  }

  lemma ByKeyTight(k: Key, x: Line, y: Line, z: Line)
    requires k.kind.Other? ==> Preorder(k.kind.order)
    requires ByKey(k, x, y) <= 0 && ByKey(k, y, z) <= 0
    ensures ByKey(k, x, z) <= 0
    ensures ByKey(k, x, z) == 0 ==> ByKey(k, x, y) == 0 && ByKey(k, y, z) == 0
  {
    hide ByKey, Preorder;
    ByKeyTransitive(k, x, y, z);
    ByKeyOpposite(k, x, y);
    ByKeyOpposite(k, y, z);
    ByKeyOpposite(k, x, z);
    if ByKey(k, x, z) == 0 {
      ByKeyTransitive(k, z, x, y);
      ByKeyTransitive(k, y, z, x);
    }
  }

  lemma {:induction false} ByKeysTransitive(keys: seq<Key>, x: Line, y: Line, z: Line)
    requires KeysOk(keys) && ByKeys(keys, x, y) <= 0 && ByKeys(keys, y, z) <= 0
    ensures ByKeys(keys, x, z) <= 0
    ensures ByKeys(keys, x, z) == 0 ==> ByKeys(keys, x, y) == 0 && ByKeys(keys, y, z) == 0
  {
    if keys != [] {
      ByKeyTight(keys[0], x, y, z);
      hide ByKey, Preorder;
      if ByKey(keys[0], x, z) == 0 {
        ByKeysTransitive(keys[1..], x, y, z);
      }
    }
  }

  lemma OptionsOpposite(o: Options, x: Line, y: Line)
    requires KeysOk(o.keys)
    ensures Sign(ByOptions(o, x, y)) == -Sign(ByOptions(o, y, x))
  {
    ByKeysOpposite(o.keys, x, y);
    LexOpposite(x.text, y.text);
  }

  lemma OptionsTransitive(o: Options, x: Line, y: Line, z: Line)
    requires KeysOk(o.keys) && ByOptions(o, x, y) <= 0 && ByOptions(o, y, z) <= 0
    ensures ByOptions(o, x, z) <= 0
  {
    ByKeysTransitive(o.keys, x, y, z);
    LexOpposite(x.text, y.text);
    LexOpposite(y.text, z.text);
    LexOpposite(x.text, z.text);
    if Lex(x.text, y.text) <= 0 && Lex(y.text, z.text) <= 0 {
      LexTransitive(x.text, y.text, z.text);
    }
    if Lex(z.text, y.text) <= 0 && Lex(y.text, x.text) <= 0 {
      LexTransitive(z.text, y.text, x.text);
    }
  }

  // The order of sort, for any list of keys, is a total preorder, so all that is proved of
  // sorting and merging by a total preorder holds of it.
  lemma OrderIsPreorder(o: Options)
    requires KeysOk(o.keys)
    ensures TotalPreorder(OrderOf(o))
  {
    var cmp := OrderOf(o);
    forall a, b
      ensures cmp(a, b) < 0 <==> cmp(b, a) > 0
    {
      OptionsOpposite(o, a, b);
    }
    forall a, b, c | cmp(a, b) <= 0 && cmp(b, c) <= 0
      ensures cmp(a, c) <= 0
    {
      OptionsTransitive(o, a, b, c);
    }
  }

  // With the last resort in force, only identical lines compare equal.
  lemma LastResortIsExact(o: Options, x: Line, y: Line)
    requires o.keys == [] || (!o.unique && !o.stable)
    ensures OrderOf(o)(x, y) == 0 ==> x == y
  {
    LexZero(x.text, y.text);
  }

  // ---------------------------------------------------------------- which order it is

  // a and b agree up to i, and there one of them ends or they differ.
  predicate FirstDifference(a: Bytes, b: Bytes, i: nat) {
    && i <= |a| && i <= |b| && a[..i] == b[..i]
    && (i == |a| || i == |b| || a[i] != b[i])
  }

  // Which of two texts comes first in ascending order, from their first difference: a proper
  // prefix before what it is a prefix of, and the smaller byte before the greater one.
  function ByFirst(a: Bytes, b: Bytes, i: nat): int
    requires FirstDifference(a, b, i)
  {
    if i < |a| && i < |b| then (if a[i] < b[i] then -1 else 1)
    else if |a| < |b| then -1 else if |a| > |b| then 1 else 0
  }

  lemma {:induction false} LexMeans(a: Bytes, b: Bytes, i: nat)
    requires FirstDifference(a, b, i)
    ensures Sign(Lex(a, b)) == ByFirst(a, b, i)
  {
    if i > 0 {
      assert a[0] == a[..i][0] == b[..i][0] == b[0];
      assert a[1..][..i - 1] == a[..i][1..] == b[..i][1..] == b[1..][..i - 1];
      LexMeans(a[1..], b[1..], i - 1);
    }
  }

  /** The key text that counts has, byte by byte, nothing for an ignored one and the translation
      of any other. */
  lemma {:induction false} CleanMeans(k: Key, s: Bytes, c: Byte, t: Bytes)
    ensures Clean(k, []) == []
    ensures Clean(k, s + [c] + t)
            == Clean(k, s)
               + (if k.ignore.Some? && k.ignore.value[c] then []
                  else if k.translate.Some? then [k.translate.value[c]]
                  else [c])
               + Clean(k, t)
  {
    var all := s + [c] + t;
    if s == [] {
      assert all[0] == c && all[1..] == t;
    } else {
      assert all[0] == s[0] && all[1..] == s[1..] + [c] + t;
      CleanMeans(k, s[1..], c, t);
    }
  }

  // Key i tells the lines apart, and none before it does.
  predicate Decides(keys: seq<Key>, x: Line, y: Line, i: nat) {
    && i < |keys| && ByKey(keys[i], x, y) != 0
    && forall j :: 0 <= j < i ==> ByKey(keys[j], x, y) == 0
  }

  predicate NoneDecides(keys: seq<Key>, x: Line, y: Line) { forall j :: 0 <= j < |keys| ==> ByKey(keys[j], x, y) == 0 }

  lemma {:induction false} DecidedByKey(keys: seq<Key>, x: Line, y: Line, i: nat)
    ensures Decides(keys, x, y, i) ==> ByKeys(keys, x, y) == ByKey(keys[i], x, y)
    ensures NoneDecides(keys, x, y) ==> ByKeys(keys, x, y) == 0
  {
    if keys != [] {
      hide ByKey;
      assert forall j :: 0 < j < |keys| ==> keys[1..][j - 1] == keys[j];
      if i > 0 || NoneDecides(keys, x, y) {
        DecidedByKey(keys[1..], x, y, if i > 0 then i - 1 else 0);
      }
    }
  }

  /** A plain key: the sign is that of the first difference of the texts that count, turned round
      if the key is reversed. */
  lemma PlainKey(k: Key, x: Line, y: Line, i: nat)
    requires k.kind.Plain? && FirstDifference(Clean(k, KeyText(k, x)), Clean(k, KeyText(k, y)), i)
    ensures var d := ByFirst(Clean(k, KeyText(k, x)), Clean(k, KeyText(k, y)), i);
            Sign(ByKey(k, x, y)) == if k.reverse then -d else d
  {
    LexMeans(Clean(k, KeyText(k, x)), Clean(k, KeyText(k, y)), i);
  }

  /** Where a key decides, the order is that of this key, whatever the other options. */
  lemma KeyDecides(o: Options, x: Line, y: Line, i: nat)
    requires Decides(o.keys, x, y, i)
    ensures Sign(OrderOf(o)(x, y)) == Sign(ByKey(o.keys[i], x, y)) != 0
  {
    DecidedByKey(o.keys, x, y, i);
  }

  /** Where none decides, lines are equal under -s and -u, if there are keys; otherwise the first
      difference of the lines decides, turned round under -r. */
  lemma LastResort(o: Options, x: Line, y: Line, i: nat)
    requires NoneDecides(o.keys, x, y) && FirstDifference(x.text, y.text, i)
    ensures var d := ByFirst(x.text, y.text, i);
            Sign(OrderOf(o)(x, y))
            == if o.keys != [] && (o.unique || o.stable) then 0 else if o.reverse then -d else d
  {
    DecidedByKey(o.keys, x, y, 0);
    LexMeans(x.text, y.text, i);
  }

  /** Two sets of options that differ in the global -r alone: opposite where the last resort
      decides, the same where a key does. */
  lemma ReverseTurnsLastResort(o: Options, x: Line, y: Line)
    ensures var o' := o.(reverse := !o.reverse);
            Sign(OrderOf(o')(x, y))
            == if NoneDecides(o.keys, x, y) then -Sign(OrderOf(o)(x, y)) else Sign(OrderOf(o)(x, y))
  {
    var o' := o.(reverse := !o.reverse);
    if NoneDecides(o.keys, x, y) {
      var i := Difference(x.text, y.text);
      LastResort(o, x, y, i);
      LastResort(o', x, y, i);
    } else {
      var i := FirstDeciding(o.keys, x, y, 0);
      KeyDecides(o, x, y, i);
      KeyDecides(o', x, y, i);
    }
  }

  /** Two lists of keys that differ in the -r of key i alone: opposite where this key decides, the
      same elsewhere. */
  lemma ReverseTurnsKey(o: Options, x: Line, y: Line, i: nat)
    requires i < |o.keys|
    ensures var k := o.keys[i];
            var o' := o.(keys := o.keys[i := k.(reverse := !k.reverse)]);
            Sign(OrderOf(o')(x, y))
            == if Decides(o.keys, x, y, i) then -Sign(OrderOf(o)(x, y)) else Sign(OrderOf(o)(x, y))
  {
    var k := o.keys[i];
    var k' := k.(reverse := !k.reverse);
    var o' := o.(keys := o.keys[i := k']);
    TurnedKey(k, x, y);
    hide ByKey;
    if NoneDecides(o.keys, x, y) {
      var d := Difference(x.text, y.text);
      LastResort(o, x, y, d);
      LastResort(o', x, y, d);
    } else {
      var j := FirstDeciding(o.keys, x, y, 0);
      KeyDecides(o, x, y, j);
      KeyDecides(o', x, y, j);
    }
  }

  lemma TurnedKey(k: Key, x: Line, y: Line)
    ensures ByKey(k.(reverse := !k.reverse), x, y) == -ByKey(k, x, y)
  {
    var k' := k.(reverse := !k.reverse);
    SameClean(k, k', KeyText(k, x));
    SameClean(k, k', KeyText(k, y));
  }

  lemma {:induction false} SameClean(k: Key, k': Key, s: Bytes)
    requires k'.ignore == k.ignore && k'.translate == k.translate
    ensures Clean(k', s) == Clean(k, s)
  {
    if s != [] {
      SameClean(k, k', s[1..]);
    }
  }

  lemma {:induction false} Difference(a: Bytes, b: Bytes) returns (i: nat)
    ensures FirstDifference(a, b, i)
  {
    i := 0;
    if a != [] && b != [] && a[0] == b[0] {
      i := Difference(a[1..], b[1..]);
      i := i + 1;
      assert a[..i] == [a[0]] + a[1..][..i - 1] && b[..i] == [b[0]] + b[1..][..i - 1];
    }
  }

  lemma {:induction false} FirstDeciding(keys: seq<Key>, x: Line, y: Line, from: nat) returns (i: nat)
    requires !NoneDecides(keys, x, y) && from <= |keys|
    requires forall j :: 0 <= j < from ==> ByKey(keys[j], x, y) == 0
    ensures Decides(keys, x, y, i)
    decreases |keys| - from
  {
    i := from;
    if ByKey(keys[from], x, y) == 0 {
      i := FirstDeciding(keys, x, y, from + 1);
    }
  }

  // ---------------------------------------------------------------- check

  // Every line comes after the one before it, or under -u strictly after.
  predicate InSequence(cmp: Order, unique: bool, s: seq<Line>) {
    forall i :: 0 < i < |s| ==> if unique then cmp(s[i - 1], s[i]) < 0 else cmp(s[i - 1], s[i]) <= 0
  }

  // One buffer: its first line against the saved one, then each line against the next.
  method CheckBuffer(cmp: Order, unique: bool, temp: Option<Line>, buf: seq<Line>, ghost seen: seq<Line>) returns (ok: bool)
    requires buf != [] && InSequence(cmp, unique, seen)
    requires if seen == [] then temp.None? else temp == Some(seen[|seen| - 1])
    ensures ok <==> InSequence(cmp, unique, seen + buf)
  {
    var nonunique := if unique then 0 else 1;
    if temp.Some? && nonunique <= cmp(temp.value, buf[0]) {
      Disorder(cmp, unique, seen + buf, |seen|);
      return false;
    }
    OneMore(cmp, unique, seen, buf[0]);
    assert buf[..1] == [buf[0]];
    var i := 0;
    while i + 1 < |buf|
      invariant 0 <= i < |buf| && InSequence(cmp, unique, seen + buf[..i + 1])
    {
      if nonunique <= cmp(buf[i], buf[i + 1]) {
        Disorder(cmp, unique, seen + buf, |seen| + i + 1);
        return false;
      }
      OneMore(cmp, unique, seen + buf[..i + 1], buf[i + 1]);
      assert seen + buf[..i + 1] + [buf[i + 1]] == seen + buf[..i + 2];
      i := i + 1;
    }
    assert buf[..i + 1] == buf;
    ok := true;
  }

  /** check: compare each line with its successor, across buffers by way of a saved copy of
      the last line. */
  method Check(cmp: Order, unique: bool, blocks: seq<seq<Line>>) returns (ordered: bool)
    requires forall i :: 0 <= i < |blocks| ==> blocks[i] != []
    ensures ordered <==> InSequence(cmp, unique, Flatten(blocks))
  {
    var temp: Option<Line> := None;
    var k := 0;
    ghost var seen := [];
    assert blocks[0..] == blocks;
    while k < |blocks|
      invariant k <= |blocks| && seen + Flatten(blocks[k..]) == Flatten(blocks)
      invariant InSequence(cmp, unique, seen)
      invariant if seen == [] then temp.None? else temp == Some(seen[|seen| - 1])
    {
      hide InSequence;
      var buf := blocks[k];
      FlattenNext(blocks, k, seen);
      var ok := CheckBuffer(cmp, unique, temp, buf, seen);
      if !ok {
        DisorderStays(cmp, unique, seen + buf, Flatten(blocks[k + 1..]));
        return false;
      }
      temp := Some(buf[|buf| - 1]);
      seen, k := seen + buf, k + 1;
    }
    assert seen + [] == seen;
    ordered := true;
  }

  lemma DisorderStays(cmp: Order, unique: bool, s: seq<Line>, t: seq<Line>)
    requires !InSequence(cmp, unique, s)
    ensures !InSequence(cmp, unique, s + t)
  {
    var i :| 0 < i < |s| && (if unique then 0 else 1) <= cmp(s[i - 1], s[i]);
    Disorder(cmp, unique, s + t, i);
  }

  lemma {:induction false} FlattenNext(blocks: seq<seq<Line>>, k: nat, seen: seq<Line>)
    requires k < |blocks|
    ensures seen + Flatten(blocks[k..]) == (seen + blocks[k]) + Flatten(blocks[k + 1..])
  {
    assert blocks[k..][0] == blocks[k] && blocks[k..][1..] == blocks[k + 1..];
  }

  lemma Disorder(cmp: Order, unique: bool, s: seq<Line>, i: nat)
    requires 0 < i < |s| && (if unique then 0 else 1) <= cmp(s[i - 1], s[i])
    ensures !InSequence(cmp, unique, s)
  {
  }

  lemma OneMore(cmp: Order, unique: bool, s: seq<Line>, x: Line)
    requires InSequence(cmp, unique, s)
    requires s != [] ==> cmp(s[|s| - 1], x) < (if unique then 0 else 1)
    ensures InSequence(cmp, unique, s + [x])
  {
    var t := s + [x];
    forall i | 0 < i < |t|
      ensures if unique then cmp(t[i - 1], t[i]) < 0 else cmp(t[i - 1], t[i]) <= 0
    {
      if i < |s| {
        assert t[i - 1] == s[i - 1] && t[i] == s[i];
      }
    }
  }

  // For a total preorder, checking neighbours is checking all pairs.
  lemma InSequenceIsSorted(cmp: Order, s: seq<Line>)
    requires TotalPreorder(cmp)
    ensures InSequence(cmp, false, s) <==> Sorted(cmp, s)
    ensures InSequence(cmp, true, s) <==> forall i, j :: 0 <= i < j < |s| ==> cmp(s[i], s[j]) < 0
  {
    if InSequence(cmp, false, s) {
      NeighboursAscending(cmp, s);
      AscendingSorted(cmp, s);
    }
    if InSequence(cmp, true, s) {
      forall i, j | 0 <= i < j < |s|
        ensures cmp(s[i], s[j]) < 0
      {
        StrictPair(cmp, s, i, j);
      }
    }
  }

  lemma {:induction false} StrictPair(cmp: Order, s: seq<Line>, i: nat, j: nat)
    requires TotalPreorder(cmp) && InSequence(cmp, true, s) && i < j < |s|
    ensures cmp(s[i], s[j]) < 0
    decreases j - i
  {
    assert cmp(s[j - 1], s[j]) < 0;
    if i < j - 1 {
      StrictPair(cmp, s, i, j - 1);
      Transitive(cmp, s[i], s[j - 1], s[j]);
    }
  }
}
