/** The encoding of torrent files and tracker answers (wubi/src/bittorrent/bencode.py); the format is the "bencoding"
    section of BEP 3. */
module Bencoding {
  import opened Wrappers
  import opened Bytes

  type Key = seq<byte>

  /** What can be encoded; `Cached` is a `Bencached`, encoded already. */
  datatype Value =
    | Int(n: int)
    | Str(s: seq<byte>)
    | List(items: seq<Value>)
    | Dict(entries: map<Key, Value>)
    | Cached(bencoded: seq<byte>)

  const CHAR_I: byte := 105
  const CHAR_L: byte := 108
  const CHAR_D: byte := 100
  const CHAR_E: byte := 101
  const COLON: byte := 58
  const MINUS: byte := 45
  const ZERO: byte := 48

  predicate DigitByte(b: byte) { 48 <= b <= 57 }

  // --- Numbers ---

  function Digits(n: nat): (s: seq<byte>)
    ensures s != [] && forall k :: 0 <= k < |s| ==> DigitByte(s[k])
    ensures s[0] == ZERO ==> n == 0 && |s| == 1
  {
    if n < 10 then [(48 + n) as byte] else Digits(n / 10) + [(48 + n % 10) as byte]
  }

  /** `str(n)`. */
  function Decimal(n: int): seq<byte>
  {
    if n < 0 then [MINUS] + Digits(-n) else Digits(n)
  }

  function NumberOf(s: seq<byte>): (n: int)
    ensures n >= 0
  {
    if s == [] then 0 else 10 * NumberOf(s[..|s| - 1]) + if DigitByte(s[|s| - 1]) then (s[|s| - 1] - 48) as int else 0
  }

  predicate AllDigits(s: seq<byte>)
  {
    s != [] && forall k :: 0 <= k < |s| ==> DigitByte(s[k])
  }

  /** `int(s)` of a plain decimal number. */
  function ParseInt(s: seq<byte>): Option<int>
  {
    if AllDigits(s) then
      Some(NumberOf(s))
    else if s != [] && s[0] == MINUS && AllDigits(s[1..]) then
      Some(-NumberOf(s[1..]))
    else None
  }

  lemma {:induction false} NumberOfDigits(n: nat)
    ensures NumberOf(Digits(n)) == n
  {
    if n >= 10 {
      NumberOfDigits(n / 10);
      assert Digits(n)[..|Digits(n)| - 1] == Digits(n / 10);
    } else {
      assert Digits(n)[..0] == [];
    }
  }

  lemma {:induction false} ParseDigits(d: seq<byte>)
    requires AllDigits(d)
    ensures d[0] != MINUS && ParseInt(d).Some? && ParseInt(d).value == NumberOf(d)
    ensures ParseInt([MINUS] + d).Some? && ParseInt([MINUS] + d).value == -NumberOf(d)
  {
    hide NumberOf;
    assert ([MINUS] + d)[1..] == d;
    assert ([MINUS] + d)[0] == MINUS;
  }

  /** What a decimal number looks like. */
  ghost predicate LooksDecimal(d: seq<byte>)
  {
    && d != [] && (forall k :: 0 <= k < |d| ==> d[k] == MINUS || DigitByte(d[k]))
    && (d[0] == MINUS ==> |d| > 1 && d[1] != ZERO)
    && (d[0] == ZERO ==> |d| == 1)
  }

  lemma {:induction false} ParseDecimal(n: int)
    ensures ParseInt(Decimal(n)) == Some(n) && LooksDecimal(Decimal(n))
    ensures n >= 0 ==> Decimal(n) == Digits(n) && AllDigits(Decimal(n)) && NumberOf(Decimal(n)) == n
  {
    var m := if n < 0 then -n else n;
    hide Digits, NumberOf, ParseInt;
    NumberOfDigits(m);
    ParseDigits(Digits(m));
    if n < 0 {
      assert Digits(m) == [Digits(m)[0]] + Digits(m)[1..];
    }
  }

  // --- Keys in order ---

  /** `a < b` of Python strings. */
  predicate Less(a: Key, b: Key)
  {
    b != [] && (a == [] || a[0] < b[0] || (a[0] == b[0] && Less(a[1..], b[1..])))
  }

  lemma {:induction false} LessTotal(a: Key, b: Key)
    ensures Less(a, b) || Less(b, a) || a == b
    ensures !(Less(a, b) && Less(b, a)) && !Less(a, a)
    decreases |a|
  {
    if a != [] {
      LessTotal(a[1..], if b != [] then b[1..] else []);
      LessTotal(a[1..], a[1..]);
      if b != [] && a[0] == b[0] && a[1..] == b[1..] {
        assert a == [a[0]] + a[1..] && b == [b[0]] + b[1..];
      }
    }
  }

  lemma {:induction false} LessTransitive(a: Key, b: Key, c: Key)
    requires Less(a, b) && Less(b, c)
    ensures Less(a, c)
    decreases |a|
  {
    if a != [] && a[0] == b[0] && b[0] == c[0] {
      LessTransitive(a[1..], b[1..], c[1..]);
    }
  }

  /** After equal beginnings the first byte that differs decides, and a beginning comes before what it begins. */
  lemma {:induction false} FirstByteDecides(p: Key, x: byte, s: Key, y: byte, t: Key)
    ensures x != y ==> (Less(p + [x] + s, p + [y] + t) <==> x < y)
    ensures Less(p, p + s) <==> s != []
    decreases |p|
  {
    if p == [] {
      assert p + [x] + s == [x] + s && p + [y] + t == [y] + t && p + s == s;
    } else {
      FirstByteDecides(p[1..], x, s, y, t);
      assert (p + [x] + s)[1..] == p[1..] + [x] + s && (p + [y] + t)[1..] == p[1..] + [y] + t;
      assert (p + s)[1..] == p[1..] + s;
    }
  }

  /** Ascending, so each once. */
  ghost predicate Sorted(keys: seq<Key>)
  {
    forall i, j :: 0 <= i < j < |keys| ==> Less(keys[i], keys[j])
  }

  ghost predicate KeysOf(entries: map<Key, Value>, keys: seq<Key>)
  {
    Sorted(keys) && forall k :: k in keys <==> k in entries
  }

  lemma {:induction false} NoKeys(b: seq<Key>)
    ensures b != [] ==> exists k :: k in b
  {
    if b != [] {
      assert b[0] in b;
    }
  }

  /** There is only one way to list the keys in order. */
  lemma {:induction false} SortedUnique(a: seq<Key>, b: seq<Key>)
    requires Sorted(a) && Sorted(b) && forall k :: k in a <==> k in b
    ensures a == b
    decreases |a|
  {
    if a == [] {
      NoKeys(b);
    } else {
      assert a[0] in b;
      assert b[0] in a;
      var i :| 0 <= i < |b| && b[i] == a[0];
      var j :| 0 <= j < |a| && a[j] == b[0];
      LessTotal(a[0], b[0]);
      LessTotal(a[0], a[0]);
      assert a[0] == b[0];
      var a', b' := a[1..], b[1..];
      forall k
        ensures k in a' <==> k in b'
      {
        assert k in a <==> k == a[0] || k in a';
        assert k in b <==> k == b[0] || k in b';
        LessTotal(a[0], a[0]);
      }
      SortedUnique(a', b');
    }
  }

  /** The keys of a dictionary in order. */
  ghost function Ordered(entries: map<Key, Value>): (keys: seq<Key>)
    ensures KeysOf(entries, keys)
  {
    ListKeys(entries.Keys)
  }

  ghost function ListKeys(keys: set<Key>): (r: seq<Key>)
    ensures Sorted(r) && forall k :: k in r <==> k in keys
  {
    if keys == {} then []
    else
      LeastExists(keys);
      var k :| IsLeast(keys, k);
      var rest := ListKeys(keys - {k});
      assert forall q :: q in rest ==> Less(k, q);
      [k] + rest
  }

  ghost predicate IsLeast(keys: set<Key>, k: Key)
  {
    k in keys && forall q :: q in keys && q != k ==> Less(k, q)
  }

  lemma {:induction false} LeastExists(keys: set<Key>)
    requires keys != {}
    ensures exists k :: IsLeast(keys, k)
    decreases keys
  {
    hide *;
    var k :| k in keys;
    if keys == {k} {
      LeastOfOne(k);
    } else {
      LeastExists(keys - {k});
      var m :| IsLeast(keys - {k}, m);
      LeastOfMore(keys, k, m);
    }
  }

  lemma {:induction false} LeastOfOne(k: Key)
    ensures IsLeast({k}, k)
  {
  }

  lemma {:induction false} LeastOfMore(keys: set<Key>, k: Key, m: Key)
    requires k in keys && IsLeast(keys - {k}, m)
    ensures IsLeast(keys, if Less(k, m) then k else m)
  {
    hide Less;
    LessTotal(k, m);
    forall q | q in keys - {k} && q != m && Less(k, m)
      ensures Less(k, q)
    {
      LessTransitive(k, m, q);
    }
  }

  // --- Encoding ---

  function EncodedStr(s: seq<byte>): seq<byte>
  {
    Decimal(|s|) + [COLON] + s
  }

  /** What `bencode` returns. */
  ghost function Encoded(v: Value): seq<byte>
    decreases v, 1, 0
  {
    match v
    case Int(n) => [CHAR_I] + Decimal(n) + [CHAR_E]
    case Str(s) => EncodedStr(s)
    case List(items) => [CHAR_L] + EncodedItems(v, 0)
    case Dict(entries) => [CHAR_D] + EncodedPairs(v, Ordered(entries))
    case Cached(bencoded) => bencoded
  }

  /** The items of a list from `i` on, and the end. */
  ghost function EncodedItems(v: Value, i: nat): seq<byte>
    requires v.List? && i <= |v.items|
    decreases v, 0, |v.items| - i
  {
    if i == |v.items| then [CHAR_E] else Encoded(v.items[i]) + EncodedItems(v, i + 1)
  }

  ghost predicate Among(keys: seq<Key>, entries: map<Key, Value>)
  {
    forall k :: k in keys ==> k in entries
  }

  /** The entries of a dictionary under `keys`, and the end. */
  ghost function EncodedPairs(v: Value, keys: seq<Key>): seq<byte>
    requires v.Dict? && Among(keys, v.entries)
    decreases v, 0, |keys|
  {
    if keys == [] then [CHAR_E]
    else
      assert keys[0] in keys;
      EncodedStr(keys[0]) + Encoded(v.entries[keys[0]]) + EncodedPairs(v, keys[1..])
  }

  /** `y` is `x` with some of its parts encoded already. */
  ghost predicate CacheOf(x: Value, y: Value)
    decreases x
  {
    || y == Cached(Encoded(x))
    || y == x
    || (x.List? && y.List? && |x.items| == |y.items| && forall i :: 0 <= i < |x.items| ==>
          CacheOf(x.items[i], y.items[i]))
    || (x.Dict? && y.Dict? && x.entries.Keys == y.entries.Keys && forall k :: k in x.entries ==>
          CacheOf(x.entries[k], y.entries[k]))
  }

  /** Encoding parts ahead does not change the encoding. */
  lemma {:induction false} CacheEncodesSame(x: Value, y: Value)
    requires CacheOf(x, y)
    ensures Encoded(y) == Encoded(x)
    decreases x, 1, 0
  {
    if y == Cached(Encoded(x)) || y == x {
    } else if x.List? {
      CacheItems(x, y, 0);
    } else {
      SortedUnique(Ordered(x.entries), Ordered(y.entries));
      CachePairs(x, y, Ordered(x.entries));
    }
  }

  lemma {:induction false} CacheItems(x: Value, y: Value, i: nat)
    requires x.List? && y.List? && |x.items| == |y.items| && i <= |x.items|
    requires forall k :: 0 <= k < |x.items| ==> CacheOf(x.items[k], y.items[k])
    ensures EncodedItems(x, i) == EncodedItems(y, i)
    decreases x, 0, |x.items| - i
  {
    if i < |x.items| {
      CacheEncodesSame(x.items[i], y.items[i]);
      CacheItems(x, y, i + 1);
    }
  }

  lemma {:induction false} CachePairs(x: Value, y: Value, keys: seq<Key>)
    requires x.Dict? && y.Dict? && x.entries.Keys == y.entries.Keys && Among(keys, x.entries)
    requires forall k :: k in x.entries ==> CacheOf(x.entries[k], y.entries[k])
    ensures EncodedPairs(x, keys) == EncodedPairs(y, keys)
    decreases x, 0, |keys|
  {
    if keys != [] {
      assert keys[0] in keys;
      CacheEncodesSame(x.entries[keys[0]], y.entries[keys[0]]);
      CachePairs(x, y, keys[1..]);
    }
  }

  // --- Decoding ---

  /** `x.index(c, f)`; None stands for the ValueError. */
  function IndexFrom(x: seq<byte>, c: byte, f: nat): (r: Option<nat>)
    ensures r.Some? ==> f <= r.value < |x| && x[r.value] == c && c !in x[f..r.value]
    decreases |x| - f
  {
    if f >= |x| then None
    else if x[f] == c then Some(f)
    else
      var r := IndexFrom(x, c, f + 1);
      assert r.Some? ==> x[f..r.value] == [x[f]] + x[f + 1..r.value];
      r
  }

  /** `decode_int`. */
  function DecodeInt(x: seq<byte>, f: nat): (r: Option<(Value, nat)>)
    ensures r.Some? ==> f < r.value.1
  {
    var f1 := f + 1;
    var newf := IndexFrom(x, CHAR_E, f1);
    if newf.None? then None
    else
      var n := ParseInt(x[f1..newf.value]);
      if n.None? then None
      else if x[f1] == MINUS && x[f1 + 1] == ZERO then None
      else if x[f1] == ZERO && newf.value != f1 + 1 then None
      else Some((Int(n.value), newf.value + 1))
  }

  /** `decode_string`; a string cut short by the end of the input still counts in full. */
  function DecodeString(x: seq<byte>, f: nat): (r: Option<(Key, nat)>)
    ensures r.Some? ==> f < r.value.1
  {
    var colon := IndexFrom(x, COLON, f);
    if colon.None? || !AllDigits(x[f..colon.value]) then None
    else if x[f] == ZERO && colon.value != f + 1 then None
    else
      var n, start := NumberOf(x[f..colon.value]), colon.value + 1;
      Some((x[start..Min(start + n, |x|)], start + n))
  }

  /** `decode_func[x[f]](x, f)`; None stands for any of the errors. */
  function Decode(x: seq<byte>, f: nat): (r: Option<(Value, nat)>)
    ensures r.Some? ==> f < r.value.1
    decreases |x| - f, 1
  {
    if f >= |x| then None
    else if x[f] == CHAR_L then
      var r := DecodeItems(x, f + 1, []);
      if r.None? then None else Some((List(r.value.0), r.value.1))
    else if x[f] == CHAR_D then
      var r := DecodePairs(x, f + 1, None, map[]);
      if r.None? then None else Some((Dict(r.value.0), r.value.1))
    else if x[f] == CHAR_I then DecodeInt(x, f)
    else if DigitByte(x[f]) then
      var r := DecodeString(x, f);
      if r.None? then None else Some((Str(r.value.0), r.value.1))
    else None
  }

  /** The loop of `decode_list`, with the items so far. */
  function DecodeItems(x: seq<byte>, f: nat, items: seq<Value>): (r: Option<(seq<Value>, nat)>)
    ensures r.Some? ==> f < r.value.1
    decreases |x| - f, 2
  {
    if f >= |x| then None
    else if x[f] == CHAR_E then Some((items, f + 1))
    else
      var v := Decode(x, f);
      if v.None? then None else DecodeItems(x, v.value.1, items + [v.value.0])
  }

  /** The loop of `decode_dict`, with the last key and the entries so far. */
  function DecodePairs(x: seq<byte>, f: nat, last: Option<Key>,
                       entries: map<Key, Value>): (r: Option<(map<Key, Value>, nat)>)
    ensures r.Some? ==> f < r.value.1
    decreases |x| - f, 2
  {
    if f >= |x| then None
    else if x[f] == CHAR_E then Some((entries, f + 1))
    else
      var k := DecodeString(x, f);
      if k.None? || (last.Some? && !Less(last.value, k.value.0)) then None
      else
        var v := Decode(x, k.value.1);
        if v.None? then None else DecodePairs(x, v.value.1, Some(k.value.0), entries[k.value.0 := v.value.0])
  }

  /** `bdecode`. */
  function BDecode(x: seq<byte>): Option<Value>
  {
    var r := Decode(x, 0);
    if r.None? || r.value.1 != |x| then None else Some(r.value.0)
  }

  // --- The round trip ---

  /** No part is encoded ahead. */
  ghost predicate Plain(v: Value)
    decreases v
  {
    match v
    case List(items) => forall i :: 0 <= i < |items| ==> Plain(items[i])
    case Dict(entries) => forall k :: k in entries ==> Plain(entries[k])
    case Cached(_) => false
    case _ => true
  }

  /** `e` stands in `x` from `f` on. */
  ghost predicate At(x: seq<byte>, f: nat, e: seq<byte>)
  {
    f + |e| <= |x| && x[f..f + |e|] == e
  }

  lemma {:induction false} AtJoin(x: seq<byte>, f: nat, a: seq<byte>, b: seq<byte>)
    ensures At(x, f, a + b) <==> At(x, f, a) && At(x, f + |a|, b)
  {
    if f + |a| + |b| <= |x| {
      var whole := x[f..f + |a| + |b|];
      assert whole[..|a|] == x[f..f + |a|] && whole[|a|..] == x[f + |a|..f + |a| + |b|];
      assert whole == whole[..|a|] + whole[|a|..];
    }
  }

  lemma {:induction false} AtByte(x: seq<byte>, f: nat, e: seq<byte>, k: nat)
    requires At(x, f, e) && k < |e|
    ensures f + k < |x| && x[f + k] == e[k]
  {
    assert x[f..f + |e|][k] == e[k];
  }

  lemma {:induction false} IndexIs(x: seq<byte>, c: byte, f: nat, g: nat)
    requires f <= g < |x| && x[g] == c && c !in x[f..g]
    ensures IndexFrom(x, c, f) == Some(g)
    decreases g - f
  {
    if f < g {
      assert x[f] in x[f..g];
      assert x[f + 1..g] == x[f..g][1..];
      IndexIs(x, c, f + 1, g);
    }
  }

  lemma {:induction false} DecodeIs(x: seq<byte>, f: nat)
    requires f < |x|
    ensures x[f] == CHAR_I ==> Decode(x, f) == DecodeInt(x, f)
    ensures x[f] == CHAR_L ==>
      var r := DecodeItems(x, f + 1, []);
      Decode(x, f) == if r.None? then None else Some((List(r.value.0), r.value.1))
    ensures x[f] == CHAR_D ==>
      var r := DecodePairs(x, f + 1, None, map[]);
      Decode(x, f) == if r.None? then None else Some((Dict(r.value.0), r.value.1))
    ensures DigitByte(x[f]) ==>
      var r := DecodeString(x, f);
      Decode(x, f) == if r.None? then None else Some((Str(r.value.0), r.value.1))
  {
  }

  lemma {:induction false} ItemsIs(x: seq<byte>, f: nat, items: seq<Value>)
    requires f < |x|
    ensures DecodeItems(x, f, items) ==
      if x[f] == CHAR_E then Some((items, f + 1))
      else
        var v := Decode(x, f);
        if v.None? then None else DecodeItems(x, v.value.1, items + [v.value.0])
  {
  }

  lemma {:induction false} PairsIs(x: seq<byte>, f: nat, last: Option<Key>, entries: map<Key, Value>)
    requires f < |x|
    ensures x[f] == CHAR_E ==> DecodePairs(x, f, last, entries) == Some((entries, f + 1))
  {
  }

  /** One turn of the loop of `decode_dict` on a well-formed entry. */
  lemma {:induction false} PairIs(x: seq<byte>, f: nat, last: Option<Key>, entries: map<Key, Value>, k: Key, v: Value,
                                  f1: nat, f2: nat)
    requires f < |x| && x[f] != CHAR_E && (last.Some? ==> Less(last.value, k))
    requires DecodeString(x, f) == Some((k, f1)) && Decode(x, f1) == Some((v, f2))
    ensures f < f2 && DecodePairs(x, f, last, entries) == DecodePairs(x, f2, Some(k), entries[k := v])
  {
    hide Decode, DecodeString, Less;
  }

  lemma {:induction false} EncodedIs(v: Value)
    ensures v.Int? ==> Encoded(v) == [CHAR_I] + Decimal(v.n) + [CHAR_E]
    ensures v.Str? ==> Encoded(v) == EncodedStr(v.s)
    ensures v.List? ==> Encoded(v) == [CHAR_L] + EncodedItems(v, 0)
    ensures v.Dict? ==>
      KeysOf(v.entries, Ordered(v.entries)) && Encoded(v) == [CHAR_D] + EncodedPairs(v, Ordered(v.entries))
    ensures v.Cached? ==> Encoded(v) == v.bencoded
  {
  }

  lemma {:induction false} EncodedItemsIs(v: Value, i: nat)
    requires v.List? && i <= |v.items|
    ensures EncodedItems(v, i) == if i == |v.items| then [CHAR_E] else Encoded(v.items[i]) + EncodedItems(v, i + 1)
  {
  }

  lemma {:induction false} EncodedPairsIs(v: Value, keys: seq<Key>, i: nat)
    requires v.Dict? && i <= |keys| && Among(keys[i..], v.entries)
    ensures i < |keys| ==> keys[i] in v.entries && Among(keys[i + 1..], v.entries)
    ensures EncodedPairs(v, keys[i..]) ==
      if i == |keys| then [CHAR_E] else EncodedStr(keys[i]) + Encoded(v.entries[keys[i]]) + EncodedPairs(v, keys[i + 1..])
  {
    if i < |keys| {
      assert keys[i..][0] == keys[i] && keys[i..][1..] == keys[i + 1..];
      assert keys[i] in keys[i..];
      assert forall k :: k in keys[i + 1..] ==> k in keys[i..][1..];
    }
  }

  lemma {:induction false} PlainIs(v: Value)
    requires Plain(v)
    ensures !v.Cached?
    ensures v.List? ==> forall i :: 0 <= i < |v.items| ==> Plain(v.items[i])
    ensures v.Dict? ==> forall k :: k in v.entries ==> Plain(v.entries[k])
  {
  }

  lemma {:induction false} KeysAre(entries: map<Key, Value>, keys: seq<Key>)
    ensures KeysOf(entries, keys) <==> Sorted(keys) && forall k :: k in keys <==> k in entries
    ensures KeysOf(entries, keys) ==> Among(keys, entries)
    ensures Sorted(keys) ==> forall i, j :: 0 <= i < j < |keys| ==> Less(keys[i], keys[j])
  {
  }

  lemma {:induction false} NotIn(d: seq<byte>)
    requires LooksDecimal(d)
    ensures CHAR_E !in d && COLON !in d
    ensures d != [] && (d[0] == MINUS ==> |d| > 1 && d[1] != ZERO) && (d[0] == ZERO ==> |d| == 1)
  {
  }

  lemma {:induction false} DecodeIntIs(x: seq<byte>, f: nat, newf: nat)
    requires IndexFrom(x, CHAR_E, f + 1) == Some(newf)
    ensures f + 1 <= newf < |x|
    ensures var n := ParseInt(x[f + 1..newf]);
      n.Some? && !(x[f + 1] == MINUS && x[f + 2] == ZERO) && !(x[f + 1] == ZERO && newf != f + 2) ==>
        DecodeInt(x, f) == Some((Int(n.value), newf + 1))
  {
  }

  lemma {:induction false} DecodeStringIs(x: seq<byte>, f: nat, colon: nat)
    requires IndexFrom(x, COLON, f) == Some(colon)
    ensures f <= colon < |x|
    ensures AllDigits(x[f..colon]) && !(x[f] == ZERO && colon != f + 1) ==>
      var n, start := NumberOf(x[f..colon]), colon + 1;
      DecodeString(x, f) == Some((x[start..Min(start + n, |x|)], start + n))
  {
  }

  lemma {:induction false} AtIs(x: seq<byte>, f: nat, e: seq<byte>)
    ensures At(x, f, e) <==> f + |e| <= |x| && x[f..f + |e|] == e
  {
  }

  lemma {:induction false} ByteKinds(b: byte)
    ensures DigitByte(b) ==> b != CHAR_E && b != CHAR_I && b != CHAR_L && b != CHAR_D
    ensures CHAR_I != CHAR_E && CHAR_L != CHAR_E && CHAR_D != CHAR_E
  {
  }

  lemma {:induction false} IntDecodes(x: seq<byte>, f: nat, n: int)
    requires At(x, f, [CHAR_I] + Decimal(n) + [CHAR_E])
    ensures Decode(x, f) == Some((Int(n), f + |[CHAR_I] + Decimal(n) + [CHAR_E]|))
  {
    hide *;
    var d := Decimal(n);
    ParseDecimal(n);
    NotIn(d);
    AtJoin(x, f, [CHAR_I] + d, [CHAR_E]);
    AtJoin(x, f, [CHAR_I], d);
    AtByte(x, f, [CHAR_I], 0);
    AtByte(x, f + 1 + |d|, [CHAR_E], 0);
    AtByte(x, f + 1, d, 0);
    if |d| > 1 {
      AtByte(x, f + 1, d, 1);
    }
    AtIs(x, f + 1, d);
    IndexIs(x, CHAR_E, f + 1, f + 1 + |d|);
    DecodeIntIs(x, f, f + 1 + |d|);
    DecodeIs(x, f);
  }

  lemma {:induction false} StringDecodes(x: seq<byte>, f: nat, s: seq<byte>)
    requires At(x, f, EncodedStr(s))
    ensures DecodeString(x, f) == Some((s, f + |EncodedStr(s)|)) && f < |x| && DigitByte(x[f])
  {
    hide *;
    var d := Decimal(|s|);
    EncodedStrIs(s);
    LengthIs(|s|);
    AtThree(x, f, d, [COLON], s);
    AtByte(x, f, d, 0);
    AtByte(x, f + |d|, [COLON], 0);
    ColonIs(x, f, d);
    PartIs(x, f, d, f + |d|, s);
  }

  lemma {:induction false} EncodedStrIs(s: seq<byte>)
    ensures EncodedStr(s) == Decimal(|s|) + [COLON] + s
  {
  }

  /** How a length is written. */
  lemma {:induction false} LengthIs(n: nat)
    ensures var d := Decimal(n);
      AllDigits(d) && NumberOf(d) == n && COLON !in d && d != [] && DigitByte(d[0]) && (d[0] == ZERO ==> |d| == 1)
  {
    hide Decimal, NumberOf, ParseInt;
    ParseDecimal(n);
    NotIn(Decimal(n));
  }

  lemma {:induction false} ColonIs(x: seq<byte>, f: nat, d: seq<byte>)
    requires At(x, f, d) && COLON !in d && f + |d| < |x| && x[f + |d|] == COLON
    ensures IndexFrom(x, COLON, f) == Some(f + |d|) && x[f..f + |d|] == d
  {
    IndexIs(x, COLON, f, f + |d|);
  }

  lemma {:induction false} PartIs(x: seq<byte>, f: nat, d: seq<byte>, colon: nat, s: seq<byte>)
    requires IndexFrom(x, COLON, f) == Some(colon) && f < colon < |x| && x[f..colon] == d && AllDigits(d)
    requires x[f] == ZERO ==> |d| == 1
    requires NumberOf(d) == |s| && At(x, colon + 1, s)
    ensures DecodeString(x, f) == Some((s, colon + 1 + |s|))
  {
    hide *;
    DecodeStringIs(x, f, colon);
    AtIs(x, colon + 1, s);
    MinIs(colon + 1 + |s|, |x|);
  }

  /** Each decoder consumes exactly the encoding that stands there, whatever follows it. */
  lemma {:induction false} EncodedDecodes(x: seq<byte>, f: nat, v: Value)
    requires Plain(v) && At(x, f, Encoded(v))
    ensures Decode(x, f) == Some((v, f + |Encoded(v)|)) && f < |x|
    decreases v, 1, 0
  {
    hide *;
    EncodedIs(v);
    PlainIs(v);
    EncodedStart(v);
    AtByte(x, f, Encoded(v), 0);
    DecodeIs(x, f);
    match v
    case Int(n) =>
      IntDecodes(x, f, n);
    case Str(s) =>
      StringDecodes(x, f, s);
    case List(items) =>
      AtJoin(x, f, [CHAR_L], EncodedItems(v, 0));
      assert v.items[..0] == [];
      ItemsDecode(x, f + 1, v, 0);
    case Dict(entries) =>
      var keys := Ordered(entries);
      assert keys[0..] == keys;
      KeysAre(entries, keys);
      PartlyNone(v, keys);
      AtJoin(x, f, [CHAR_D], EncodedPairs(v, keys));
      PairsDecode(x, f + 1, v, keys, 0, map[]);
  }

  /** An encoding starts with a byte that is not the end of a list. */
  lemma {:induction false} EncodedStart(v: Value)
    requires Plain(v)
    ensures Encoded(v) != [] && Encoded(v)[0] != CHAR_E
  {
    EncodedIs(v);
    if v.Str? {
      ParseDecimal(|v.s|);
      hide Encoded, Decimal, ParseInt;
    }
  }

  lemma {:induction false} ItemsDecode(x: seq<byte>, f: nat, v: Value, i: nat)
    requires v.List? && Plain(v) && i <= |v.items| && At(x, f, EncodedItems(v, i))
    ensures DecodeItems(x, f, v.items[..i]) == Some((v.items, f + |EncodedItems(v, i)|))
    decreases v, 0, |v.items| - i
  {
    hide *;
    EncodedItemsIs(v, i);
    PlainIs(v);
    if i == |v.items| {
      AtByte(x, f, [CHAR_E], 0);
      assert v.items[..i] == v.items;
      ItemsIs(x, f, v.items[..i]);
    } else {
      var e := Encoded(v.items[i]);
      AtJoin(x, f, e, EncodedItems(v, i + 1));
      EncodedStart(v.items[i]);
      AtByte(x, f, e, 0);
      EncodedDecodes(x, f, v.items[i]);
      ItemsIs(x, f, v.items[..i]);
      ItemsDecode(x, f + |e|, v, i + 1);
      assert v.items[..i] + [v.items[i]] == v.items[..i + 1];
    }
  }

  /** The entries of `v` under the first `i` of `keys`. */
  ghost predicate Partly(v: Value, keys: seq<Key>, i: nat, acc: map<Key, Value>)
  {
    && v.Dict? && i <= |keys|
    && (forall k :: k in acc <==> k in keys[..i])
    && (forall k :: k in acc ==> k in v.entries && acc[k] == v.entries[k])
  }

  lemma {:induction false} PartlyNone(v: Value, keys: seq<Key>)
    requires v.Dict?
    ensures Partly(v, keys, 0, map[])
  {
  }

  lemma {:induction false} PartlyStep(v: Value, keys: seq<Key>, i: nat, acc: map<Key, Value>)
    requires Partly(v, keys, i, acc) && KeysOf(v.entries, keys)
    ensures i < |keys| ==> keys[i] in v.entries && Partly(v, keys, i + 1, acc[keys[i] := v.entries[keys[i]]])
    ensures i == |keys| ==> acc == v.entries
    ensures i <= |keys| && Among(keys[i..], v.entries)
    ensures 0 < i < |keys| ==> Less(keys[i - 1], keys[i])
  {
    if i < |keys| {
      assert keys[..i + 1] == keys[..i] + [keys[i]];
      assert keys[i] in keys;
    } else {
      assert keys[..i] == keys;
    }
  }

  lemma {:induction false} PairsDecode(x: seq<byte>, f: nat, v: Value, keys: seq<Key>, i: nat, acc: map<Key, Value>)
    requires v.Dict? && Plain(v) && KeysOf(v.entries, keys) && i <= |keys| && Partly(v, keys, i, acc)
    requires Among(keys[i..], v.entries)
    requires At(x, f, EncodedPairs(v, keys[i..]))
    ensures DecodePairs(x, f, if i == 0 then None else Some(keys[i - 1]), acc) == Some((v.entries, f + |EncodedPairs(v, keys[i..])|))
    decreases v, 0, |keys| - i
  {
    hide *;
    PartlyStep(v, keys, i, acc);
    EncodedPairsIs(v, keys, i);
    PlainIs(v);
    var last := if i == 0 then None else Some(keys[i - 1]);
    if i == |keys| {
      AtByte(x, f, [CHAR_E], 0);
      PairsIs(x, f, last, acc);
    } else {
      var k := keys[i];
      var s, e := EncodedStr(k), Encoded(v.entries[k]);
      AtThree(x, f, s, e, EncodedPairs(v, keys[i + 1..]));
      KeyDecodes(x, f, k);
      EncodedDecodes(x, f + |s|, v.entries[k]);
      PairIs(x, f, last, acc, k, v.entries[k], f + |s|, f + |s| + |e|);
      PairsDecode(x, f + |s| + |e|, v, keys, i + 1, acc[k := v.entries[k]]);
    }
  }

  lemma {:induction false} AtThree(x: seq<byte>, f: nat, a: seq<byte>, b: seq<byte>, c: seq<byte>)
    requires At(x, f, a + b + c)
    ensures At(x, f, a) && At(x, f + |a|, b) && At(x, f + |a| + |b|, c) && |a + b + c| == |a| + |b| + |c|
  {
    hide *;
    AtJoin(x, f, a + b, c);
    AtJoin(x, f, a, b);
  }

  lemma {:induction false} KeyDecodes(x: seq<byte>, f: nat, k: Key)
    requires At(x, f, EncodedStr(k))
    ensures f < |x| && x[f] != CHAR_E && DecodeString(x, f) == Some((k, f + |EncodedStr(k)|))
  {
    hide *;
    StringDecodes(x, f, k);
    ByteKinds(x[f]);
  }

  /** `bdecode(bencode(v)) == v`. */
  lemma {:induction false} RoundTrip(v: Value)
    requires Plain(v)
    ensures BDecode(Encoded(v)) == Some(v)
  {
    var x := Encoded(v);
    assert x[0..|x|] == x;
    EncodedDecodes(x, 0, v);
  }

  /** No encoding is the beginning of another. */
  lemma {:induction false} PrefixFree(v: Value, w: Value)
    requires Plain(v) && Plain(w) && Encoded(v) <= Encoded(w)
    ensures v == w
  {
    var x := Encoded(w);
    assert x[0..|x|] == x && x[0..|Encoded(v)|] == Encoded(v);
    EncodedDecodes(x, 0, v);
    EncodedDecodes(x, 0, w);
  }

  // --- Nothing but encodings is decoded ---

  lemma {:induction false} DigitsOfNumber(d: seq<byte>)
    requires AllDigits(d) && (d[0] == ZERO ==> |d| == 1)
    ensures Digits(NumberOf(d)) == d && (d[0] != ZERO ==> NumberOf(d) > 0)
    decreases |d|
  {
    var front, last := d[..|d| - 1], d[|d| - 1];
    assert d == front + [last];
    if |d| == 1 {
      assert front == [];
      assert NumberOf(front) == 0 && NumberOf(d) == (last - 48) as int;
    } else {
      assert front[0] == d[0];
      DigitsOfNumber(front);
      hide Digits;
      LastDigit(NumberOf(front), last);
    }
  }

  lemma {:induction false} LastDigit(n: nat, b: byte)
    requires n > 0 && DigitByte(b)
    ensures Digits(10 * n + (b - 48) as int) == Digits(n) + [b]
  {
    var m := 10 * n + (b - 48) as int;
    assert m / 10 == n && m % 10 == (b - 48) as int;
  }

  lemma {:induction false} IndexFound(x: seq<byte>, c: byte, f: nat)
    requires IndexFrom(x, c, f).Some?
    ensures var g := IndexFrom(x, c, f).value;
      f <= g < |x| && x[g] == c && x[f..g + 1] == x[f..g] + [c]
  {
  }

  /** A number without leading zeros or "-0" is written as it was read. */
  lemma {:induction false} ParsedDecimal(d: seq<byte>)
    requires ParseInt(d).Some? && d != [] && (d[0] == MINUS ==> |d| > 1 && d[1] != ZERO) && (d[0] == ZERO ==> |d| == 1)
    ensures Decimal(ParseInt(d).value) == d
  {
    if AllDigits(d) {
      DigitsOfNumber(d);
    } else {
      assert d[1..][0] == d[1];
      DigitsOfNumber(d[1..]);
      assert d == [MINUS] + d[1..];
    }
    hide Digits, NumberOf;
  }

  lemma {:induction false} DecodeIntSome(x: seq<byte>, f: nat)
    requires DecodeInt(x, f).Some?
    ensures var (v, g) := DecodeInt(x, f).value;
      && f + 2 < g <= |x| && x[g - 1] == CHAR_E
      && var d := x[f + 1..g - 1];
         && ParseInt(d).Some? && v == Int(ParseInt(d).value)
         && (d[0] == MINUS ==> |d| > 1 && d[1] != ZERO) && (d[0] == ZERO ==> |d| == 1)
  {
    hide NumberOf, IndexFrom;
    IndexFound(x, CHAR_E, f + 1);
    var e := IndexFrom(x, CHAR_E, f + 1).value;
    var d := x[f + 1..e];
    assert d != [];
    assert d[0] == x[f + 1];
    assert |d| > 1 ==> d[1] == x[f + 2];
    assert d[1..] == [] ==> !AllDigits(d[1..]);
  }

  lemma {:induction false} IntDecoded(x: seq<byte>, f: nat)
    requires f < |x| && x[f] == CHAR_I && DecodeInt(x, f).Some?
    ensures var (v, g) := DecodeInt(x, f).value;
      v.Int? && At(x, f, Encoded(v)) && g == f + |Encoded(v)|
  {
    hide *;
    DecodeIntSome(x, f);
    var (v, g) := DecodeInt(x, f).value;
    var d := x[f + 1..g - 1];
    ParsedDecimal(d);
    EncodedIs(v);
    assert x[f..g] == [CHAR_I] + d + [CHAR_E];
    AtIs(x, f, Encoded(v));
  }

  lemma {:induction false} StringDecoded(x: seq<byte>, f: nat)
    requires DecodeString(x, f).Some? && DecodeString(x, f).value.1 <= |x|
    ensures var (s, g) := DecodeString(x, f).value;
      At(x, f, EncodedStr(s)) && g == f + |EncodedStr(s)|
  {
    var colon := IndexFrom(x, COLON, f).value;
    var d := x[f..colon];
    var (s, g) := DecodeString(x, f).value;
    assert d[0] == x[f];
    DigitsOfNumber(d);
    hide NumberOf, Digits, IndexFrom;
    assert |s| == NumberOf(d) && Decimal(|s|) == d;
    assert x[f..g] == d + [COLON] + s;
  }

  /** A decoder that stays within the input consumes exactly the encoding of what it returns. */
  lemma {:induction false} Decoded(x: seq<byte>, f: nat)
    requires Decode(x, f).Some? && Decode(x, f).value.1 <= |x|
    ensures var (v, g) := Decode(x, f).value;
      Plain(v) && At(x, f, Encoded(v)) && g == f + |Encoded(v)|
    decreases |x| - f, 1
  {
    hide *;
    DecodeSome(x, f);
    DecodeIs(x, f);
    var (v, g) := Decode(x, f).value;
    PlainFrom(v);
    if x[f] == CHAR_I {
      IntDecoded(x, f);
    } else if x[f] == CHAR_L {
      ItemsDecoded(x, f + 1, []);
      EncodedIs(v);
      ByteAt(x, f);
      AtJoin(x, f, [CHAR_L], EncodedItems(v, 0));
    } else if x[f] == CHAR_D {
      NoKeysYet();
      var keys := PairsDecoded(x, f + 1, None, map[], []);
      assert [] + keys == keys;
      EncodedIs(v);
      KeysAre(v.entries, keys);
      KeysAre(v.entries, Ordered(v.entries));
      SortedUnique(keys, Ordered(v.entries));
      ByteAt(x, f);
      AtJoin(x, f, [CHAR_D], EncodedPairs(v, keys));
    } else {
      StringDecoded(x, f);
      EncodedIs(v);
      EncodedStrIs(v.s);
    }
  }

  lemma {:induction false} DecodeSome(x: seq<byte>, f: nat)
    requires Decode(x, f).Some?
    ensures f < |x| && (x[f] == CHAR_I || x[f] == CHAR_L || x[f] == CHAR_D || DigitByte(x[f]))
    ensures x[f] == CHAR_I ==> Decode(x, f).value.0.Int?
    ensures f < Decode(x, f).value.1
    ensures var v := Decode(x, f).value.0; v.Str? ==> Encoded(v) == EncodedStr(v.s)
  {
  }

  lemma {:induction false} PlainFrom(v: Value)
    ensures v.Int? || v.Str? ==> Plain(v)
    ensures v.List? && (forall i :: 0 <= i < |v.items| ==> Plain(v.items[i])) ==> Plain(v)
    ensures v.Dict? && (forall k :: k in v.entries ==> Plain(v.entries[k])) ==> Plain(v)
  {
  }

  lemma {:induction false} ByteAt(x: seq<byte>, f: nat)
    requires f < |x|
    ensures At(x, f, [x[f]])
  {
  }

  lemma {:induction false} NoKeysYet()
    ensures KeysOf(map[], [])
  {
  }

  lemma {:induction false} ItemsDecoded(x: seq<byte>, f: nat, items: seq<Value>)
    requires DecodeItems(x, f, items).Some? && DecodeItems(x, f, items).value.1 <= |x|
    requires forall i :: 0 <= i < |items| ==> Plain(items[i])
    ensures var (all, g) := DecodeItems(x, f, items).value;
      && items <= all && (forall i :: 0 <= i < |all| ==> Plain(all[i]))
      && At(x, f, EncodedItems(List(all), |items|)) && g == f + |EncodedItems(List(all), |items|)|
    decreases |x| - f, 2
  {
    hide *;
    ItemsSome(x, f, items);
    ItemsIs(x, f, items);
    var (all, g) := DecodeItems(x, f, items).value;
    if x[f] == CHAR_E {
      EncodedItemsIs(List(all), |items|);
      ByteAt(x, f);
    } else {
      var (v, f') := Decode(x, f).value;
      DecodeSome(x, f);
      ItemsSome(x, f', items + [v]);
      Decoded(x, f);
      ItemsDecoded(x, f', items + [v]);
      assert all[|items|] == (items + [v])[|items|] == v;
      EncodedItemsIs(List(all), |items|);
      AtJoin(x, f, Encoded(v), EncodedItems(List(all), |items| + 1));
    }
  }

  lemma {:induction false} ItemsSome(x: seq<byte>, f: nat, items: seq<Value>)
    requires DecodeItems(x, f, items).Some?
    ensures f < |x| && f < DecodeItems(x, f, items).value.1
    ensures x[f] != CHAR_E ==> Decode(x, f).Some? && f < Decode(x, f).value.1 < DecodeItems(x, f, items).value.1
  {
  }

  lemma {:induction false} PairsSome(x: seq<byte>, f: nat, last: Option<Key>, entries: map<Key, Value>)
    requires DecodePairs(x, f, last, entries).Some?
    ensures f < |x| && f < DecodePairs(x, f, last, entries).value.1
    ensures x[f] == CHAR_E ==> DecodePairs(x, f, last, entries) == Some((entries, f + 1))
    ensures x[f] != CHAR_E ==>
      && DecodeString(x, f).Some?
      && var (k, f1) := DecodeString(x, f).value;
         && f < f1 && (last.Some? ==> Less(last.value, k)) && Decode(x, f1).Some?
         && var (v, f2) := Decode(x, f1).value;
            && f1 < f2 < DecodePairs(x, f, last, entries).value.1
            && DecodePairs(x, f, last, entries) == DecodePairs(x, f2, Some(k), entries[k := v])
  {
    hide Decode, DecodeString, Less;
  }

  lemma {:induction false} PairsDecoded(x: seq<byte>, f: nat, last: Option<Key>, acc: map<Key, Value>, ks: seq<Key>)
    returns (rest: seq<Key>)
    requires DecodePairs(x, f, last, acc).Some? && DecodePairs(x, f, last, acc).value.1 <= |x|
    requires KeysOf(acc, ks) && last == if ks == [] then None else Some(ks[|ks| - 1])
    requires forall k :: k in acc ==> Plain(acc[k])
    ensures var (all, g) := DecodePairs(x, f, last, acc).value;
      && KeysOf(all, ks + rest) && Among(rest, all) && (forall k :: k in all ==> Plain(all[k]))
      && (forall k :: k in acc ==> k in all && all[k] == acc[k])
      && At(x, f, EncodedPairs(Dict(all), rest)) && g == f + |EncodedPairs(Dict(all), rest)|
    decreases |x| - f, 2
  {
    hide *;
    PairsSome(x, f, last, acc);
    var (all, g) := DecodePairs(x, f, last, acc).value;
    if x[f] == CHAR_E {
      rest := [];
      assert ks + rest == ks && rest[0..] == rest;
      NoneAmong(all);
      EncodedPairsIs(Dict(all), rest, 0);
      ByteAt(x, f);
    } else {
      var (k, f1) := DecodeString(x, f).value;
      var (v, f2) := Decode(x, f1).value;
      StringDecoded(x, f);
      Decoded(x, f1);
      OneMoreKey(acc, ks, k, v);
      rest := PairsDecoded(x, f2, Some(k), acc[k := v], ks + [k]);
      assert ks + [k] + rest == ks + ([k] + rest);
      assert k in acc[k := v] && all[k] == v;
      assert ([k] + rest)[0..] == [k] + rest && ([k] + rest)[1..] == rest;
      OneMoreAmong(all, k, rest);
      EncodedPairsIs(Dict(all), [k] + rest, 0);
      rest := [k] + rest;
      AtJoin(x, f, EncodedStr(k) + Encoded(v), EncodedPairs(Dict(all), rest[1..]));
      AtJoin(x, f, EncodedStr(k), Encoded(v));
    }
  }

  lemma {:induction false} NoneAmong(entries: map<Key, Value>)
    ensures Among([], entries)
  {
  }

  lemma {:induction false} OneMoreAmong(entries: map<Key, Value>, k: Key, rest: seq<Key>)
    requires k in entries && Among(rest, entries)
    ensures Among([k] + rest, entries)
  {
  }

  lemma {:induction false} OneMoreKey(acc: map<Key, Value>, ks: seq<Key>, k: Key, v: Value)
    requires KeysOf(acc, ks) && (ks != [] ==> Less(ks[|ks| - 1], k))
    ensures KeysOf(acc[k := v], ks + [k]) && k !in acc && (ks + [k])[|ks + [k]| - 1] == k
  {
    hide Less;
    LessTotal(k, k);
    forall i | 0 <= i < |ks|
      ensures Less(ks[i], k)
    {
      if i < |ks| - 1 {
        LessTransitive(ks[i], ks[|ks| - 1], k);
      }
    }
    assert forall q :: q in ks + [k] <==> q in ks || q == k;
  }

  /** `bdecode` accepts exactly the encodings, and each as what it encodes. */
  lemma {:induction false} DecodesExactly(x: seq<byte>, v: Value)
    ensures BDecode(x) == Some(v) <==> Plain(v) && Encoded(v) == x
  {
    hide *;
    BDecodeIs(x);
    if Plain(v) && Encoded(v) == x {
      RoundTrip(v);
    }
    if BDecode(x) == Some(v) {
      Decoded(x, 0);
      AtIs(x, 0, Encoded(v));
      assert x[0..|x|] == x;
    }
  }

  lemma {:induction false} BDecodeIs(x: seq<byte>)
    ensures BDecode(x).Some? ==> Decode(x, 0) == Some((BDecode(x).value, |x|))
  {
  }

  // --- The format, written out ---

  /** The bytes of ASCII text. */
  function Ascii(s: string): (b: seq<byte>)
    requires forall k :: 0 <= k < |s| ==> s[k] < 128 as char
    ensures |b| == |s| && forall k :: 0 <= k < |s| ==> b[k] == s[k] as byte
  {
    seq(|s|, k requires 0 <= k < |s| => s[k] as byte)
  }

  lemma {:induction false} NumbersWritten()
    ensures Encoded(Int(4)) == Ascii("i4e") && Encoded(Int(0)) == Ascii("i0e") && Encoded(Int(-10)) == Ascii("i-10e")
    ensures Encoded(Int(205)) == Ascii("i205e")
  {
    hide *;
    MarksAre();
    DecimalIs(4);
    DecimalIs(0);
    MinusDecimalIs(10);
    DecimalIs(205);
    DigitsLast(2);
    DigitsLast(20);
    DigitsLast(205);
    DigitsLast(1);
    DigitsLast(10);
    DigitsLast(4);
    DigitsLast(0);
    assert Ascii("i4e") == [105, 52, 101] && Ascii("i0e") == [105, 48, 101];
    assert Ascii("i-10e") == [105, 45, 49, 48, 101] && Ascii("i205e") == [105, 50, 48, 53, 101];
  }

  lemma {:induction false} DecimalIs(n: nat)
    ensures Encoded(Int(n)) == [CHAR_I] + Digits(n) + [CHAR_E]
  {
    hide Digits;
  }

  lemma {:induction false} MinusDecimalIs(n: nat)
    requires n > 0
    ensures Encoded(Int(-(n as int))) == [CHAR_I] + ([MINUS] + Digits(n)) + [CHAR_E]
  {
    hide Digits;
  }

  lemma {:induction false} DigitsLast(n: nat)
    ensures Digits(n) == if n < 10 then [(48 + n) as byte] else Digits(n / 10) + [(48 + n % 10) as byte]
  {
  }

  lemma {:induction false} StringsWritten()
    ensures EncodedStr([]) == Ascii("0:") && EncodedStr(Ascii("abc")) == Ascii("3:abc")
    ensures EncodedStr(Ascii("1234567890")) == Ascii("10:1234567890")
  {
  }

  lemma {:induction false} ListsWritten()
    ensures Encoded(List([])) == Ascii("le")
    ensures Encoded(List([Int(1), Int(2), Int(3)])) == Ascii("li1ei2ei3ee")
  {
    hide *;
    var none, v := List([]), List([Int(1), Int(2), Int(3)]);
    EncodedIs(none);
    EncodedItemsIs(none, 0);
    EncodedIs(v);
    EncodedItemsIs(v, 0);
    EncodedItemsIs(v, 1);
    EncodedItemsIs(v, 2);
    EncodedItemsIs(v, 3);
    DigitsWritten();
    ListText();
  }

  lemma {:induction false} ListText()
    ensures [CHAR_L] + [CHAR_E] == Ascii("le")
    ensures [CHAR_L] + (Ascii("i1e") + (Ascii("i2e") + (Ascii("i3e") + [CHAR_E]))) == Ascii("li1ei2ei3ee")
  {
    hide *;
    MarksAre();
    assert Ascii("i1e") == [105, 49, 101] && Ascii("i2e") == [105, 50, 101] && Ascii("i3e") == [105, 51, 101];
    assert Ascii("li1ei2ei3ee") == [108, 105, 49, 101, 105, 50, 101, 105, 51, 101, 101];
    assert Ascii("le") == [108, 101];
  }

  lemma {:induction false} DictionariesWritten()
    ensures Encoded(Dict(map[])) == Ascii("de")
    ensures Encoded(Dict(map[Ascii("b") := Int(2), Ascii("a") := Int(1)])) == Ascii("d1:ai1e1:bi2ee")
  {
    hide *;
    var a, b, keys: seq<Key> := Ascii("a"), Ascii("b"), [];
    var none, v := Dict(map[]), Dict(map[b := Int(2), a := Int(1)]);
    EncodedIs(none);
    KeysAre(none.entries, keys);
    SortedUnique(Ordered(none.entries), keys);
    assert keys[0..] == keys;
    NoneAmong(none.entries);
    EncodedPairsIs(none, keys, 0);
    TwoKeys(v, a, b);
    EncodedIs(v);
    KeysAre(v.entries, [a, b]);
    SortedUnique(Ordered(v.entries), [a, b]);
    assert [a, b][0..] == [a, b] && [a, b][2..] == [];
    EncodedPairsIs(v, [a, b], 0);
    EncodedPairsIs(v, [a, b], 1);
    EncodedPairsIs(v, [a, b], 2);
    PiecesWritten();
  }

  lemma {:induction false} TwoKeys(v: Value, a: Key, b: Key)
    requires v.Dict? && v.entries.Keys == {a, b} && a != [] && b != [] && a[0] < b[0]
    ensures KeysOf(v.entries, [a, b])
  {
    FirstByteDecides([], a[0], a[1..], b[0], b[1..]);
    assert a == [] + [a[0]] + a[1..] && b == [] + [b[0]] + b[1..];
    hide Less;
  }

  lemma {:induction false} PiecesWritten()
    ensures EncodedStr(Ascii("a")) == Ascii("1:a") && EncodedStr(Ascii("b")) == Ascii("1:b")
    ensures Encoded(Int(1)) == Ascii("i1e") && Encoded(Int(2)) == Ascii("i2e")
    ensures [CHAR_D] + (Ascii("1:a") + Ascii("i1e") + (Ascii("1:b") + Ascii("i2e") + [CHAR_E])) == Ascii("d1:ai1e1:bi2ee")
    ensures [CHAR_D] + [CHAR_E] == Ascii("de")
  {
    hide *;
    LettersWritten();
    DigitsWritten();
    assert Ascii("1:a") == [49, 58, 97] && Ascii("i1e") == [105, 49, 101];
    assert Ascii("1:b") == [49, 58, 98] && Ascii("i2e") == [105, 50, 101];
    assert Ascii("d1:ai1e1:bi2ee") == [100, 49, 58, 97, 105, 49, 101, 49, 58, 98, 105, 50, 101, 101];
    assert Ascii("de") == [100, 101];
    MarksAre();
  }

  lemma {:induction false} MarksAre()
    ensures CHAR_D == 100 && CHAR_E == 101 && CHAR_I == 105 && CHAR_L == 108 && MINUS == 45
  {
  }

  lemma {:induction false} LettersWritten()
    ensures EncodedStr(Ascii("a")) == Ascii("1:a") && EncodedStr(Ascii("b")) == Ascii("1:b")
  {
  }

  lemma {:induction false} DigitsWritten()
    ensures Encoded(Int(1)) == Ascii("i1e") && Encoded(Int(2)) == Ascii("i2e") && Encoded(Int(3)) == Ascii("i3e")
  {
  }

  // --- The loops ---

  /** `ilist.sort()` on the keys. */
  method SortKeys(entries: map<Key, Value>) returns (keys: seq<Key>)
    ensures keys == Ordered(entries)
  {
    keys := [];
    var left := entries.Keys;
    while left != {}
      invariant left <= entries.Keys && Sorted(keys)
      invariant forall k :: k in keys <==> k in entries && k !in left
      decreases left
    {
      var k :| k in left;
      keys := InsertKey(keys, k);
      left := left - {k};
    }
    SortedUnique(keys, Ordered(entries));
  }

  method InsertKey(keys: seq<Key>, k: Key) returns (r: seq<Key>)
    requires Sorted(keys) && k !in keys
    ensures Sorted(r) && forall q :: q in r <==> q == k || q in keys
  {
    hide Less;
    var n := 0;
    while n < |keys| && Less(keys[n], k)
      invariant 0 <= n <= |keys| && forall i :: 0 <= i < n ==> Less(keys[i], k)
    {
      n := n + 1;
    }
    forall i | n <= i < |keys|
      ensures Less(k, keys[i])
    {
      LessTotal(keys[n], k);
      assert keys[n] in keys;
      if n < i {
        LessTransitive(k, keys[n], keys[i]);
      }
    }
    r := keys[..n] + [k] + keys[n..];
    InsertedKeys(keys, k, n);
  }

  lemma {:induction false} InsertedKeys(keys: seq<Key>, k: Key, n: nat)
    requires n <= |keys|
    ensures forall q :: q in keys[..n] + [k] + keys[n..] <==> q == k || q in keys
  {
    assert keys == keys[..n] + keys[n..];
  }

  /** `''.join(parts)`. */
  function Joined(parts: seq<seq<byte>>): seq<byte>
  {
    if parts == [] then [] else Joined(parts[..|parts| - 1]) + parts[|parts| - 1]
  }

  /** The list `r` that the encoders append to. */
  class Parts {
    var parts: seq<seq<byte>>

    constructor ()
      ensures parts == []
    {
      parts := [];
    }

    method Append(s: seq<byte>)
      modifies this
      ensures Joined(parts) == old(Joined(parts)) + s
    {
      assert (parts + [s])[..|parts|] == parts;
      parts := parts + [s];
    }

    method EncodeString(s: seq<byte>)
      modifies this
      ensures Joined(parts) == old(Joined(parts)) + EncodedStr(s)
    {
      Append(Decimal(|s|));
      Append([COLON]);
      Append(s);
    }

    /** `encode_func[type(x)](x, r)`. */
    method Encode(v: Value)
      modifies this
      ensures Joined(parts) == old(Joined(parts)) + Encoded(v)
      decreases v, 1
    {
      match v
      case Int(n) =>
        Append([CHAR_I]);
        Append(Decimal(n));
        Append([CHAR_E]);
      case Str(s) =>
        EncodeString(s);
      case List(items) =>
        EncodeList(v);
      case Dict(entries) =>
        EncodeDict(v);
      case Cached(bencoded) =>
        Append(bencoded);
    }

    method EncodeList(v: Value)
      requires v.List?
      modifies this
      ensures Joined(parts) == old(Joined(parts)) + Encoded(v)
      decreases v, 0
    {
      hide *;
      ghost var before := Joined(parts);
      EncodedIs(v);
      Append([CHAR_L]);
      assert before + ([CHAR_L] + EncodedItems(v, 0)) == before + [CHAR_L] + EncodedItems(v, 0);
      for i := 0 to |v.items|
        invariant Joined(parts) + EncodedItems(v, i) == before + Encoded(v)
      {
        ghost var so := Joined(parts);
        EncodedItemsIs(v, i);
        Encode(v.items[i]);
        assert so + (Encoded(v.items[i]) + EncodedItems(v, i + 1)) == Joined(parts) + EncodedItems(v, i + 1);
      }
      EncodedItemsIs(v, |v.items|);
      Append([CHAR_E]);
    }

    method EncodeDict(v: Value)
      requires v.Dict?
      modifies this
      ensures Joined(parts) == old(Joined(parts)) + Encoded(v)
      decreases v, 0
    {
      hide *;
      ghost var before := Joined(parts);
      EncodedIs(v);
      Append([CHAR_D]);
      var keys := SortKeys(v.entries);
      KeysAre(v.entries, keys);
      assert keys[0..] == keys;
      assert before + ([CHAR_D] + EncodedPairs(v, keys)) == before + [CHAR_D] + EncodedPairs(v, keys);
      for i := 0 to |keys|
        invariant Among(keys[i..], v.entries)
        invariant Joined(parts) + EncodedPairs(v, keys[i..]) == before + Encoded(v)
      {
        ghost var so := Joined(parts);
        EncodedPairsIs(v, keys, i);
        EncodeString(keys[i]);
        Encode(v.entries[keys[i]]);
        Associate(so, EncodedStr(keys[i]), Encoded(v.entries[keys[i]]), EncodedPairs(v, keys[i + 1..]));
      }
      EncodedPairsIs(v, keys, |keys|);
      Append([CHAR_E]);
    }
  }

  lemma {:induction false} Associate(a: seq<byte>, b: seq<byte>, c: seq<byte>, d: seq<byte>)
    ensures a + (b + c + d) == a + b + c + d
  {
  }

  /** `bencode`. */
  method BEncode(v: Value) returns (r: seq<byte>)
    ensures r == Encoded(v)
  {
    var parts := new Parts();
    parts.Encode(v);
    r := Joined(parts.parts);
  }

  /** `decode_list`. */
  method DecodeListLoop(x: seq<byte>, f0: nat) returns (r: Option<(seq<Value>, nat)>)
    ensures r == DecodeItems(x, f0, [])
    decreases |x| - f0, 2
  {
    var items: seq<Value>, f := [], f0;
    while f < |x| && x[f] != CHAR_E
      invariant f0 <= f && DecodeItems(x, f0, []) == DecodeItems(x, f, items)
      decreases |x| - f
    {
      var v := DecodeAt(x, f);
      if v.None? {
        return None;
      }
      items, f := items + [v.value.0], v.value.1;
    }
    if f >= |x| {
      return None;
    }
    return Some((items, f + 1));
  }

  /** `decode_dict`. */
  method DecodeDictLoop(x: seq<byte>, f0: nat) returns (r: Option<(map<Key, Value>, nat)>)
    ensures r == DecodePairs(x, f0, None, map[])
    decreases |x| - f0, 2
  {
    var entries: map<Key, Value>, f, lastKey := map[], f0, None;
    while f < |x| && x[f] != CHAR_E
      invariant f0 <= f && DecodePairs(x, f0, None, map[]) == DecodePairs(x, f, lastKey, entries)
      decreases |x| - f
    {
      var k := DecodeString(x, f);
      if k.None? {
        return None;
      }
      if lastKey.Some? && !Less(lastKey.value, k.value.0) {
        return None;
      }
      lastKey := Some(k.value.0);
      var v := DecodeAt(x, k.value.1);
      if v.None? {
        return None;
      }
      entries, f := entries[k.value.0 := v.value.0], v.value.1;
    }
    if f >= |x| {
      return None;
    }
    return Some((entries, f + 1));
  }

  method DecodeAt(x: seq<byte>, f: nat) returns (r: Option<(Value, nat)>)
    ensures r == Decode(x, f)
    decreases |x| - f, 1
  {
    if f >= |x| {
      return None;
    }
    if x[f] == CHAR_L {
      var l := DecodeListLoop(x, f + 1);
      return if l.None? then None else Some((List(l.value.0), l.value.1));
    }
    if x[f] == CHAR_D {
      var d := DecodeDictLoop(x, f + 1);
      return if d.None? then None else Some((Dict(d.value.0), d.value.1));
    }
    return Decode(x, f);
  }
}
