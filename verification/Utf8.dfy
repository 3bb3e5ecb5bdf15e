/** Bytes as text, as `json.Marshal` of a Go string takes them: what is not well-formed UTF-8 is replaced, byte by byte
    (sections 3 and 4 of RFC 3629; the table is that of Go's `utf8.DecodeRune`). */
module Utf8 {
  import opened Bytes

  /** U+FFFD. */
  const REPLACEMENT: nat := 0xFFFD

  predicate Tail(b: byte) { 0x80 <= b <= 0xBF }

  /** The second byte that may follow `b`: no overlong forms, no surrogates, nothing above U+10FFFF. */
  predicate Second(b: byte, c: byte)
  {
    && (if b == 0xE0 then 0xA0 else if b == 0xF0 then 0x90 else 0x80) <= c
    && c <= if b == 0xED then 0x9F else if b == 0xF4 then 0x8F else 0xBF
  }

  /** How many bytes the first character takes; 0 if none begins here. */
  function Size(s: seq<byte>): (n: nat)
    ensures n <= |s|
  {
    if s == [] then 0
    else if s[0] < 0x80 then 1
    else if 0xC2 <= s[0] <= 0xDF && |s| >= 2 && Tail(s[1]) then 2
    else if 0xE0 <= s[0] <= 0xEF && |s| >= 3 && Second(s[0], s[1]) && Tail(s[2]) then 3
    else if 0xF0 <= s[0] <= 0xF4 && |s| >= 4 && Second(s[0], s[1]) && Tail(s[2]) && Tail(s[3]) then 4
    else 0
  }

  /** The first character. */
  function Code(s: seq<byte>): nat
    requires Size(s) > 0
  {
    var n := Size(s);
    if n == 1 then s[0] as nat
    else if n == 2 then (s[0] as nat - 0xC0) * 64 + (s[1] as nat - 0x80)
    else if n == 3 then (s[0] as nat - 0xE0) * 4096 + (s[1] as nat - 0x80) * 64 + (s[2] as nat - 0x80)
    else (s[0] as nat - 0xF0) * 262144 + (s[1] as nat - 0x80) * 4096 + (s[2] as nat - 0x80) * 64 + (s[3] as nat - 0x80)
  }

  /** What the receiver reads. */
  function Text(s: seq<byte>): seq<nat>
  {
    if s == [] then []
    else if Size(s) == 0 then [REPLACEMENT] + Text(s[1..])
    else [Code(s)] + Text(s[Size(s)..])
  }

  /** Nothing is replaced. */
  predicate WellFormed(s: seq<byte>)
  {
    s == [] || (Size(s) > 0 && WellFormed(s[Size(s)..]))
  }

  /** The bytes of a character. */
  function Encoded(c: nat): (e: seq<byte>)
    ensures e != []
  {
    if c < 0x80 then [c as byte]
    else if c < 0x800 then [(0xC0 + c / 64) as byte, (0x80 + c % 64) as byte]
    else if c < 0x1_0000 then [(0xE0 + c / 4096) as byte, (0x80 + c / 64 % 64) as byte, (0x80 + c % 64) as byte]
    else if c < 0x11_0000 then
      [(0xF0 + c / 262144) as byte, (0x80 + c / 4096 % 64) as byte, (0x80 + c / 64 % 64) as byte, (0x80 + c % 64) as byte]
    else Encoded(REPLACEMENT)
  }

  function EncodedText(t: seq<nat>): seq<byte>
  {
    if t == [] then [] else Encoded(t[0]) + EncodedText(t[1..])
  }

  /** Characters of one to four bytes, and what is none: an overlong form, a surrogate, a number too large, a byte that
      goes on with nothing, and one that begins nothing. */
  lemma {:induction false} CharactersWritten()
    ensures Text([0x41]) == [0x41] && Text([0xC3, 0xA9]) == [0xE9]
    ensures Text([0xE2, 0x82, 0xAC]) == [0x20AC] && Text([0xF0, 0x9F, 0x98, 0x80]) == [0x1F600]
    ensures Size([0xC0, 0x80]) == Size([0xE0, 0x9F, 0xBF]) == Size([0xF0, 0x8F, 0xBF, 0xBF]) == 0
    ensures Size([0xED, 0xA0, 0x80]) == Size([0xF4, 0x90, 0x80, 0x80]) == Size([0xA9]) == Size([0xFF]) == 0
    ensures REPLACEMENT == 0xFFFD && Text([0xFF, 0x41]) == [0xFFFD, 0x41]
  {
    OneCharacter([0x41]);
    OneCharacter([0xC3, 0xA9]);
    OneCharacter([0xE2, 0x82, 0xAC]);
    OneCharacter([0xF0, 0x9F, 0x98, 0x80]);
    var s: seq<byte> := [0xFF, 0x41];
    assert s[1..] == [0x41] && Size(s) == 0;
  }

  /** The first and the last character of each length, and around the surrogates. */
  lemma {:induction false} BoundsWritten()
    ensures Text([0x00]) == [0] && Text([0x7F]) == [0x7F]
    ensures Text([0xC2, 0x80]) == [0x80] && Text([0xDF, 0xBF]) == [0x7FF]
    ensures Text([0xE0, 0xA0, 0x80]) == [0x800] && Text([0xEF, 0xBF, 0xBF]) == [0xFFFF]
    ensures Text([0xED, 0x9F, 0xBF]) == [0xD7FF] && Text([0xEE, 0x80, 0x80]) == [0xE000]
    ensures Text([0xF0, 0x90, 0x80, 0x80]) == [0x10000] && Text([0xF4, 0x8F, 0xBF, 0xBF]) == [0x10FFFF]
  {
    OneCharacter([0x00]);
    OneCharacter([0x7F]);
    OneCharacter([0xC2, 0x80]);
    OneCharacter([0xDF, 0xBF]);
    OneCharacter([0xE0, 0xA0, 0x80]);
    OneCharacter([0xEF, 0xBF, 0xBF]);
    OneCharacter([0xED, 0x9F, 0xBF]);
    OneCharacter([0xEE, 0x80, 0x80]);
    OneCharacter([0xF0, 0x90, 0x80, 0x80]);
    OneCharacter([0xF4, 0x8F, 0xBF, 0xBF]);
  }

  lemma {:induction false} OneCharacter(s: seq<byte>)
    requires s != [] && Size(s) == |s|
    ensures Text(s) == [Code(s)]
  {
    assert s[Size(s)..] == [];
  }

  lemma {:induction false} Digits64(a: nat, b: nat, c: nat, d: nat)
    requires b < 64 && c < 64 && d < 64
    ensures var x := a * 262144 + b * 4096 + c * 64 + d;
      x / 262144 == a && x / 4096 % 64 == b && x / 64 % 64 == c && x % 64 == d
    ensures var x := a * 262144 + b * 4096 + c * 64 + d;
      x / 4096 == a * 64 + b && x / 64 == a * 4096 + b * 64 + c
  {
    hide *;
    By64(a * 4096 + b * 64 + c, d);
    By64(a * 64 + b, c);
    By64(a, b);
    By4096(a * 64 + b, c * 64 + d);
    By262144(a, b * 4096 + c * 64 + d);
  }

  lemma {:induction false} By64(q: nat, r: nat)
    requires r < 64
    ensures (q * 64 + r) / 64 == q && (q * 64 + r) % 64 == r
  {
  }

  lemma {:induction false} By4096(q: nat, r: nat)
    requires r < 4096
    ensures (q * 4096 + r) / 4096 == q
  {
  }

  lemma {:induction false} By262144(q: nat, r: nat)
    requires r < 262144
    ensures (q * 262144 + r) / 262144 == q
  {
  }

  lemma {:induction false} EncodedFirst(s: seq<byte>)
    requires Size(s) > 0
    ensures Encoded(Code(s)) == s[..Size(s)]
  {
    var n := Size(s);
    if n == 1 {
    } else if n == 2 {
      EncodedTwo(s);
    } else if n == 3 {
      EncodedThree(s);
    } else {
      EncodedFour(s);
    }
  }

  lemma {:induction false} EncodedTwo(s: seq<byte>)
    requires Size(s) == 2
    ensures Encoded(Code(s)) == s[..2]
  {
    Digits64(0, 0, s[0] as nat - 0xC0, s[1] as nat - 0x80);
  }

  lemma {:induction false} EncodedThree(s: seq<byte>)
    requires Size(s) == 3
    ensures Encoded(Code(s)) == s[..3]
  {
    var a, b, c := s[0] as nat - 0xE0, s[1] as nat - 0x80, s[2] as nat - 0x80;
    Digits64(0, a, b, c);
    assert Code(s) == a * 4096 + b * 64 + c >= 0x800;
    hide Size, Code;
  }

  lemma {:induction false} EncodedFour(s: seq<byte>)
    requires Size(s) == 4
    ensures Encoded(Code(s)) == s[..4]
  {
    var a, b, c, d := s[0] as nat - 0xF0, s[1] as nat - 0x80, s[2] as nat - 0x80, s[3] as nat - 0x80;
    Digits64(a, b, c, d);
    assert 0x1_0000 <= Code(s) == a * 262144 + b * 4096 + c * 64 + d < 0x11_0000;
    hide Size, Code;
  }

  lemma {:induction false} EncodedJoin(t: seq<nat>, u: seq<nat>)
    ensures EncodedText(t + u) == EncodedText(t) + EncodedText(u)
    decreases |t|
  {
    hide Encoded;
    if t == [] {
      assert t + u == u;
    } else {
      EncodedJoin(t[1..], u);
      assert (t + u)[0] == t[0] && (t + u)[1..] == t[1..] + u;
    }
  }

  /** Each replacement makes the text longer than the bytes were. */
  lemma {:induction false} TextIsLonger(s: seq<byte>)
    ensures |EncodedText(Text(s))| >= |s|
    ensures WellFormed(s) <==> |EncodedText(Text(s))| == |s|
    ensures WellFormed(s) ==> EncodedText(Text(s)) == s
    decreases |s|
  {
    hide *;
    TextIs(s);
    if s == [] {
      TextIsEmpty();
    } else if Size(s) == 0 {
      TextIsLonger(s[1..]);
      OneMore(REPLACEMENT, Text(s[1..]));
      ReplacementIs();
    } else {
      var n := Size(s);
      TextIsLonger(s[n..]);
      EncodedFirst(s);
      OneMore(Code(s), Text(s[n..]));
      assert s == s[..n] + s[n..];
    }
  }

  lemma {:induction false} TextIs(s: seq<byte>)
    ensures s != [] && Size(s) == 0 ==> Text(s) == [REPLACEMENT] + Text(s[1..]) && !WellFormed(s)
    ensures Size(s) > 0 ==> Text(s) == [Code(s)] + Text(s[Size(s)..]) && (WellFormed(s) <==> WellFormed(s[Size(s)..]))
  {
  }

  lemma {:induction false} TextIsEmpty()
    ensures Text([]) == [] && WellFormed([]) && EncodedText([]) == []
  {
  }

  lemma {:induction false} ReplacementIs()
    ensures |Encoded(REPLACEMENT)| == 3
  {
  }

  lemma {:induction false} OneMore(c: nat, t: seq<nat>)
    ensures EncodedText([c] + t) == Encoded(c) + EncodedText(t)
  {
    assert ([c] + t)[1..] == t;
  }

  predicate Ascii(s: seq<byte>)
  {
    forall k :: 0 <= k < |s| ==> s[k] < 0x80
  }

  lemma {:induction false} AsciiIsWellFormed(s: seq<byte>)
    requires Ascii(s)
    ensures WellFormed(s)
    decreases |s|
  {
    if s != [] {
      AsciiIsWellFormed(s[1..]);
    }
  }

  /** A byte that is not ASCII is no text on its own. */
  lemma {:induction false} LoneByte(b: byte)
    ensures WellFormed([b]) <==> b < 0x80
  {
    assert [b][1..] == [];
  }
}
