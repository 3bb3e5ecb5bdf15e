/** Which pieces a peer has, as bits and as bytes (wubi/src/bittorrent/bitfield.py). */
module Bitfields {
  import opened Wrappers
  import opened Bytes

  /** The `k` lowest bits of `x`, highest first: a row of `lookup_table` for `k` = 8. */
  function Bits(x: nat, k: nat): (bits: seq<bool>)
    ensures |bits| == k
  {
    if k == 0 then [] else Bits(x / 2, k - 1) + [x % 2 == 1]
  }

  /** The number that the bits stand for: an entry of `reverse_lookup_table` for eight of them. */
  function Value(bits: seq<bool>): nat
  {
    if bits == [] then 0 else 2 * Value(bits[..|bits| - 1]) + if bits[|bits| - 1] then 1 else 0
  }

  function Pow2(k: nat): nat { if k == 0 then 1 else 2 * Pow2(k - 1) }

  lemma {:induction false} ValueOfBits(x: nat, k: nat)
    requires x < Pow2(k)
    ensures Value(Bits(x, k)) == x
  {
    if k > 0 {
      ValueOfBits(x / 2, k - 1);
      assert Bits(x, k)[..k - 1] == Bits(x / 2, k - 1);
    }
  }

  lemma {:induction false} BitsOfValue(bits: seq<bool>)
    ensures Value(bits) < Pow2(|bits|) && Bits(Value(bits), |bits|) == bits
    decreases |bits|
  {
    if bits != [] {
      var n := |bits| - 1;
      BitsOfValue(bits[..n]);
      assert Value(bits) / 2 == Value(bits[..n]);
    }
  }

  function ByteBits(b: byte): (bits: seq<bool>)
    ensures |bits| == 8
  {
    Bits(b as nat, 8)
  }

  lemma {:induction false} EightBits()
    ensures Pow2(8) == 256
  {
    assert Pow2(5) == 32;
  }

  function BitsByte(bits: seq<bool>): byte
    requires |bits| == 8
  {
    BitsOfValue(bits);
    EightBits();
    Value(bits) as byte
  }

  lemma {:induction false} ByteRoundTrip(b: byte, bits: seq<bool>)
    requires |bits| == 8
    ensures BitsByte(ByteBits(b)) == b && ByteBits(BitsByte(bits)) == bits
  {
    EightBits();
    ValueOfBits(b as nat, 8);
    BitsOfValue(bits);
  }

  /** All bits of a byte string. */
  function Unpacked(s: seq<byte>): (bits: seq<bool>)
    ensures |bits| == 8 * |s|
  {
    if s == [] then [] else Unpacked(s[..|s| - 1]) + ByteBits(s[|s| - 1])
  }

  function Falses(n: nat): (r: seq<bool>)
    ensures |r| == n
  {
    seq(n, _ => false)
  }

  /** The array as bytes, the last of them filled up with zero bits: `tostring`. */
  function Packed(flags: seq<bool>): (s: seq<byte>)
    ensures |flags| <= 8 * |s| < |flags| + 8
    decreases |flags|
  {
    if flags == [] then []
    else if |flags| <= 8 then [BitsByte(flags + Falses(8 - |flags|))]
    else [BitsByte(flags[..8])] + Packed(flags[8..])
  }

  /** Bit `k` of a number, from the lowest on. */
  function Bit(x: nat, k: nat): bool { if k == 0 then x % 2 == 1 else Bit(x / 2, k - 1) }

  /** Flag `i` is bit `i % 8`, from the highest on, of byte `i / 8`. */
  lemma {:induction false} PackedBit(flags: seq<bool>, i: nat)
    requires i < |flags|
    ensures i / 8 < |Packed(flags)| && Bit(Packed(flags)[i / 8] as nat, 7 - i % 8) == flags[i]
    decreases |flags|
  {
    hide Bit, Value;
    if |flags| <= 8 {
      ValueBit(flags + Falses(8 - |flags|), i);
    } else if i < 8 {
      ValueBit(flags[..8], i);
    } else {
      PackedBit(flags[8..], i - 8);
      assert i / 8 == 1 + (i - 8) / 8;
    }
  }

  lemma {:induction false} ValueBit(bits: seq<bool>, i: nat)
    requires i < |bits|
    ensures Bit(Value(bits), |bits| - 1 - i) == bits[i]
    decreases |bits|
  {
    hide *;
    var n := |bits| - 1;
    ValueLast(bits);
    BitLast(Value(bits[..n]), bits[n], n - i);
    if i < n {
      ValueBit(bits[..n], i);
    }
  }

  lemma {:induction false} ValueLast(bits: seq<bool>)
    requires bits != []
    ensures Value(bits) == 2 * Value(bits[..|bits| - 1]) + if bits[|bits| - 1] then 1 else 0
  {
  }

  lemma {:induction false} BitLast(v: nat, b: bool, k: nat)
    ensures Bit(2 * v + if b then 1 else 0, k) == if k == 0 then b else Bit(v, k - 1)
  {
  }

  lemma {:induction false} PackedWritten()
    ensures Packed([true, false, true, false, false, false, false, false, true]) == [160, 128]
  {
    var flags := [true, false, true, false, false, false, false, false, true];
    assert flags[..8] == [true, false, true, false, false, false, false, false] && flags[8..] == [true];
    hide Bits, BitsByte;
    BitsWritten();
    ByteRoundTrip(160, flags[..8]);
    ByteRoundTrip(128, flags[..8]);
    assert Packed([true]) == [BitsByte([true] + Falses(7))];
  }

  lemma {:induction false} BitsWritten()
    ensures Bits(160, 8) == [true, false, true, false, false, false, false, false]
    ensures Bits(128, 8) == [true] + Falses(7)
  {
    hide *;
    BitsLast(1, 1);
    BitsLast(2, 2);
    BitsLast(5, 3);
    BitsLast(10, 4);
    BitsLast(20, 5);
    BitsLast(40, 6);
    BitsLast(80, 7);
    BitsLast(160, 8);
    BitsLast(4, 3);
    BitsLast(8, 4);
    BitsLast(16, 5);
    BitsLast(32, 6);
    BitsLast(64, 7);
    BitsLast(128, 8);
    FalsesAre();
  }

  lemma {:induction false} FalsesAre()
    ensures Falses(7) == [false, false, false, false, false, false, false]
  {
  }

  lemma {:induction false} BitsLast(x: nat, k: nat)
    requires k > 0
    ensures Bits(x, k) == Bits(x / 2, k - 1) + [x % 2 == 1] && Bits(0, 0) == []
  {
  }

  function CountFalse(flags: seq<bool>): nat
  {
    if flags == [] then 0 else CountFalse(flags[..|flags| - 1]) + if flags[|flags| - 1] then 0 else 1
  }

  /** What the constructor accepts, and what it makes of it. */
  function Parsed(length: nat, s: seq<byte>): (r: Option<seq<bool>>)
    ensures r.Some? ==> |r.value| == length
  {
    var bits := Unpacked(s);
    if |bits| < length || |bits| >= length + 8 then None
    else if bits[length..] != Falses(|bits| - length) then None
    else Some(bits[..length])
  }

  lemma {:induction false} UnpackedFront(b: byte, s: seq<byte>)
    ensures Unpacked([b] + s) == ByteBits(b) + Unpacked(s)
    decreases |s|
  {
    if s != [] {
      UnpackedFront(b, s[..|s| - 1]);
      assert ([b] + s)[..|s|] == [b] + s[..|s| - 1];
    } else {
      assert [b] + s == [b] && [b][..0] == [];
    }
  }

  /** The bits of the packed array are the array and then zeros. */
  lemma {:induction false} UnpackedPacked(flags: seq<bool>)
    ensures |flags| <= 8 * |Packed(flags)| < |flags| + 8
    ensures Unpacked(Packed(flags)) == flags + Falses(8 * |Packed(flags)| - |flags|)
    decreases |flags|
  {
    hide *;
    PackedCases(flags);
    UnpackedNone();
    if flags == [] {
      assert Unpacked(Packed(flags)) == flags + Falses(8 * |Packed(flags)| - |flags|);
    } else if |flags| <= 8 {
      var bits := flags + Falses(8 - |flags|);
      ByteRoundTrip(0, bits);
      UnpackedFront(BitsByte(bits), []);
      assert Packed(flags) == [BitsByte(bits)] + [];
    } else {
      UnpackedPacked(flags[8..]);
      ByteRoundTrip(0, flags[..8]);
      UnpackedFront(BitsByte(flags[..8]), Packed(flags[8..]));
      assert flags == flags[..8] + flags[8..];
    }
  }

  lemma {:induction false} PackedUnpacked(s: seq<byte>, flags: seq<bool>)
    requires |flags| <= 8 * |s| < |flags| + 8 && Unpacked(s) == flags + Falses(8 * |s| - |flags|)
    ensures Packed(flags) == s
    decreases |s|
  {
    hide Unpacked, Packed, ByteBits, BitsByte, Falses;
    if s == [] {
      PackedCases(flags);
      return;
    }
    var b, rest := s[0], s[1..];
    assert s == [b] + rest;
    UnpackedFront(b, rest);
    ByteRoundTrip(b, Falses(8));
    PackedCases(flags);
    if |s| == 1 {
      assert rest == [];
      assert ByteBits(b) == flags + Falses(8 - |flags|) by { UnpackedNone(); }
    } else {
      var fill := Falses(8 * |s| - |flags|);
      assert ByteBits(b) == (ByteBits(b) + Unpacked(rest))[..8] == (flags + fill)[..8] == flags[..8];
      assert Unpacked(rest) == (ByteBits(b) + Unpacked(rest))[8..] == (flags + fill)[8..] == flags[8..] + fill;
      PackedUnpacked(rest, flags[8..]);
    }
  }

  lemma {:induction false} UnpackedNone()
    ensures Unpacked([]) == []
  {
  }

  lemma {:induction false} PackedCases(flags: seq<bool>)
    ensures flags == [] ==> Packed(flags) == []
    ensures 0 < |flags| <= 8 ==> Packed(flags) == [BitsByte(flags + Falses(8 - |flags|))]
    ensures |flags| > 8 ==> Packed(flags) == [BitsByte(flags[..8])] + Packed(flags[8..])
  {
  }

  /** A byte string is accepted for `length` bits exactly when it is what `tostring` gives of some array of that length,
      and then it is that array that comes out. */
  lemma {:induction false} ParseInvertsPack(length: nat, s: seq<byte>, flags: seq<bool>)
    ensures Parsed(length, s) == Some(flags) <==> |flags| == length && s == Packed(flags)
  {
    if |flags| == length && s == Packed(flags) {
      UnpackedPacked(flags);
      var bits := Unpacked(s);
      assert bits[..length] == flags && bits[length..] == Falses(|bits| - length);
    }
    if Parsed(length, s) == Some(flags) {
      var bits := Unpacked(s);
      assert bits == bits[..length] + bits[length..];
      PackedUnpacked(s, flags);
    }
  }

  lemma {:induction false} CountFalseAll(flags: seq<bool>)
    ensures CountFalse(flags) <= |flags|
    ensures CountFalse(flags) == 0 <==> forall i :: 0 <= i < |flags| ==> flags[i]
    decreases |flags|
  {
    if flags != [] {
      CountFalseAll(flags[..|flags| - 1]);
    }
  }

  lemma {:induction false} CountFalseFalses(n: nat)
    ensures CountFalse(Falses(n)) == n
  {
    if n > 0 {
      CountFalseFalses(n - 1);
      assert Falses(n)[..n - 1] == Falses(n - 1);
    }
  }

  lemma {:induction false} CountFalseUpdate(flags: seq<bool>, i: nat, val: bool)
    requires i < |flags|
    ensures CountFalse(flags[i := val]) == CountFalse(flags) + (if flags[i] then 1 else 0) - if val then 1 else 0
    decreases |flags|
  {
    var n := |flags| - 1;
    if i < n {
      CountFalseUpdate(flags[..n], i, val);
      assert flags[i := val][..n] == flags[..n][i := val];
    } else {
      assert flags[i := val][..n] == flags[..n];
    }
  }

  class Bitfield {
    const length: nat
    var flags: seq<bool>
    var numfalse: int

    ghost predicate Valid()
      reads this
    {
      |flags| == length && numfalse == CountFalse(flags)
    }

    constructor (length: nat)
      ensures Valid() && this.length == length && flags == Falses(length)
    {
      this.length, flags, numfalse := length, Falses(length), length;
      CountFalseFalses(length);
    }

    constructor FromArray(flags: seq<bool>, numfalse: int)
      ensures this.length == |flags| && this.flags == flags && this.numfalse == numfalse
    {
      this.length, this.flags, this.numfalse := |flags|, flags, numfalse;
    }

    /** `b[index] = val`. */
    method SetItem(index: nat, val: bool)
      requires Valid() && index < length
      modifies this
      ensures Valid() && flags == old(flags)[index := val]
    {
      CountFalseUpdate(flags, index, val);
      numfalse := numfalse + (if flags[index] then 1 else 0) - (if val then 1 else 0);
      flags := flags[index := val];
    }

    predicate Complete()
      reads this`numfalse
    {
      numfalse == 0
    }

    lemma {:induction false} CompleteMeansAll()
      requires Valid()
      ensures Complete() <==> forall i :: 0 <= i < |flags| ==> flags[i]
    {
      CountFalseAll(flags);
    }

    method ToString() returns (s: seq<byte>)
      requires Valid()
      ensures s == Packed(flags) && Parsed(length, s) == Some(flags)
    {
      hide Packed, Parsed, BitsByte, Falses;
      s := [];
      var x := 0;
      while x + 8 <= |flags|
        invariant 0 <= x <= |flags| && s + Packed(flags[x..]) == Packed(flags)
      {
        var group := flags[x..x + 8];
        PackedGroup(flags[x..]);
        assert flags[x..][..8] == group && flags[x..][8..] == flags[x + 8..];
        assert s + ([BitsByte(group)] + Packed(flags[x + 8..])) == (s + [BitsByte(group)]) + Packed(flags[x + 8..]);
        s := s + [BitsByte(group)];
        x := x + 8;
      }
      PackedCases(flags[x..]);
      if x < |flags| {
        var rest := flags[x..];
        s := s + [BitsByte(rest + Falses(8 - |rest|))];
      }
      ParseInvertsPack(length, s, flags);
    }
  }

  lemma {:induction false} PackedGroup(flags: seq<bool>)
    requires |flags| >= 8
    ensures Packed(flags) == [BitsByte(flags[..8])] + Packed(flags[8..])
  {
    if |flags| == 8 {
      assert flags + Falses(0) == flags && flags[..8] == flags && flags[8..] == [];
    }
  }

  /** `Bitfield(length, bitstring)`: None stands for the ValueError. */
  method Parse(length: nat, bitstring: seq<byte>) returns (r: Option<Bitfield>)
    ensures r.Some? <==> Parsed(length, bitstring).Some?
    ensures r.Some? ==>
      fresh(r.value) && r.value.Valid() && r.value.length == length && Some(r.value.flags) == Parsed(length, bitstring)
  {
    var extra := |bitstring| * 8 - length;
    if extra < 0 || extra >= 8 {
      return None;
    }
    var bits: seq<bool> := [];
    for i := 0 to |bitstring|
      invariant bits == Unpacked(bitstring[..i])
    {
      assert bitstring[..i + 1][..i] == bitstring[..i];
      bits := bits + ByteBits(bitstring[i]);
    }
    assert bitstring[..|bitstring|] == bitstring;
    if extra > 0 {
      if bits[|bits| - extra..] != Falses(extra) {
        return None;
      }
      bits := bits[..|bits| - extra];
    }
    assert extra == 0 ==> bits[length..] == Falses(0) && bits[..length] == bits;
    var b := new Bitfield.FromArray(bits, CountFalse(bits));
    return Some(b);
  }
}
