/** Bytes and the two byte-string helpers that every file-level module uses. */
module Bytes {

  newtype byte = x: int | 0 <= x < 256

  function Zeros(n: nat): (r: seq<byte>)
    ensures |r| == n && forall i :: 0 <= i < n ==> r[i] == 0
  {
    seq(n, _ => 0)
  }

  /** `s` with the bytes from `pos` on replaced by `data`; needs room for `data`. */
  function Splice(s: seq<byte>, pos: nat, data: seq<byte>): (r: seq<byte>)
    requires pos + |data| <= |s|
    ensures |r| == |s|
  {
    s[..pos] + data + s[pos + |data|..]
  }

  lemma {:induction false} SliceJoin<T>(s: seq<T>, a: nat, b: nat, c: nat)
    requires a <= b <= c <= |s|
    ensures s[a..c] == s[a..b] + s[b..c]
  {
  }

  function Min(a: int, b: int): int { if a < b then a else b }

  function Max(a: int, b: int): int { if a > b then a else b }

  lemma {:induction false} MinIs(a: int, b: int)
    ensures Min(a, b) <= a && Min(a, b) <= b && (Min(a, b) == a || Min(a, b) == b)
    ensures a <= b ==> Min(a, b) == a
  {
  }

  lemma {:induction false} MaxIs(a: int, b: int)
    ensures Max(a, b) == if a > b then a else b
  {
  }

  lemma {:induction false} SubsetSize<T>(a: set<T>, b: set<T>)
    requires a <= b
    ensures |a| <= |b|
    ensures |a| == |b| ==> a == b
  {
    assert b == a + (b - a);
  }

  /** The number a byte string stands for, highest byte first: `toint`. */
  function ToInt(s: seq<byte>): nat
  {
    if s == [] then 0 else 256 * ToInt(s[..|s| - 1]) + s[|s| - 1] as nat
  }

  /** Four bytes, highest first: `tobinary`, for what fits. */
  function ToBinary(i: nat): (s: seq<byte>)
    requires i < 0x1_0000_0000
    ensures |s| == 4
  {
    [(i / 256 / 256 / 256) as byte, (i / 256 / 256 % 256) as byte, (i / 256 % 256) as byte, (i % 256) as byte]
  }

  lemma {:induction false} BinaryWritten()
    ensures ToBinary(0x102_0304) == [1, 2, 3, 4] && ToBinary(258) == [0, 0, 1, 2] && ToBinary(1) == [0, 0, 0, 1]
    ensures ToBinary(0x4000) == [0, 0, 64, 0] && ToBinary(0x2000) == [0, 0, 32, 0]
  {
  }

  lemma {:induction false} ToIntOfFour(s: seq<byte>)
    requires |s| == 4
    ensures ToInt(s) == 0x100_0000 * s[0] as nat + 0x1_0000 * s[1] as nat + 256 * s[2] as nat + s[3] as nat
  {
    assert s[..3][..2] == s[..2] && s[..2][..1] == s[..1] && s[..1][..0] == [];
    assert ToInt(s[..1]) == s[0] as nat;
    assert ToInt(s[..2]) == 256 * ToInt(s[..1]) + s[1] as nat;
    assert ToInt(s[..3]) == 256 * ToInt(s[..2]) + s[2] as nat;
  }

  /** `tobinary(toint(s)) == s` for four bytes. */
  lemma {:induction false} BinaryOfToInt(s: seq<byte>)
    requires |s| == 4
    ensures ToInt(s) < 0x1_0000_0000 && ToBinary(ToInt(s)) == s
  {
    ToIntOfFour(s);
  }

  /** `toint(tobinary(i)) == i`. */
  lemma {:induction false} ToIntOfBinary(i: nat)
    requires i < 0x1_0000_0000
    ensures ToInt(ToBinary(i)) == i
  {
    ToIntOfFour(ToBinary(i));
  }
}
