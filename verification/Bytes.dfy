/**
  Bytes, the little-endian integer codec, and overwriting a range of a buffer:
  the vocabulary in which the page layers are written.
 */
module Bytes {

  type Byte = x: int | 0 <= x < 256
  type U16 = x: int | 0 <= x < 0x1_0000
  type U64 = x: int | 0 <= x < 0x1_0000_0000_0000_0000

  /** `v as u16`: the low 16 bits, which is `v` itself just when it fits. */
  function AsU16(v: nat): (r: U16)
    ensures r == v <==> v < 0x1_0000
  {
    v % 0x1_0000
  }

  /** `(v as u16).to_le_bytes()`: the cast keeps the low 16 bits. */
  function U16Bytes(v: nat): (r: seq<Byte>)
    ensures |r| == 2
  {
    [v % 256, v / 256 % 256]
  }

  function U16At(b: seq<Byte>, at: nat): (v: U16)
    requires at + 2 <= |b|
  {
    b[at] as int + 256 * b[at + 1] as int
  }

  /** The two bytes of `v as u16` read back as the value modulo 2^16: exact just when `v` fits. */
  lemma U16RoundTrip(b: seq<Byte>, at: nat, v: nat)
    requires at + 2 <= |b| && b[at..at + 2] == U16Bytes(v)
    ensures U16At(b, at) == v % 0x1_0000
    ensures U16At(b, at) == v <==> v < 0x1_0000
  {
    assert b[at] == b[at..at + 2][0] == v % 256 && b[at + 1] == b[at..at + 2][1] == v / 256 % 256;
    LowTwoBytes(v);
  }

  lemma LowTwoBytes(v: nat)
    ensures v % 256 + 256 * (v / 256 % 256) == v % 0x1_0000
  {
    var low := v % 256 + 256 * (v / 256 % 256);
    assert v == 0x1_0000 * (v / 256 / 256) + low;
  }

  function Pow256(w: nat): (r: nat)
    ensures r > 0
  {
    if w == 0 then 1 else 256 * Pow256(w - 1)
  }

  /** The low `w` bytes of `v`, least significant first. */
  function ToLe(v: nat, w: nat): (r: seq<Byte>)
    ensures |r| == w
    decreases w
  {
    if w == 0 then [] else [v % 256] + ToLe(v / 256, w - 1)
  }

  function FromLe(b: seq<Byte>): nat {
    if b == [] then 0 else b[0] + 256 * FromLe(b[1..])
  }

  lemma {:induction false} FromLeToLe(v: nat, w: nat)
    requires v < Pow256(w)
    ensures FromLe(ToLe(v, w)) == v
    decreases w
  {
    if w > 0 {
      assert ToLe(v, w)[1..] == ToLe(v / 256, w - 1);
      FromLeToLe(v / 256, w - 1);
    }
  }

  lemma LowByte(x: Byte, y: nat)
    ensures (x + 256 * y) % 256 == x && (x + 256 * y) / 256 == y
  {
  }

  lemma {:induction false} ToLeFromLe(b: seq<Byte>)
    ensures FromLe(b) < Pow256(|b|)
    ensures ToLe(FromLe(b), |b|) == b
  {
    if b != [] {
      ToLeFromLe(b[1..]);
      LowByte(b[0], FromLe(b[1..]));
      assert b == [b[0]] + b[1..];
    }
  }

  lemma Pow256Of8()
    ensures Pow256(8) == 0x1_0000_0000_0000_0000
  {
  }

  function U64Bytes(v: U64): (r: seq<Byte>)
    ensures |r| == 8
  {
    ToLe(v, 8)
  }

  /** Dividing by 256 once more drops one more byte. */
  lemma DropByte(v: nat)
    ensures v / 0x100 / 0x100 == v / 0x1_0000 && v / 0x1_0000 / 0x100 == v / 0x100_0000
    ensures v / 0x100_0000 / 0x100 == v / 0x1_0000_0000
    ensures v / 0x1_0000_0000 / 0x100 == v / 0x100_0000_0000
    ensures v / 0x100_0000_0000 / 0x100 == v / 0x1_0000_0000_0000
    ensures v / 0x1_0000_0000_0000 / 0x100 == v / 0x100_0000_0000_0000
  {
  }

  /** Least significant byte first. */
  lemma U64BytesAre(v: U64)
    ensures U64Bytes(v) == [
      v % 256, v / 0x100 % 256, v / 0x1_0000 % 256, v / 0x100_0000 % 256, v / 0x1_0000_0000 % 256,
      v / 0x100_0000_0000 % 256, v / 0x1_0000_0000_0000 % 256, v / 0x100_0000_0000_0000 % 256]
  {
    DropByte(v);
    assert ToLe(v / 0x100_0000_0000_0000, 1) == [v / 0x100_0000_0000_0000 % 256];
  }

  function U64At(b: seq<Byte>, at: nat): (v: U64)
    requires at + 8 <= |b|
  {
    ToLeFromLe(b[at..at + 8]);
    Pow256Of8();
    FromLe(b[at..at + 8])
  }

  lemma U64RoundTrip(b: seq<Byte>, at: nat, v: U64)
    requires at + 8 <= |b| && b[at..at + 8] == U64Bytes(v)
    ensures U64At(b, at) == v
  {
    Pow256Of8();
    FromLeToLe(v, 8);
  }

  /** Eight bytes read as zero exactly when each of them is zero (`special[..] != [0u8; 8]`). */
  lemma U64ZeroIffZeroBytes(b: seq<Byte>, at: nat)
    requires at + 8 <= |b|
    ensures U64At(b, at) == 0 <==> b[at..at + 8] == [0, 0, 0, 0, 0, 0, 0, 0]
  {
    ToLeFromLe(b[at..at + 8]);
    ZeroBytes(8);
    assert [0, 0, 0, 0, 0, 0, 0, 0] == seq(8, _ => 0);
    Pow256Of8();
    FromLeToLe(0, 8);
  }

  lemma {:induction false} ZeroBytes(w: nat)
    ensures ToLe(0, w) == seq(w, _ => 0)
  {
    if w > 0 {
      ZeroBytes(w - 1);
    }
  }

  /** `b` with the bytes from `at` overwritten by `src`. */
  function Splice(b: seq<Byte>, at: nat, src: seq<Byte>): (r: seq<Byte>)
    requires at + |src| <= |b|
    ensures |r| == |b|
    ensures forall i :: 0 <= i < |b| ==> r[i] == if at <= i < at + |src| then src[i - at] else b[i]
  {
    b[..at] + src + b[at + |src|..]
  }

  /** A write is read back whole, and every range it does not touch is as before. */
  lemma SpliceRanges(b: seq<Byte>, at: nat, src: seq<Byte>)
    requires at + |src| <= |b|
    ensures Splice(b, at, src)[at..at + |src|] == src
    ensures forall x, y :: 0 <= x <= y <= |b| && (y <= at || at + |src| <= x) ==>
      Splice(b, at, src)[x..y] == b[x..y]
  {
  }

  lemma WriteU16(b: seq<Byte>, at: nat, v: U16)
    requires at + 2 <= |b|
    ensures U16At(Splice(b, at, U16Bytes(v)), at) == v
  {
  }

  lemma WriteU64(b: seq<Byte>, at: nat, v: U64)
    requires at + 8 <= |b|
    ensures U64At(Splice(b, at, U64Bytes(v)), at) == v
  {
    SpliceRanges(b, at, U64Bytes(v));
    U64RoundTrip(Splice(b, at, U64Bytes(v)), at, v);
  }
}
