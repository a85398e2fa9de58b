/** Bytes, big-endian integers and the CRC-32C checksum (internal/store/types.go). */
module Bytes {

  type byte = b: int | 0 <= b < 256
  type Bytes = seq<byte>

  const MAX_UINT16 := 0xFFFF
  const MAX_UINT32 := 0xFFFF_FFFF
  const TWO_TO_THE_63 := 0x8000_0000_0000_0000
  const TWO_TO_THE_64 := 0x1_0000_0000_0000_0000

  /** 256^n. */
  function Pow256(n: nat): (p: nat)
    ensures p > 0
  {
    if n == 0 then 1 else 256 * Pow256(n - 1)
  }

  /** The n low-order bytes of v, most significant first: what a big-endian store of an
      n-byte unsigned integer leaves, including Go's truncating conversion. */
  function BigEndian(n: nat, v: nat): (b: Bytes)
    ensures |b| == n
  {
    if n == 0 then [] else BigEndian(n - 1, v / 256) + [v % 256]
  }

  /** The value a big-endian load reads back. */
  function FromBigEndian(b: Bytes): (v: nat)
    ensures v < Pow256(|b|)
  {
    if |b| == 0 then 0 else 256 * FromBigEndian(b[..|b| - 1]) + b[|b| - 1]
  }

  /** Loading what was stored gives the value back, for every value that fits. */
  lemma {:induction false} BigEndianRoundTrip(n: nat, v: nat)
    requires v < Pow256(n)
    ensures FromBigEndian(BigEndian(n, v)) == v
  {
    if n > 0 {
      BigEndianRoundTrip(n - 1, v / 256);
      assert BigEndian(n, v)[..n - 1] == BigEndian(n - 1, v / 256);
    }
  }

  /** The widths the file formats use. */
  lemma Pow256Widths()
    ensures Pow256(2) == MAX_UINT16 + 1
    ensures Pow256(4) == MAX_UINT32 + 1
    ensures Pow256(8) == TWO_TO_THE_64
  {
    assert Pow256(3) == 0x100_0000;
    assert Pow256(5) == 256 * Pow256(4);
    assert Pow256(6) == 256 * Pow256(5);
    assert Pow256(7) == 256 * Pow256(6);
  }

  /** putUint16: a big-endian store into a slice of a byte array. */
  method PutUint16(b: array<byte>, off: nat, v: nat)
    requires off + 2 <= b.Length && v <= MAX_UINT16
    modifies b
    ensures b[..off + 2] == old(b[..off]) + BigEndian(2, v)
    ensures b[off + 2..] == old(b[off + 2..])
  {
    b[off] := v / 256;
    b[off + 1] := v % 256;
    assert BigEndian(1, v / 256) == [v / 256] by { assert BigEndian(0, v / 256 / 256) == []; }
    assert BigEndian(2, v) == [v / 256, v % 256];
  }

  /** putUint32: a big-endian store into a slice of a byte array. */
  method PutUint32(b: array<byte>, off: nat, v: nat)
    requires off + 4 <= b.Length && v <= MAX_UINT32
    modifies b
    ensures b[..off + 4] == old(b[..off]) + BigEndian(4, v)
    ensures b[off + 4..] == old(b[off + 4..])
  {
    b[off] := v / 0x100_0000;
    b[off + 1] := v / 0x1_0000 % 256;
    b[off + 2] := v / 256 % 256;
    b[off + 3] := v % 256;
    BigEndianFour(v);
  }

  lemma BigEndianFour(v: nat)
    requires v <= MAX_UINT32
    ensures BigEndian(4, v) == [v / 0x100_0000, v / 0x1_0000 % 256, v / 256 % 256, v % 256]
  {
    var w := v / 256;
    var x := w / 256;
    var y := x / 256;
    assert x == v / 0x1_0000 && y == v / 0x100_0000;
    assert BigEndian(1, y) == [y] by { assert BigEndian(0, y / 256) == []; }
    assert BigEndian(2, x) == [y, x % 256];
    assert BigEndian(3, w) == [y, x % 256, w % 256];
  }

  /** Bitwise exclusive or. */
  function Xor(a: nat, b: nat): nat
    decreases a + b
  {
    if a == 0 && b == 0 then 0 else 2 * Xor(a / 2, b / 2) + (a + b) % 2
  }

  /** CRC-32C (section 12.1 of RFC 3720), one bit at a time over the reflected polynomial. */
  function CrcShift(c: nat, bits: nat): nat
    decreases bits
  {
    if bits == 0 then c
    else CrcShift(if c % 2 == 1 then Xor(c / 2, 0x82F6_3B78) else c / 2, bits - 1)
  }

  function CrcUpdate(c: nat, b: Bytes): nat
    decreases |b|
  {
    if |b| == 0 then c else CrcUpdate(CrcShift(Xor(c, b[0]), 8), b[1..])
  }

  /** checksum: the register never leaves 32 bits, so the last reduction changes nothing; it
      spares every proof below from having to know it. */
  function Checksum(b: Bytes): (c: nat)
    ensures c <= MAX_UINT32
  {
    Xor(CrcUpdate(0xFFFF_FFFF, b), 0xFFFF_FFFF) % 0x1_0000_0000
  }
}
