/**
 Bytes, page images and the fixed-width integers that travel over the serial link.
 */
module Bytes {
  type Byte = x: int | 0 <= x < 256

  /** A page image, a frame or any other run of bytes. */
  type Blob = seq<Byte>

  function Pow2(k: nat): (p: nat)
    ensures p > 0
  {
    if k == 0 then 1 else 2 * Pow2(k - 1)
  }

  /** `s` with the bytes from `off` on replaced by `v`. */
  function Patch(s: Blob, off: nat, v: Blob): (r: Blob)
    requires off + |v| <= |s|
    ensures |r| == |s|
    ensures forall i :: 0 <= i < |s| ==> r[i] == if off <= i < off + |v| then v[i - off] else s[i]
  {
    s[..off] + v + s[off + |v|..]
  }

  function Be16(n: nat): (r: Blob)
    requires n < 0x1_0000
    ensures |r| == 2 && FromBe16(r[0], r[1]) == n
  {
    [n / 256, n % 256]
  }

  function FromBe16(hi: Byte, lo: Byte): (n: nat)
    ensures n < 0x1_0000
  {
    256 * hi + lo
  }

  lemma Be16Surjective(hi: Byte, lo: Byte)
    ensures Be16(FromBe16(hi, lo)) == [hi, lo]
  {
    assert (256 * hi + lo) / 256 == hi;
  }

  function Le16(n: nat): (r: Blob)
    requires n < 0x1_0000
    ensures |r| == 2 && FromLe16(r[0], r[1]) == n
  {
    [n % 256, n / 256]
  }

  function FromLe16(lo: Byte, hi: Byte): (n: nat)
    ensures n < 0x1_0000
  {
    lo + 256 * hi
  }

  function Be32(n: nat): (r: Blob)
    requires n < 0x1_0000_0000
    ensures |r| == 4 && FromBe32(r) == n
  {
    Be16(n / 0x1_0000) + Be16(n % 0x1_0000)
  }

  function FromBe32(b: Blob): (n: nat)
    requires |b| == 4
    ensures n < 0x1_0000_0000
  {
    0x1_0000 * FromBe16(b[0], b[1]) + FromBe16(b[2], b[3])
  }

  /** Four bytes and their big-endian number determine each other. */
  lemma Be32Surjective(b: Blob)
    requires |b| == 4
    ensures Be32(FromBe32(b)) == b
  {
    var hi, lo := FromBe16(b[0], b[1]), FromBe16(b[2], b[3]);
    Be16Surjective(b[0], b[1]);
    Be16Surjective(b[2], b[3]);
    assert FromBe32(b) / 0x1_0000 == hi && FromBe32(b) % 0x1_0000 == lo;
  }
}
