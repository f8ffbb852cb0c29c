/** Bytes and the little-endian encodings of the fixed-width integers that the
    pipeline copies into shared memory with memcpy (x86-64 memory order: least
    significant byte first, two's complement for signed values). */
module Bytes {

  newtype byte = x: int | 0 <= x < 256

  /** 256 to the power n: the number of values that n bytes can hold. */
  function Pow256(n: nat): (r: nat)
    ensures r > 0
  {
    if n == 0 then 1 else 256 * Pow256(n - 1)
  }

  const U32_LIMIT: int := 0x1_0000_0000
  const I64_LIMIT: int := 0x8000_0000_0000_0000

  /** The values of C's `unsigned int` (32 bits). */
  predicate IsU32(v: int) { 0 <= v < U32_LIMIT }

  /** The values of `int64_t` and of `long` on LP64. */
  predicate IsI64(v: int) { -I64_LIMIT <= v < I64_LIMIT }

  /** The `width` bytes of `v`, least significant first. */
  function LittleEndian(v: nat, width: nat): (bs: seq<byte>)
    requires v < Pow256(width)
    ensures |bs| == width
  {
    if width == 0 then [] else [(v % 256) as byte] + LittleEndian(v / 256, width - 1)
  }

  /** The unsigned value stored in `bs`, least significant byte first. */
  function FromLittleEndian(bs: seq<byte>): (v: nat)
    ensures v < Pow256(|bs|)
  {
    if bs == [] then 0 else bs[0] as nat + 256 * FromLittleEndian(bs[1..])
  }

  lemma {:induction false} LittleEndianRoundTrip(v: nat, width: nat)
    requires v < Pow256(width)
    ensures FromLittleEndian(LittleEndian(v, width)) == v
  {
    if width > 0 {
      var bs := LittleEndian(v, width);
      LittleEndianRoundTrip(v / 256, width - 1);
      assert bs[1..] == LittleEndian(v / 256, width - 1);
    }
  }

  lemma {:induction false} FromLittleEndianRoundTrip(bs: seq<byte>)
    ensures LittleEndian(FromLittleEndian(bs), |bs|) == bs
  {
    if bs != [] {
      var v := FromLittleEndian(bs);
      FromLittleEndianRoundTrip(bs[1..]);
      assert v % 256 == bs[0] as int;
      assert v / 256 == FromLittleEndian(bs[1..]);
    }
  }

  lemma Pow256Widths()
    ensures Pow256(4) == U32_LIMIT && Pow256(8) == 2 * I64_LIMIT
  {
  }

  /** The four bytes memcpy copies out of an `unsigned int`. */
  function U32Bytes(v: int): (bs: seq<byte>)
    requires IsU32(v)
    ensures |bs| == 4
  {
    Pow256Widths();
    LittleEndian(v, 4)
  }

  /** The `unsigned int` stored in four bytes. */
  function ReadU32(bs: seq<byte>): (v: int)
    requires |bs| == 4
    ensures IsU32(v)
  {
    Pow256Widths();
    FromLittleEndian(bs)
  }

  /** The eight bytes memcpy copies out of an `int64_t` (or an LP64 `long`). */
  function I64Bytes(v: int): (bs: seq<byte>)
    requires IsI64(v)
    ensures |bs| == 8
  {
    Pow256Widths();
    LittleEndian(if v < 0 then v + 2 * I64_LIMIT else v, 8)
  }

  /** The `int64_t` stored in eight bytes, read back as two's complement. */
  function ReadI64(bs: seq<byte>): (v: int)
    requires |bs| == 8
    ensures IsI64(v)
  {
    Pow256Widths();
    var u := FromLittleEndian(bs);
    if u >= I64_LIMIT then u - 2 * I64_LIMIT else u
  }

  lemma U32RoundTrip(v: int)
    requires IsU32(v)
    ensures ReadU32(U32Bytes(v)) == v
  {
    Pow256Widths();
    LittleEndianRoundTrip(v, 4);
  }

  lemma I64RoundTrip(v: int)
    requires IsI64(v)
    ensures ReadI64(I64Bytes(v)) == v
  {
    Pow256Widths();
    LittleEndianRoundTrip(if v < 0 then v + 2 * I64_LIMIT else v, 8);
  }
}
