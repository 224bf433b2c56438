/** Fixed-width unsigned integers and the little-endian byte order in which the
    ESP32 lays out the fields of a packed struct. */
module Bytes {

  type uint8 = x: int | 0 <= x < 0x100
  type uint16 = x: int | 0 <= x < 0x1_0000

  /** A uint16_t as it sits in memory on a little-endian target: low byte first. */
  function Le16(v: uint16): (r: seq<uint8>)
    ensures |r| == 2
    ensures r[0] as int + 0x100 * r[1] as int == v
  {
    [v % 0x100, v / 0x100]
  }

  /** The uint16_t whose in-memory bytes are `lo` then `hi`. */
  function FromLe16(lo: uint8, hi: uint8): (v: uint16)
    ensures v % 0x100 == lo && v / 0x100 == hi
  {
    lo + 0x100 * hi
  }

  lemma Le16OfFromLe16(lo: uint8, hi: uint8)
    ensures Le16(FromLe16(lo, hi)) == [lo, hi]
  {}

  /** 256 to the power `n`: the number of values `n` bytes can hold. */
  function Pow256(n: nat): (p: nat)
    ensures p >= 1
  {
    if n == 0 then 1 else 0x100 * Pow256(n - 1)
  }

  /** The low `width` bytes of `v`, least significant first: how a `width`-byte
      unsigned integer (an enum, say) is stored. */
  function LeBytes(v: nat, width: nat): (r: seq<uint8>)
    ensures |r| == width
  {
    if width == 0 then [] else [v % 0x100] + LeBytes(v / 0x100, width - 1)
  }

  /** The unsigned integer whose little-endian bytes are `bs`. */
  function LeValue(bs: seq<uint8>): (v: nat)
    ensures v < Pow256(|bs|)
  {
    if bs == [] then 0 else bs[0] + 0x100 * LeValue(bs[1..])
  }

  function Zeros(n: nat): (r: seq<uint8>)
    ensures |r| == n
    ensures forall i :: 0 <= i < n ==> r[i] == 0
  {
    seq(n, _ => 0)
  }

  /** Storing a value that fits and reading it back gives the value. */
  lemma {:induction false} LeValueOfLeBytes(v: nat, width: nat)
    requires v < Pow256(width)
    ensures LeValue(LeBytes(v, width)) == v
  {
    if width > 0 {
      LeValueOfLeBytes(v / 0x100, width - 1);
      assert LeBytes(v, width)[1..] == LeBytes(v / 0x100, width - 1);
    }
  }

  /** Reading bytes as a number and storing it back at the same width gives the bytes. */
  lemma {:induction false} LeBytesOfLeValue(bs: seq<uint8>)
    ensures LeBytes(LeValue(bs), |bs|) == bs
  {
    if bs != [] {
      LeBytesOfLeValue(bs[1..]);
      var v := LeValue(bs);
      assert v % 0x100 == bs[0] && v / 0x100 == LeValue(bs[1..]);
    }
  }

  /** A value below 256 stored in `width` bytes is that value followed by zero padding. */
  lemma {:induction false} LeBytesOfByte(v: nat, width: nat)
    requires v < 0x100 && width >= 1
    ensures LeBytes(v, width) == [v] + Zeros(width - 1)
  {
    LeBytesOfZero(width - 1);
  }

  lemma {:induction false} LeBytesOfZero(width: nat)
    ensures LeBytes(0, width) == Zeros(width)
  {
    if width > 0 {
      LeBytesOfZero(width - 1);
    }
  }
}
