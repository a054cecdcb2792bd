/** Fixed-width unsigned integers and their little-endian encodings. */
module Bytes {

  type byte = x: int | 0 <= x < 0x100
  type u16 = x: int | 0 <= x < 0x1_0000
  type u32 = x: int | 0 <= x < 0x1_0000_0000

  function FromLe16(lo: byte, hi: byte): u16 {
    lo + 0x100 * hi
  }

  /** `u16::to_le_bytes` */
  function ToLe16(v: u16): (bs: seq<byte>)
    ensures |bs| == 2 && FromLe16(bs[0], bs[1]) == v
  {
    [v % 0x100, v / 0x100]
  }

  function FromLe32(bs: seq<byte>): u32
    requires |bs| == 4
  {
    FromLe16(bs[0], bs[1]) + 0x1_0000 * FromLe16(bs[2], bs[3])
  }

  /** `u32::to_le_bytes` */
  function ToLe32(v: u32): (bs: seq<byte>)
    ensures |bs| == 4 && FromLe32(bs) == v
  {
    ToLe16(v % 0x1_0000) + ToLe16(v / 0x1_0000)
  }

  /** Decoding is injective: the two encodings are inverses of each other. */
  lemma Le16Inverse(lo: byte, hi: byte)
    ensures ToLe16(FromLe16(lo, hi)) == [lo, hi]
  {
    assert FromLe16(lo, hi) % 0x100 == lo && FromLe16(lo, hi) / 0x100 == hi;
  }

  lemma SplitHalves(lo: u16, hi: u16)
    ensures (lo + 0x1_0000 * hi) % 0x1_0000 == lo && (lo + 0x1_0000 * hi) / 0x1_0000 == hi
  {
  }

  lemma Le32Inverse(bs: seq<byte>)
    requires |bs| == 4
    ensures ToLe32(FromLe32(bs)) == bs
  {
    assert FromLe32(bs) % 0x1_0000 == FromLe16(bs[0], bs[1]) && FromLe32(bs) / 0x1_0000 == FromLe16(bs[2], bs[3]) by {
      SplitHalves(FromLe16(bs[0], bs[1]), FromLe16(bs[2], bs[3]));
    }
    Le16Inverse(bs[0], bs[1]);
    Le16Inverse(bs[2], bs[3]);
    assert bs == [bs[0], bs[1]] + [bs[2], bs[3]];
  }
}
