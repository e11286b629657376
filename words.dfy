/** Fixed-width machine integers of the wire format and the big-endian pair merge. */
module Words {
  import opened Bits

  type u8 = x: int | 0 <= x < 0x100
  type u16 = x: int | 0 <= x < 0x1_0000

  const U64Modulus: nat := 0x1_0000_0000_0000_0000
  const I64Bound: nat := 0x8000_0000_0000_0000

  type u64 = x: int | 0 <= x < 0x1_0000_0000_0000_0000
  type i64 = x: int | -0x8000_0000_0000_0000 <= x < 0x8000_0000_0000_0000

  /** `(high as u16) << 8 | low as u16`: the u16 whose big-endian bytes are
      high, low. The shift is taken modulo 2^16, as on a u16. */
  function Merge2Be(high: u8, low: u8): (r: u16)
    ensures r == high * 256 + low
  {
    assert Pow2(8) == 256;
    OrIntoZeroBits(high, low, 8);
    BitOr(high * 256 % 0x1_0000, low)
  }

  /** The high and low byte of a u16. */
  function High(x: u16): u8 { x / 256 }
  function Low(x: u16): u8 { x % 256 }

  /** Splitting a u16 into its bytes and merging them gives it back ... */
  lemma SplitMerge(x: u16)
    ensures Merge2Be(High(x), Low(x)) == x
  {
  }

  /** ... and merging two bytes loses neither of them. */
  lemma MergeSplit(high: u8, low: u8)
    ensures High(Merge2Be(high, low)) == high && Low(Merge2Be(high, low)) == low
  {
  }
}
