/** The bit operations the decoder applies to its fixed-width integers
    (`count_ones`, `&`, `|`), written on natural numbers bit by bit. */
module Bits {

  function Pow2(k: nat): (p: nat)
    ensures p >= 1
  {
    if k == 0 then 1 else 2 * Pow2(k - 1)
  }

  /** `count_ones`: the number of set bits. */
  function CountOnes(n: nat): nat
  {
    if n == 0 then 0 else n % 2 + CountOnes(n / 2)
  }

  /** Bitwise `&`. */
  function BitAnd(a: nat, b: nat): nat
  {
    if a == 0 || b == 0 then 0
    else 2 * BitAnd(a / 2, b / 2) + (if a % 2 == 1 && b % 2 == 1 then 1 else 0)
  }

  /** Bitwise `|`. */
  function BitOr(a: nat, b: nat): nat
  {
    if a == 0 then b
    else if b == 0 then a
    else 2 * BitOr(a / 2, b / 2) + (if a % 2 == 1 || b % 2 == 1 then 1 else 0)
  }

  lemma {:induction false} NoOnesIsZero(n: nat)
    ensures CountOnes(n) == 0 <==> n == 0
  {
    if n != 0 && n % 2 == 0 {
      NoOnesIsZero(n / 2);
    }
  }

  /** A number has exactly one set bit if and only if it is a power of two. */
  lemma {:induction false} SingleBitIffPowerOfTwo(n: nat)
    ensures CountOnes(n) == 1 <==> exists k: nat :: n == Pow2(k)
  {
    if CountOnes(n) == 1 {
      if n % 2 == 1 {
        NoOnesIsZero(n / 2);
        assert n == Pow2(0);
      } else {
        SingleBitIffPowerOfTwo(n / 2);
        var k: nat :| n / 2 == Pow2(k);
        assert n == Pow2(k + 1);
      }
    }
    if exists k: nat :: n == Pow2(k) {
      var k: nat :| n == Pow2(k);
      PowerOfTwoHasSingleBit(k);
    }
  }

  lemma {:induction false} PowerOfTwoHasSingleBit(k: nat)
    ensures CountOnes(Pow2(k)) == 1
  {
    if k > 0 {
      var half := Pow2(k - 1);
      PowerOfTwoHasSingleBit(k - 1);
      assert Pow2(k) == 2 * half;
      assert (2 * half) % 2 == 0 && (2 * half) / 2 == half;
    }
  }

  /** `n & 0b1 == 0` tests evenness ... */
  lemma AndOneIsParity(n: nat)
    ensures BitAnd(n, 1) == n % 2
  {
  }

  /** ... and `n & 0b11 == 0` tests divisibility by four. */
  lemma AndThreeIsModFour(n: nat)
    ensures BitAnd(n, 3) == n % 4
  {
    if n != 0 {
      AndOneIsParity(n / 2);
    }
  }

  /** `x | b` adds b when x has k zero low bits and b fits in them. */
  lemma {:induction false} OrIntoZeroBits(m: nat, b: nat, k: nat)
    requires b < Pow2(k)
    ensures BitOr(m * Pow2(k), b) == m * Pow2(k) + b
  {
    var x := m * Pow2(k);
    if k > 0 && x != 0 && b != 0 {
      assert x == 2 * (m * Pow2(k - 1));
      OrIntoZeroBits(m, b / 2, k - 1);
    }
  }

  /** The u16 values with exactly one set bit. */
  const PowersOfTwoU16: set<nat> :=
    {1, 2, 4, 8, 16, 32, 64, 128, 256, 512, 1024, 2048, 4096, 8192, 16384, 32768}

  lemma {:induction false} Pow2Grows(j: nat, k: nat)
    requires j <= k
    ensures Pow2(j) <= Pow2(k)
  {
    if j < k {
      Pow2Grows(j, k - 1);
    }
  }

  lemma Pow2Table()
    ensures Pow2(0) == 1 && Pow2(1) == 2 && Pow2(2) == 4 && Pow2(3) == 8
    ensures Pow2(4) == 16 && Pow2(5) == 32 && Pow2(6) == 64 && Pow2(7) == 128
    ensures Pow2(8) == 256 && Pow2(9) == 512 && Pow2(10) == 1024 && Pow2(11) == 2048
    ensures Pow2(12) == 4096 && Pow2(13) == 8192 && Pow2(14) == 16384 && Pow2(15) == 32768
    ensures Pow2(16) == 0x1_0000
  {
  }

  lemma {:induction false} SmallPow2Listed(k: nat)
    requires k < 16
    ensures Pow2(k) in PowersOfTwoU16
  {
    if k > 0 {
      SmallPow2Listed(k - 1);
      Pow2Table();
      Pow2Grows(k - 1, 14);
    }
  }

  /** Below 2^16 the powers of two are exactly the sixteen listed. */
  lemma SingleBitU16(n: nat)
    requires n < 0x1_0000
    ensures CountOnes(n) == 1 <==> n in PowersOfTwoU16
  {
    SingleBitIffPowerOfTwo(n);
    Pow2Table();
    if exists k: nat :: n == Pow2(k) {
      var k: nat :| n == Pow2(k);
      if k >= 16 {
        Pow2Grows(16, k);
        assert false;
      }
      SmallPow2Listed(k);
    }
  }
}
