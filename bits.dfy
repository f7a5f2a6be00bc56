/** The one 64-bit intrinsic the bucket and rank derivation relies on:
    `u64::leading_zeros`. */
module Bits64 {

  /** The most significant bit of a 64-bit word. */
  const TopBit: bv64 := 0x8000_0000_0000_0000

  /** Number of leading zero bits among the `n` most significant bits of `x`. */
  function LeadingZerosIn(x: bv64, n: nat): (c: nat)
    requires n <= 64
    ensures c <= n
    ensures n > 0 && x & TopBit != 0 ==> c == 0
    decreases n
  {
    if n == 0 || x & TopBit != 0 then 0 else 1 + LeadingZerosIn(x << 1, n - 1)
  }

  /** `u64::leading_zeros`: the number of leading zero bits of `x`. */
  function LeadingZeros(x: bv64): (c: nat)
    ensures c <= 64
  {
    LeadingZerosIn(x, 64)
  }

  /** The zero word has all its bits as leading zeros. */
  lemma {:induction false} LeadingZerosInZero(n: nat)
    requires n <= 64
    ensures LeadingZerosIn(0, n) == n
  {
    if n > 0 {
      LeadingZerosInZero(n - 1);
    }
  }

  /** `leading_zeros(0) == 64`. */
  lemma LeadingZerosOfZero()
    ensures LeadingZeros(0) == 64
  {
    LeadingZerosInZero(64);
  }

  /** A clear top bit lets the count go on with the word shifted left by one. */
  lemma LeadingZerosInStep(x: bv64, y: bv64, n: nat)
    requires 0 < n <= 64
    requires x & TopBit == 0 && y == x << 1
    ensures LeadingZerosIn(x, n) == 1 + LeadingZerosIn(y, n - 1)
  {
  }

  /** Shifting a word whose top six bits are clear left by up to five places
      keeps its top bit clear. */
  lemma TopSixClearShifts(x0: bv64, x1: bv64, x2: bv64, x3: bv64, x4: bv64, x5: bv64)
    requires x0 >> 58 == 0
    requires x1 == x0 << 1 && x2 == x1 << 1 && x3 == x2 << 1 && x4 == x3 << 1 && x5 == x4 << 1
    ensures x0 & TopBit == 0 && x1 & TopBit == 0 && x2 & TopBit == 0
    ensures x3 & TopBit == 0 && x4 & TopBit == 0 && x5 & TopBit == 0
  {
  }

  /** Three left shifts that each find a clear top bit count three leading zeros. */
  lemma LeadingZerosInThreeSteps(x0: bv64, x1: bv64, x2: bv64, x3: bv64, n: nat)
    requires 3 <= n <= 64
    requires x0 & TopBit == 0 && x1 & TopBit == 0 && x2 & TopBit == 0
    requires x1 == x0 << 1 && x2 == x1 << 1 && x3 == x2 << 1
    ensures LeadingZerosIn(x0, n) == 3 + LeadingZerosIn(x3, n - 3)
  {
    LeadingZerosInStep(x0, x1, n);
    LeadingZerosInStep(x1, x2, n - 1);
    LeadingZerosInStep(x2, x3, n - 2);
  }

  /** A word whose top six bits are clear has at least six leading zeros. */
  lemma LeadingZerosTopSixClear(x: bv64)
    requires x >> 58 == 0
    ensures LeadingZeros(x) >= 6
  {
    var x1 := x << 1;
    var x2 := x1 << 1;
    var x3 := x2 << 1;
    var x4 := x3 << 1;
    var x5 := x4 << 1;
    TopSixClearShifts(x, x1, x2, x3, x4, x5);
    LeadingZerosInThreeSteps(x, x1, x2, x3, 64);
    LeadingZerosInThreeSteps(x3, x4, x5, x5 << 1, 61);
  }

  /** A word whose top six bits are clear and whose seventh is set has exactly
      six leading zeros. */
  lemma LeadingZerosSeventhBit(x: bv64)
    requires x >> 57 == 1
    ensures LeadingZeros(x) == 6
  {
    LeadingZerosTopSixClear(x);
    var x1 := x << 1;
    var x2 := x1 << 1;
    var x3 := x2 << 1;
    var x4 := x3 << 1;
    var x5 := x4 << 1;
    var x6 := x5 << 1;
    TopSixClearShifts(x, x1, x2, x3, x4, x5);
    assert x6 & TopBit != 0;
    LeadingZerosInThreeSteps(x, x1, x2, x3, 64);
    LeadingZerosInThreeSteps(x3, x4, x5, x6, 61);
  }
}
