/** Single-bit views of the fixed-width words the codec works on.
    Bit positions are `bv6` values so that shifts stay in bit-vector arithmetic. */
module Bits {

  /** Bit `k` (0 = least significant) of an 8-bit word. */
  predicate Bit8(x: bv8, k: bv6)
    requires k < 8
  {
    (x >> k) & 1 == 1
  }

  /** Bit `k` (0 = least significant) of a 16-bit word. */
  predicate Bit16(x: bv16, k: bv6)
    requires k < 16
  {
    (x >> k) & 1 == 1
  }

  /** Bit `k` (0 = least significant) of a 32-bit word. */
  predicate Bit32(x: bv32, k: bv6)
    requires k < 32
  {
    (x >> k) & 1 == 1
  }

  /** The data position of pair `k` (bit `2k`) of a 16-bit code word. */
  predicate DataBit16(w: bv16, k: bv6)
    requires k < 8
  {
    Bit16(w, 2 * k)
  }

  /** The clock position of pair `k` (bit `2k+1`) of a 16-bit code word. */
  predicate ClockBit16(w: bv16, k: bv6)
    requires k < 8
  {
    Bit16(w, 2 * k + 1)
  }

  /** The data position of pair `k` (bit `2k`) of a 32-bit code word. */
  predicate DataBit32(w: bv32, k: bv6)
    requires k < 16
  {
    Bit32(w, 2 * k)
  }

  /** The clock position of pair `k` (bit `2k+1`) of a 32-bit code word. */
  predicate ClockBit32(w: bv32, k: bv6)
    requires k < 16
  {
    Bit32(w, 2 * k + 1)
  }

  /** C's conversion of a `bool` to an integer: 1 for true, 0 for false. */
  function FromBool(b: bool): (r: bv32)
    ensures r < 2
    ensures (r == 1) == b
  {
    if b then 1 else 0
  }

  /** Two bytes that agree on every bit are equal. */
  lemma Equal8(x: bv8, y: bv8)
    requires forall k: bv6 :: k < 8 ==> Bit8(x, k) == Bit8(y, k)
    ensures x == y
  {
    assert Bit8(x, 0) == Bit8(y, 0) && Bit8(x, 1) == Bit8(y, 1) && Bit8(x, 2) == Bit8(y, 2) && Bit8(x, 3) == Bit8(y, 3);
    assert Bit8(x, 4) == Bit8(y, 4) && Bit8(x, 5) == Bit8(y, 5) && Bit8(x, 6) == Bit8(y, 6) && Bit8(x, 7) == Bit8(y, 7);
    EqualBits8(x, y);
  }

  /** Bitwise agreement with every shift amount written as a literal, the form in which
      the solver closes the equality by itself. */
  lemma EqualBits8(x: bv8, y: bv8)
    requires ((x >> 0) & 1 == 1) == ((y >> 0) & 1 == 1) && ((x >> 1) & 1 == 1) == ((y >> 1) & 1 == 1) && ((x >> 2) & 1 == 1) == ((y >> 2) & 1 == 1) && ((x >> 3) & 1 == 1) == ((y >> 3) & 1 == 1)
    requires ((x >> 4) & 1 == 1) == ((y >> 4) & 1 == 1) && ((x >> 5) & 1 == 1) == ((y >> 5) & 1 == 1) && ((x >> 6) & 1 == 1) == ((y >> 6) & 1 == 1) && ((x >> 7) & 1 == 1) == ((y >> 7) & 1 == 1)
    ensures x == y
  {
  }

  /** Two 16-bit words that agree on every bit are equal. */
  lemma Equal16(x: bv16, y: bv16)
    requires forall k: bv6 :: k < 16 ==> Bit16(x, k) == Bit16(y, k)
    ensures x == y
  {
    assert Bit16(x, 0) == Bit16(y, 0) && Bit16(x, 1) == Bit16(y, 1) && Bit16(x, 2) == Bit16(y, 2) && Bit16(x, 3) == Bit16(y, 3);
    assert Bit16(x, 4) == Bit16(y, 4) && Bit16(x, 5) == Bit16(y, 5) && Bit16(x, 6) == Bit16(y, 6) && Bit16(x, 7) == Bit16(y, 7);
    assert Bit16(x, 8) == Bit16(y, 8) && Bit16(x, 9) == Bit16(y, 9) && Bit16(x, 10) == Bit16(y, 10) && Bit16(x, 11) == Bit16(y, 11);
    assert Bit16(x, 12) == Bit16(y, 12) && Bit16(x, 13) == Bit16(y, 13) && Bit16(x, 14) == Bit16(y, 14) && Bit16(x, 15) == Bit16(y, 15);
    EqualBits16(x, y);
  }

  /** The 16-bit counterpart of `EqualBits8`. */
  lemma EqualBits16(x: bv16, y: bv16)
    requires ((x >> 0) & 1 == 1) == ((y >> 0) & 1 == 1) && ((x >> 1) & 1 == 1) == ((y >> 1) & 1 == 1) && ((x >> 2) & 1 == 1) == ((y >> 2) & 1 == 1) && ((x >> 3) & 1 == 1) == ((y >> 3) & 1 == 1)
    requires ((x >> 4) & 1 == 1) == ((y >> 4) & 1 == 1) && ((x >> 5) & 1 == 1) == ((y >> 5) & 1 == 1) && ((x >> 6) & 1 == 1) == ((y >> 6) & 1 == 1) && ((x >> 7) & 1 == 1) == ((y >> 7) & 1 == 1)
    requires ((x >> 8) & 1 == 1) == ((y >> 8) & 1 == 1) && ((x >> 9) & 1 == 1) == ((y >> 9) & 1 == 1) && ((x >> 10) & 1 == 1) == ((y >> 10) & 1 == 1) && ((x >> 11) & 1 == 1) == ((y >> 11) & 1 == 1)
    requires ((x >> 12) & 1 == 1) == ((y >> 12) & 1 == 1) && ((x >> 13) & 1 == 1) == ((y >> 13) & 1 == 1) && ((x >> 14) & 1 == 1) == ((y >> 14) & 1 == 1) && ((x >> 15) & 1 == 1) == ((y >> 15) & 1 == 1)
    ensures x == y
  {
  }

  /** Two 32-bit words that agree on every bit are equal. */
  lemma Equal32(x: bv32, y: bv32)
    requires forall k: bv6 :: k < 32 ==> Bit32(x, k) == Bit32(y, k)
    ensures x == y
  {
    EqualLow32(x, y);
    EqualHigh32(x, y);
  }

  /** Two 32-bit words that agree on bits 0..15 have the same low half. */
  lemma EqualLow32(x: bv32, y: bv32)
    requires forall k: bv6 :: k < 16 ==> Bit32(x, k) == Bit32(y, k)
    ensures x & 0xFFFF == y & 0xFFFF
  {
    assert Bit32(x, 0) == Bit32(y, 0) && Bit32(x, 1) == Bit32(y, 1) && Bit32(x, 2) == Bit32(y, 2) && Bit32(x, 3) == Bit32(y, 3);
    assert Bit32(x, 4) == Bit32(y, 4) && Bit32(x, 5) == Bit32(y, 5) && Bit32(x, 6) == Bit32(y, 6) && Bit32(x, 7) == Bit32(y, 7);
    assert Bit32(x, 8) == Bit32(y, 8) && Bit32(x, 9) == Bit32(y, 9) && Bit32(x, 10) == Bit32(y, 10) && Bit32(x, 11) == Bit32(y, 11);
    assert Bit32(x, 12) == Bit32(y, 12) && Bit32(x, 13) == Bit32(y, 13) && Bit32(x, 14) == Bit32(y, 14) && Bit32(x, 15) == Bit32(y, 15);
    EqualBitsLow32(x, y);
  }

  /** Two 32-bit words that agree on bits 16..31 have the same high half. */
  lemma EqualHigh32(x: bv32, y: bv32)
    requires forall k: bv6 :: 16 <= k < 32 ==> Bit32(x, k) == Bit32(y, k)
    ensures x & 0xFFFF_0000 == y & 0xFFFF_0000
  {
    assert Bit32(x, 16) == Bit32(y, 16) && Bit32(x, 17) == Bit32(y, 17) && Bit32(x, 18) == Bit32(y, 18) && Bit32(x, 19) == Bit32(y, 19);
    assert Bit32(x, 20) == Bit32(y, 20) && Bit32(x, 21) == Bit32(y, 21) && Bit32(x, 22) == Bit32(y, 22) && Bit32(x, 23) == Bit32(y, 23);
    assert Bit32(x, 24) == Bit32(y, 24) && Bit32(x, 25) == Bit32(y, 25) && Bit32(x, 26) == Bit32(y, 26) && Bit32(x, 27) == Bit32(y, 27);
    assert Bit32(x, 28) == Bit32(y, 28) && Bit32(x, 29) == Bit32(y, 29) && Bit32(x, 30) == Bit32(y, 30) && Bit32(x, 31) == Bit32(y, 31);
    EqualBitsHigh32(x, y);
  }

  /** The low half of a 32-bit word in the form of `EqualBits8`. */
  lemma EqualBitsLow32(x: bv32, y: bv32)
    requires ((x >> 0) & 1 == 1) == ((y >> 0) & 1 == 1) && ((x >> 1) & 1 == 1) == ((y >> 1) & 1 == 1) && ((x >> 2) & 1 == 1) == ((y >> 2) & 1 == 1) && ((x >> 3) & 1 == 1) == ((y >> 3) & 1 == 1)
    requires ((x >> 4) & 1 == 1) == ((y >> 4) & 1 == 1) && ((x >> 5) & 1 == 1) == ((y >> 5) & 1 == 1) && ((x >> 6) & 1 == 1) == ((y >> 6) & 1 == 1) && ((x >> 7) & 1 == 1) == ((y >> 7) & 1 == 1)
    requires ((x >> 8) & 1 == 1) == ((y >> 8) & 1 == 1) && ((x >> 9) & 1 == 1) == ((y >> 9) & 1 == 1) && ((x >> 10) & 1 == 1) == ((y >> 10) & 1 == 1) && ((x >> 11) & 1 == 1) == ((y >> 11) & 1 == 1)
    requires ((x >> 12) & 1 == 1) == ((y >> 12) & 1 == 1) && ((x >> 13) & 1 == 1) == ((y >> 13) & 1 == 1) && ((x >> 14) & 1 == 1) == ((y >> 14) & 1 == 1) && ((x >> 15) & 1 == 1) == ((y >> 15) & 1 == 1)
    ensures x & 0xFFFF == y & 0xFFFF
  {
  }

  /** The high half of a 32-bit word in the form of `EqualBits8`. */
  lemma EqualBitsHigh32(x: bv32, y: bv32)
    requires ((x >> 16) & 1 == 1) == ((y >> 16) & 1 == 1) && ((x >> 17) & 1 == 1) == ((y >> 17) & 1 == 1) && ((x >> 18) & 1 == 1) == ((y >> 18) & 1 == 1) && ((x >> 19) & 1 == 1) == ((y >> 19) & 1 == 1)
    requires ((x >> 20) & 1 == 1) == ((y >> 20) & 1 == 1) && ((x >> 21) & 1 == 1) == ((y >> 21) & 1 == 1) && ((x >> 22) & 1 == 1) == ((y >> 22) & 1 == 1) && ((x >> 23) & 1 == 1) == ((y >> 23) & 1 == 1)
    requires ((x >> 24) & 1 == 1) == ((y >> 24) & 1 == 1) && ((x >> 25) & 1 == 1) == ((y >> 25) & 1 == 1) && ((x >> 26) & 1 == 1) == ((y >> 26) & 1 == 1) && ((x >> 27) & 1 == 1) == ((y >> 27) & 1 == 1)
    requires ((x >> 28) & 1 == 1) == ((y >> 28) & 1 == 1) && ((x >> 29) & 1 == 1) == ((y >> 29) & 1 == 1) && ((x >> 30) & 1 == 1) == ((y >> 30) & 1 == 1) && ((x >> 31) & 1 == 1) == ((y >> 31) & 1 == 1)
    ensures x & 0xFFFF_0000 == y & 0xFFFF_0000
  {
  }
}
