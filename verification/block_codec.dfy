/** The block codec as the library writes it: `encode(uint8_t)`, `encode(uint16_t)`,
    `decode(uint8_t)`, `decode(uint16_t)` and `decode(uint32_t)`.

    Arithmetic follows C with a 32-bit `int`: operands are promoted to `int` (modelled as
    `bv32`, every intermediate value being non-negative or wrapping as two's complement),
    and the result is truncated to the return type. The MFM loops are written as bounded
    recursion over the iteration count `n`, with `idx = 2 * (n - 1)`. */
module BlockCodec {
  import opened Bits
  import opened CodecState
  import opened BitCodec
  import opened Modulation

  /** `encode(uint8_t)`. FM ORs the clock pattern 0xAAAA with input bit `k` shifted left by
      `2k`, so that bit `k` lands at position `3k`: bits 1, 3 and 5 fall on clock positions,
      bits 6 and 7 above bit 15 and are truncated, and only bits 0, 2 and 4 reach data
      positions (0, 6 and 12). MFM runs the loop below, which never sees a one. */
  function EncodeByte(c: Codec, i: bv8): (r: Out<bv16>)
    ensures c.IsFm() ==> forall k: bv6 :: k < 8 ==> ClockBit16(r.value, k)
    ensures c.IsFm() ==> DataBit16(r.value, 0) == Bit8(i, 0) && DataBit16(r.value, 3) == Bit8(i, 2)
                         && DataBit16(r.value, 6) == Bit8(i, 4)
    ensures c.IsFm() ==> forall k: bv6 :: k < 8 && k != 0 && k != 3 && k != 6 ==> !DataBit16(r.value, k)
    ensures c.IsFm() ==> r.state == c.(last := Bit8(i, 0))
    ensures !c.IsFm() ==> r.value == (if c.last then 0x2AAA else 0xAAAA)
    ensures !c.IsFm() ==> r.state == c.(last := false)
  {
    if c.IsFm() then
      var w := i as bv32;
      var wide := 43690 | (w & 0x01) | ((w & 0x02) << 2) | ((w & 0x04) << 4) | ((w & 0x08) << 6)
                  | ((w & 0x10) << 8) | ((w & 0x20) << 10) | ((w & 0x40) << 12) | ((w & 0x80) << 14);
      Out((wide & 0xFFFF) as bv16, c.(last := w & 0x01 != 0))
    else
      var loop := MfmByteLoop(c, i, 8, 0);
      ScanZeroByte(c);
      loop
  }

  /** The MFM loop of `encode(uint8_t)`, iterations `idx = 2(n-1)` down to 0. The checked bit
      is `(bool) i & B1000000`: the cast binds first, so a 0 or 1 is ANDed with 64 and the
      bit is always false. Every iteration therefore encodes a zero against the running
      history bit; the left shift of the local copy `i` has no effect on the result. */
  function MfmByteLoop(c: Codec, i: bv8, n: bv6, ret: bv16): (r: Out<bv16>)
    requires !c.IsFm() && n <= 8
    ensures r.value as bv32 == ret as bv32 | Modulate(c, 0, n).value
    ensures r.state == Modulate(c, 0, n).state
    decreases n
  {
    if n == 0 then Out(ret, c)
    else
      var idx := 2 * (n - 1);
      var bit := FromBool(i != 0) & 0x40 != 0;
      // `ret | (B00000001 << idx)` or `ret | (B00000010 << idx)`; the value fits in 16 bits
      var code: bv16 := if bit then 1 else if !c.last then 2 else 0;
      var ret' := ret | (code << idx);
      var e := EncodeBit(c, Bit16(0, n - 1));
      ModulateStep(c, 0, n);
      PlaceCode16(ret, e.value, idx, ret');
      MfmByteLoop(c.(last := bit), i << 1, n - 1, ret')
  }

  lemma PlaceCode16(ret: bv16, code: bv8, idx: bv6, r: bv16)
    requires code < 4 && idx <= 14
    requires r == ret | ((code as bv16) << idx)
    ensures r as bv32 == ret as bv32 | ((code as bv32) << idx)
  {
  }

  /** Encoding eight zero bits in MFM: every clock set except, when the history bit is one,
      the first. */
  lemma ScanZeroByte(c: Codec)
    requires !c.IsFm()
    ensures Modulate(c, 0, 8).value == if c.last then 0x2AAA else 0xAAAA
    ensures Modulate(c, 0, 8).state == c.(last := false)
  {
    ModulateBits(c, 0, 8);
    ModulateFits(c, 0, 8);
    var y: bv32 := if c.last then 0x2AAA else 0xAAAA;
    forall k: bv6 | k < 8
      ensures DataBit32(Modulate(c, 0, 8).value, k) == DataBit32(y, k)
      ensures ClockBit32(Modulate(c, 0, 8).value, k) == ClockBit32(y, k)
    {
      assert !Bit16(0, k);
    }
    PairsEqual(Modulate(c, 0, 8).value, y, 8);
  }

  /** `encode(uint16_t)`. FM ORs the clock pattern 0xAAAAAAAA with input bit `k` shifted left
      by `k`, which puts it at data position `2k`. MFM runs the loop below. */
  function EncodeWord(c: Codec, i: bv16): (r: Out<bv32>)
    ensures c.IsFm() ==> forall k: bv6 :: k < 16 ==> ClockBit32(r.value, k)
    ensures c.IsFm() ==> forall k: bv6 :: k < 16 ==> DataBit32(r.value, k) == Bit16(i, k)
    ensures c.IsFm() ==> r.state == c.(last := Bit16(i, 0))
    ensures !c.IsFm() ==> r.value == (if c.last then 0 else 0x8000_0000) | 0x2AAA_AAA8 | (if i != 0 then 1 else 2)
    ensures !c.IsFm() ==> r.state == c.(last := i != 0)
  {
    if c.IsFm() then
      Promote16(i);
      Out(FmWord(i as bv32), c.(last := i & 0x01 != 0))
    else
      var loop := MfmWordLoop(c, i, Scanned(i), 16, 1 << 15, 0);
      ScanWord(c, i);
      loop
  }

  /** The FM branch of `encode(uint16_t)`, on the operand promoted to `int`: bit `k` of
      `w` is masked out and shifted left by `k`. */
  function FmWord(w: bv32): (r: bv32)
    requires w >> 16 == 0
    ensures forall k: bv6 :: k < 16 ==> ClockBit32(r, k)
    ensures forall k: bv6 :: k < 16 ==> DataBit32(r, k) == Bit32(w, k)
  {
    var r := 0xAAAA_AAAA | (w & 0x01) | ((w & 0x02) << 1) | ((w & 0x04) << 2) | ((w & 0x08) << 3)
             | ((w & 0x10) << 4) | ((w & 0x20) << 5) | ((w & 0x40) << 6) | ((w & 0x80) << 7)
             | ((w & (1 << 8)) << 8) | ((w & (1 << 9)) << 9) | ((w & (1 << 10)) << 10)
             | ((w & (1 << 11)) << 11) | ((w & (1 << 12)) << 12) | ((w & (1 << 13)) << 13)
             | ((w & (1 << 14)) << 14) | ((w & (1 << 15)) << 15);
    assert forall k: bv6 :: k < 16 ==> ClockBit32(r, k) && DataBit32(r, k) == Bit32(w, k) by {
      forall k: bv6 | k < 16
        ensures ClockBit32(r, k) && DataBit32(r, k) == Bit32(w, k)
      {
        // one case per pair, so that every shift amount is a constant
        if k == 0 {
        } else if k == 1 {
        } else if k == 2 {
        } else if k == 3 {
        } else if k == 4 {
        } else if k == 5 {
        } else if k == 6 {
        } else if k == 7 {
        } else if k == 8 {
        } else if k == 9 {
        } else if k == 10 {
        } else if k == 11 {
        } else if k == 12 {
        } else if k == 13 {
        } else if k == 14 {
        } else {
        }
      }
    }
    r
  }

  /** Promoting a `uint16_t` to `int` keeps its bits. */
  lemma Promote16(i: bv16)
    ensures (i as bv32) >> 16 == 0
    ensures forall k: bv6 :: k < 16 ==> Bit32(i as bv32, k) == Bit16(i, k)
  {
    forall k: bv6 | k < 16
      ensures Bit32(i as bv32, k) == Bit16(i, k)
    {
      PromoteBit16(i, k);
    }
  }

  lemma PromoteBit16(i: bv16, k: bv6)
    requires k < 16
    ensures Bit32(i as bv32, k) == Bit16(i, k)
  {
  }

  /** The word the MFM loop of `encode(uint16_t)` actually scans. The checked bit is
      `(bool) i & mask`: the cast binds first, so it is `(i != 0) & mask`, which can only be
      non-zero in the last iteration, where `mask == 1`. */
  function Scanned(i: bv16): (s: bv16)
    ensures Bit16(s, 0) == (i != 0)
    ensures forall k: bv6 :: 0 < k < 16 ==> !Bit16(s, k)
  {
    FromBool(i != 0) as bv16
  }

  /** The MFM loop of `encode(uint16_t)`, iterations `idx = 2(n-1)` down to 0, with `mask`
      walking from bit 15 down to bit 0; `s` names the word the loop effectively scans. */
  function MfmWordLoop(c: Codec, i: bv16, s: bv16, n: bv6, mask: bv16, ret: bv32): (r: Out<bv32>)
    requires !c.IsFm() && n <= 16 && s == Scanned(i)
    requires mask == if n == 0 then 0 else 1 << (n - 1)
    ensures r.value == ret | Modulate(c, s, n).value
    ensures r.state == Modulate(c, s, n).state
    decreases n
  {
    if n == 0 then Out(ret, c)
    else
      var idx := 2 * (n - 1);
      var bit := MaskTest(i, mask);
      // `ret | (B00000001 << idx)` or `ret | (B00000010 << idx)`; `2 << 30` wraps to bit 31
      var code: bv32 := if bit then 1 else if !c.last then 2 else 0;
      var ret' := ret | (code << idx);
      ScannedBit(i, n, mask, bit);
      var rest := MfmWordLoop(c.(last := bit), i, s, n - 1, mask >> 1, ret');
      WordLoopStep(c, s, n, idx, bit, code, ret, ret', rest);
      rest
  }

  /** One iteration of the `encode(uint16_t)` loop places the code of the scanned bit in
      front of what the remaining iterations `rest` produce. */
  lemma WordLoopStep(c: Codec, s: bv16, n: bv6, idx: bv6, bit: bool, code: bv32, ret: bv32, ret': bv32, rest: Out<bv32>)
    requires !c.IsFm() && 0 < n <= 16 && bit == Bit16(s, n - 1)
    requires code == if bit then 1 else if !c.last then 2 else 0
    requires idx == 2 * (n - 1) && ret' == ret | (code << idx)
    requires rest.value == ret' | Modulate(c.(last := bit), s, n - 1).value
    requires rest.state == Modulate(c.(last := bit), s, n - 1).state
    ensures rest.value == ret | Modulate(c, s, n).value
    ensures rest.state == Modulate(c, s, n).state
  {
    MfmCode(c, bit);
    ModulateStep(c, s, n);
  }

  /** The code the MFM loops write for one bit is the code of `encode(bool)`. */
  lemma MfmCode(c: Codec, bit: bool)
    requires !c.IsFm()
    ensures (if bit then 1 else if !c.last then 2 else 0) == EncodeBit(c, bit).value as bv32
    ensures EncodeBit(c, bit).state == c.(last := bit)
  {
  }

  /** The test `(bool) i & mask` of the `encode(uint16_t)` loop: the cast binds first. */
  function MaskTest(i: bv16, mask: bv16): (b: bool)
    ensures b == (i != 0 && mask & 1 == 1)
  {
    FromBool(i != 0) & mask as bv32 != 0
  }

  lemma ScannedBit(i: bv16, n: bv6, mask: bv16, bit: bool)
    requires 0 < n <= 16 && mask == 1 << (n - 1)
    requires bit == (i != 0 && mask & 1 == 1)
    ensures bit == Bit16(Scanned(i), n - 1)
    ensures mask >> 1 == if n == 1 then 0 else 1 << (n - 2)
  {
  }

  /** Encoding the scanned word in MFM: all clocks set from pair 14 down to pair 1, the top
      clock only after a zero history bit, and the bottom pair `01` or `10`. */
  lemma ScanWord(c: Codec, i: bv16)
    requires !c.IsFm()
    ensures Modulate(c, Scanned(i), 16).value == (if c.last then 0 else 0x8000_0000) | 0x2AAA_AAA8 | (if i != 0 then 1 else 2)
    ensures Modulate(c, Scanned(i), 16).state == c.(last := i != 0)
  {
    var s := Scanned(i);
    ModulateBits(c, s, 16);
    ModulateFits(c, s, 16);
    var y: bv32 := (if c.last then 0 else 0x8000_0000) | 0x2AAA_AAA8 | (if i != 0 then 1 else 2);
    forall k: bv6 | k < 16
      ensures DataBit32(Modulate(c, s, 16).value, k) == DataBit32(y, k)
      ensures ClockBit32(Modulate(c, s, 16).value, k) == ClockBit32(y, k)
    {
      ScanPair(c, i, k, y);
    }
    PairsEqual(Modulate(c, s, 16).value, y, 16);
  }

  /** Pair `k` of the closed form of `ScanWord` holds bit `k` of the scanned word and the
      clock the MFM rule gives it. */
  lemma ScanPair(c: Codec, i: bv16, k: bv6, y: bv32)
    requires !c.IsFm() && k < 16
    requires y == (if c.last then 0 else 0x8000_0000) | 0x2AAA_AAA8 | (if i != 0 then 1 else 2)
    ensures DataBit32(y, k) == Bit16(Scanned(i), k)
    ensures ClockBit32(y, k) == ClockRule(c, Scanned(i), 16, k)
  {
    if k + 1 < 16 {
      assert !Bit16(Scanned(i), k + 1);
    }
  }

  /** `decode(uint8_t)`: the four data positions of a byte, packed. */
  function Decode8(i: bv8): (r: bv8)
    ensures r < 16
    ensures forall k: bv6 :: k < 4 ==> Bit8(r, k) == Bit8(i, 2 * k)
  {
    var w := i as bv32;
    var x := (1 & w) | ((4 & w) >> 1) | ((16 & w) >> 2) | ((64 & w) >> 3);
    (x & 0xFF) as bv8
  }

  /** `decode(uint16_t)`. Its seventh term is `((1 << 6) & i) >> 4` where `((1 << 12) & i) >> 6`
      belongs: input bit 6 is ORed into output bit 2, input bit 12 is never read, and output
      bit 6 stays zero. */
  function Decode16(i: bv16): (r: bv8)
    ensures forall k: bv6 :: k < 8 && k != 2 && k != 6 ==> Bit8(r, k) == DataBit16(i, k)
    ensures Bit8(r, 2) == (DataBit16(i, 2) || DataBit16(i, 3))
    ensures !Bit8(r, 6)
  {
    var w := i as bv32;
    var x := (1 & w) | ((4 & w) >> 1) | ((16 & w) >> 2) | ((64 & w) >> 3) | (((1 << 8) & w) >> 4)
             | (((1 << 10) & w) >> 5) | (((1 << 6) & w) >> 4) | (((1 << 14) & w) >> 7);
    (x & 0xFF) as bv8
  }

  /** `decode(uint32_t)`: the same defect as `decode(uint16_t)` in the low byte; the high
      byte reads data positions 16 to 30. */
  function Decode32(i: bv32): (r: bv16)
    ensures forall k: bv6 :: k < 16 && k != 2 && k != 6 ==> Bit16(r, k) == DataBit32(i, k)
    ensures Bit16(r, 2) == (DataBit32(i, 2) || DataBit32(i, 3))
    ensures !Bit16(r, 6)
  {
    var x := (1 & i) | ((4 & i) >> 1) | ((16 & i) >> 2) | ((64 & i) >> 3) | (((1 << 8) & i) >> 4)
             | (((1 << 10) & i) >> 5) | (((1 << 6) & i) >> 4) | (((1 << 14) & i) >> 7)
             | (((1 << 16) & i) >> 8) | (((1 << 18) & i) >> 9) | (((1 << 20) & i) >> 10)
             | (((1 << 22) & i) >> 11) | (((1 << 24) & i) >> 12) | (((1 << 26) & i) >> 13)
             | (((1 << 28) & i) >> 14) | (((1 << 30) & i) >> 15);
    (x & 0xFFFF) as bv16
  }
}
