/** The block codec as the single-bit rule and the structure of the code evidently intend it:
    the MFM loops walk from the top pair down and the FM word formula puts input bit `k` at
    data position `2k`, so every data bit of the input lands on a data position of the output,
    most significant bit first, exactly as feeding the bits one by one to `encode(bool)` would
    place them, and the block decoders read back every data position. The library's own block functions (module `BlockCodec`) are compared against
    these definitions below: where they agree the comparison is a lemma, where they do not a
    concrete input shows the difference. */
module IntendedBlockCodec {
  import opened Bits
  import opened CodecState
  import opened BitCodec
  import opened Modulation
  import BlockCodec

  /** `encode(uint16_t)` as intended: the sixteen bits, high to low, through `encode(bool)`. */
  function EncodeWord(c: Codec, i: bv16): (r: Out<bv32>)
    ensures forall k: bv6 :: k < 16 ==> DataBit32(r.value, k) == Bit16(i, k)
    ensures forall k: bv6 :: k < 16 ==> ClockBit32(r.value, k) == ClockRule(c, i, 16, k)
    ensures r.state == c.(last := Bit16(i, 0))
  {
    ModulateBits(c, i, 16);
    ModulateFits(c, i, 16);
    Modulate(c, i, 16)
  }

  /** `encode(uint8_t)` as intended: the eight bits, high to low, through `encode(bool)`;
      the modulated value occupies the sixteen low bits. */
  function EncodeByte(c: Codec, i: bv8): (r: Out<bv16>)
    ensures forall k: bv6 :: k < 8 ==> DataBit16(r.value, k) == Bit8(i, k)
    ensures forall k: bv6 :: k < 8 ==> ClockBit16(r.value, k) == ClockRule(c, i as bv16, 8, k)
    ensures r.state == c.(last := Bit8(i, 0))
  {
    var m := Modulate(c, i as bv16, 8);
    ModulateFits(c, i as bv16, 8);
    var r := Out(Narrow(m.value), m.state);
    ByteBits(c, i, m, r.value);
    r
  }

  /** The low sixteen bits of a word whose high half is clear. */
  function Narrow(x: bv32): (r: bv16)
    requires x >> 16 == 0
    ensures r as bv32 == x
  {
    (x & 0xFFFF) as bv16
  }

  lemma ByteBits(c: Codec, i: bv8, m: Out<bv32>, r: bv16)
    requires m == Modulate(c, i as bv16, 8) && r as bv32 == m.value
    ensures forall k: bv6 :: k < 8 ==> DataBit16(r, k) == Bit8(i, k)
    ensures forall k: bv6 :: k < 8 ==> ClockBit16(r, k) == ClockRule(c, i as bv16, 8, k)
    ensures m.state == c.(last := Bit8(i, 0))
  {
    ModulateBits(c, i as bv16, 8);
    ModulateFits(c, i as bv16, 8);
    forall k: bv6 | k < 8
      ensures DataBit16(r, k) == Bit8(i, k)
      ensures ClockBit16(r, k) == ClockRule(c, i as bv16, 8, k)
    {
      Widen8(i, k);
      Widen16(r, k);
    }
    Widen8(i, 0);
  }

  lemma Widen8(i: bv8, k: bv6)
    requires k < 8
    ensures Bit16(i as bv16, k) == Bit8(i, k)
  {
  }

  lemma Widen16(r: bv16, k: bv6)
    requires k < 8
    ensures DataBit16(r, k) == DataBit32(r as bv32, k)
    ensures ClockBit16(r, k) == ClockBit32(r as bv32, k)
  {
  }

  /** `decode(uint16_t)` as intended: the seventh term reads input bit 12 into output bit 6. */
  function Decode16(i: bv16): (r: bv8)
    ensures forall k: bv6 :: k < 8 ==> Bit8(r, k) == DataBit16(i, k)
  {
    var w := i as bv32;
    var x := (1 & w) | ((4 & w) >> 1) | ((16 & w) >> 2) | ((64 & w) >> 3) | (((1 << 8) & w) >> 4)
             | (((1 << 10) & w) >> 5) | (((1 << 12) & w) >> 6) | (((1 << 14) & w) >> 7);
    var r := (x & 0xFF) as bv8;
    assert forall k: bv6 :: k < 8 ==> Bit8(r, k) == DataBit16(i, k) by {
      forall k: bv6 | k < 8
        ensures Bit8(r, k) == DataBit16(i, k)
      {
        // one case per bit, so that every shift amount is a constant
        if k == 0 {
        } else if k == 1 {
        } else if k == 2 {
        } else if k == 3 {
        } else if k == 4 {
        } else if k == 5 {
        } else if k == 6 {
        } else {
        }
      }
    }
    r
  }

  /** `decode(uint32_t)` as intended: the seventh term reads input bit 12 into output bit 6. */
  function Decode32(i: bv32): (r: bv16)
    ensures forall k: bv6 :: k < 16 ==> Bit16(r, k) == DataBit32(i, k)
  {
    var x := (1 & i) | ((4 & i) >> 1) | ((16 & i) >> 2) | ((64 & i) >> 3) | (((1 << 8) & i) >> 4)
             | (((1 << 10) & i) >> 5) | (((1 << 12) & i) >> 6) | (((1 << 14) & i) >> 7)
             | (((1 << 16) & i) >> 8) | (((1 << 18) & i) >> 9) | (((1 << 20) & i) >> 10)
             | (((1 << 22) & i) >> 11) | (((1 << 24) & i) >> 12) | (((1 << 26) & i) >> 13)
             | (((1 << 28) & i) >> 14) | (((1 << 30) & i) >> 15);
    var r := (x & 0xFFFF) as bv16;
    assert forall k: bv6 :: k < 16 ==> Bit16(r, k) == DataBit32(i, k) by {
      forall k: bv6 | k < 16
        ensures Bit16(r, k) == DataBit32(i, k)
      {
        // one case per bit, so that every shift amount is a constant
        if k == 0 {
        } else if k == 1 {
        } else if k == 2 {
        } else if k == 3 {
        } else if k == 4 {
        } else if k == 5 {
        } else if k == 6 {
        } else if k == 7 {
        } else if k == 8 {
        } else if k == 9 {
        } else if k == 10 {
        } else if k == 11 {
        } else if k == 12 {
        } else if k == 13 {
        } else if k == 14 {
        } else {
        }
      }
    }
    r
  }

  /** Intended round trip of a word, in either mode and from any history. */
  lemma WordRoundTrip(c: Codec, v: bv16)
    ensures Decode32(EncodeWord(c, v).value) == v
  {
    Equal16(Decode32(EncodeWord(c, v).value), v);
  }

  /** Intended round trip of a byte, in either mode and from any history. */
  lemma ByteRoundTrip(c: Codec, b: bv8)
    ensures Decode16(EncodeByte(c, b).value) == b
  {
    Equal8(Decode16(EncodeByte(c, b).value), b);
  }

  /** `decode(uint8_t)` undoes four calls of `encode(bool)`: the code of a nibble, in either
      mode and from any history, decodes to that nibble. */
  lemma NibbleRoundTrip(c: Codec, v: bv8)
    requires v < 16
    ensures Modulate(c, v as bv16, 4).value >> 8 == 0
    ensures BlockCodec.Decode8((Modulate(c, v as bv16, 4).value & 0xFF) as bv8) == v
  {
    var m := Modulate(c, v as bv16, 4).value;
    ModulateBits(c, v as bv16, 4);
    var x := (m & 0xFF) as bv8;
    var r := BlockCodec.Decode8(x);
    forall k: bv6 | k < 8
      ensures Bit8(r, k) == Bit8(v, k)
    {
      if k < 4 {
        assert Bit8(x, 2 * k) == DataBit32(m, k);
        Widen8(v, k);
      }
    }
    Equal8(r, v);
  }

  /** What the as-written decoders make of a correctly decoded value: bit 6 is lost and
      bit 3 is ORed into bit 2 as well; every other bit is kept. */
  function Misread8(v: bv8): (r: bv8)
    ensures r & 0xBB == v & 0xBB
    ensures r & 0x40 == 0
    ensures (r & 4 != 0) <==> (v & 4 != 0 || v & 8 != 0)
  {
    (v & 0xBF) | ((v & 8) >> 1)
  }

  /** The same misreading of a decoded 16-bit value. */
  function Misread16(v: bv16): (r: bv16)
    ensures r & 0xFFBB == v & 0xFFBB
    ensures r & 0x40 == 0
    ensures (r & 4 != 0) <==> (v & 4 != 0 || v & 8 != 0)
  {
    (v & 0xFFBF) | ((v & 8) >> 1)
  }

  /** The as-written `decode(uint16_t)` is the intended one followed by the misreading. */
  lemma Decode16AsWritten(x: bv16)
    ensures BlockCodec.Decode16(x) == Misread8(Decode16(x))
  {
  }

  /** The as-written `decode(uint32_t)` is the intended one followed by the misreading. */
  lemma Decode32AsWritten(x: bv32)
    ensures BlockCodec.Decode32(x) == Misread16(Decode32(x))
  {
  }

  /** Outside output bits 2 and 6 the as-written decoders agree with the intended ones; in
      particular the whole high byte of `decode(uint32_t)` is right. */
  lemma DecodersAgreeElsewhere(x: bv16, y: bv32)
    ensures BlockCodec.Decode16(x) & 0xBB == Decode16(x) & 0xBB
    ensures BlockCodec.Decode32(y) & 0xFFBB == Decode32(y) & 0xFFBB
    ensures BlockCodec.Decode32(y) >> 8 == Decode32(y) >> 8
  {
    Decode16AsWritten(x);
    Decode32AsWritten(y);
  }

  /** The misreading changes a value exactly when bit 6 is set or bit 3 is set without
      bit 2. */
  lemma MisreadFixed(v: bv16)
    ensures Misread16(v) == v <==> v & 0x40 == 0 && (v & 8 == 0 || v & 4 != 0)
    ensures (v >> 8 == 0) ==> (Misread8((v & 0xFF) as bv8) as bv16 == Misread16(v))
  {
  }

  /** The as-written `decode(uint16_t)` returns what the intended one does exactly when data
      position 6 is clear and data position 3 is clear or accompanied by data position 2. */
  lemma Decode16AgreesIff(x: bv16)
    ensures BlockCodec.Decode16(x) == Decode16(x) <==> !DataBit16(x, 6) && (DataBit16(x, 3) ==> DataBit16(x, 2))
  {
    Decode16AsWritten(x);
    var v := Decode16(x);
    if BlockCodec.Decode16(x) == v {
      assert Bit8(Misread8(v), 6) == Bit8(v, 6);
      assert Bit8(Misread8(v), 2) == Bit8(v, 2);
    }
    if !DataBit16(x, 6) && (DataBit16(x, 3) ==> DataBit16(x, 2)) {
      Equal8(Misread8(v), v);
    }
  }

  /** In FM the as-written `encode(uint16_t)` is the intended one, for every word. */
  lemma FmWordAgrees(c: Codec, i: bv16)
    requires c.IsFm()
    ensures BlockCodec.EncodeWord(c, i) == EncodeWord(c, i)
  {
    var x := BlockCodec.EncodeWord(c, i).value;
    var y := EncodeWord(c, i).value;
    ModulateFits(c, i, 16);
    PairsEqual(x, y, 16);
  }

  /** In MFM the as-written `encode(uint16_t)` encodes the word that has only bit 0 set,
      and only when the input is non-zero, instead of the input. */
  lemma MfmWordScans(c: Codec, i: bv16)
    requires !c.IsFm()
    ensures BlockCodec.EncodeWord(c, i) == EncodeWord(c, BlockCodec.Scanned(i))
  {
    BlockCodec.ScanWord(c, i);
  }

  /** So in MFM the as-written and intended word encoders agree exactly on the inputs 0
      and 1. */
  lemma MfmWordAgreesIff(c: Codec, i: bv16)
    requires !c.IsFm()
    ensures BlockCodec.EncodeWord(c, i) == EncodeWord(c, i) <==> i < 2
  {
    MfmWordScans(c, i);
    var s := BlockCodec.Scanned(i);
    if EncodeWord(c, s) == EncodeWord(c, i) {
      forall k: bv6 | k < 16
        ensures Bit16(s, k) == Bit16(i, k)
      {
        assert DataBit32(EncodeWord(c, s).value, k) == DataBit32(EncodeWord(c, i).value, k);
      }
      Equal16(s, i);
    }
  }

  /** In MFM the as-written `encode(uint8_t)` encodes eight zero bits, whatever the input. */
  lemma MfmByteScans(c: Codec, b: bv8)
    requires !c.IsFm()
    ensures BlockCodec.EncodeByte(c, b) == EncodeByte(c, 0)
  {
    var y := EncodeByte(c, 0).value;
    BlockCodec.ScanZeroByte(c);
    assert Narrow(Modulate(c, 0, 8).value) == y;
  }

  /** So in MFM the as-written and intended byte encoders agree only on the input 0. */
  lemma MfmByteAgreesIff(c: Codec, b: bv8)
    requires !c.IsFm()
    ensures BlockCodec.EncodeByte(c, b) == EncodeByte(c, b) <==> b == 0
  {
    MfmByteScans(c, b);
    if EncodeByte(c, 0) == EncodeByte(c, b) {
      forall k: bv6 | k < 8
        ensures Bit8(b, k) == Bit8(0, k)
      {
        assert DataBit16(EncodeByte(c, 0).value, k) == DataBit16(EncodeByte(c, b).value, k);
      }
      Equal8(b, 0);
    }
  }

  /** Two 16-bit code words are equal when they agree on all eight clock and data
      positions. */
  lemma CodesEqual16(x: bv16, y: bv16)
    requires forall k: bv6 :: k < 8 ==> DataBit16(x, k) == DataBit16(y, k)
    requires forall k: bv6 :: k < 8 ==> ClockBit16(x, k) == ClockBit16(y, k)
    ensures x == y
  {
    var wx, wy := x as bv32, y as bv32;
    forall k: bv6 | k < 8
      ensures DataBit32(wx, k) == DataBit32(wy, k)
      ensures ClockBit32(wx, k) == ClockBit32(wy, k)
    {
      Widen16(x, k);
      Widen16(y, k);
    }
    PairsEqual(wx, wy, 8);
  }

  /** In FM the as-written `encode(uint8_t)` agrees with the intended one only on the inputs
      0 and 1: every other bit lands three times as far up as it should. */
  lemma FmByteAgreesIff(c: Codec, b: bv8)
    requires c.IsFm()
    ensures BlockCodec.EncodeByte(c, b) == EncodeByte(c, b) <==> b < 2
  {
    var x := BlockCodec.EncodeByte(c, b).value;
    var y := EncodeByte(c, b).value;
    if b < 2 {
      forall k: bv6 | k < 8
        ensures DataBit16(x, k) == DataBit16(y, k)
        ensures ClockBit16(x, k) == ClockBit16(y, k)
      {
        if k > 0 {
          assert !Bit8(b, k);
        }
      }
      CodesEqual16(x, y);
    }
    if x == y {
      assert DataBit16(x, 1) == DataBit16(y, 1) && DataBit16(x, 2) == DataBit16(y, 2);
      assert DataBit16(x, 3) == DataBit16(y, 3) && DataBit16(x, 4) == DataBit16(y, 4);
      assert DataBit16(x, 5) == DataBit16(y, 5) && DataBit16(x, 6) == DataBit16(y, 6);
      assert DataBit16(x, 7) == DataBit16(y, 7);
      assert !Bit8(b, 1) && !Bit8(b, 2) && !Bit8(b, 3) && !Bit8(b, 4) && !Bit8(b, 5) && !Bit8(b, 6) && !Bit8(b, 7);
    }
  }

  /** FM word round trip through the library's own functions: the word comes back
      misread, which changes it exactly when bit 6 is set or bit 3 is set without bit 2. */
  lemma FmWordTrip(c: Codec, v: bv16)
    requires c.IsFm()
    ensures BlockCodec.Decode32(BlockCodec.EncodeWord(c, v).value) == Misread16(v)
    ensures BlockCodec.Decode32(BlockCodec.EncodeWord(c, v).value) == v
            <==> v & 0x40 == 0 && (v & 8 == 0 || v & 4 != 0)
  {
    FmWordAgrees(c, v);
    WordRoundTrip(c, v);
    Decode32AsWritten(EncodeWord(c, v).value);
    MisreadFixed(v);
  }

  /** MFM word round trip through the library's own functions: only whether the word was
      non-zero comes back. */
  lemma MfmWordTrip(c: Codec, v: bv16)
    requires !c.IsFm()
    ensures BlockCodec.Decode32(BlockCodec.EncodeWord(c, v).value) == if v != 0 then 1 else 0
  {
  }

  /** FM byte round trip through the library's own functions: bit 0 comes back, bit 2
      comes back twice (in bits 2 and 3), every other bit is lost. */
  lemma FmByteTrip(c: Codec, b: bv8)
    requires c.IsFm()
    ensures BlockCodec.Decode16(BlockCodec.EncodeByte(c, b).value) == (b & 5) | ((b & 4) << 1)
    ensures BlockCodec.Decode16(BlockCodec.EncodeByte(c, b).value) == b <==> b in {0, 1, 12, 13}
  {
    var r := BlockCodec.Decode16(BlockCodec.EncodeByte(c, b).value);
    var y := (b & 5) | ((b & 4) << 1);
    forall k: bv6 | k < 8
      ensures Bit8(r, k) == Bit8(y, k)
    {
      // one case per bit, so that every shift amount is a constant
      if k == 0 {
      } else if k == 1 {
      } else if k == 2 {
      } else if k == 3 {
      } else if k == 4 {
      } else if k == 5 {
      } else if k == 6 {
      } else {
      }
    }
    Equal8(r, y);
  }

  /** MFM byte round trip through the library's own functions: nothing comes back. */
  lemma MfmByteTrip(c: Codec, b: bv8)
    requires !c.IsFm()
    ensures BlockCodec.Decode16(BlockCodec.EncodeByte(c, b).value) == 0
  {
  }

  /** The FM byte defect on one input: 0x02 should give 0xAAAE (data position 1 set) but
      gives 0xAAAA, its bit landing on clock position 3, which is set anyway. */
  lemma FmByteExample()
    ensures BlockCodec.EncodeByte(SetType(New(), FM), 2).value == 0xAAAA
    ensures EncodeByte(SetType(New(), FM), 2).value == 0xAAAE
  {
    var c := SetType(New(), FM);
    var y := EncodeByte(c, 2).value;
    forall k: bv6 | k < 8
      ensures DataBit16(y, k) == DataBit16(0xAAAE, k)
      ensures ClockBit16(y, k) == ClockBit16(0xAAAE, k)
    {
      // one case per bit, so that every shift amount is a constant
      if k == 0 {
      } else if k == 1 {
      } else if k == 2 {
      } else if k == 3 {
      } else if k == 4 {
      } else if k == 5 {
      } else if k == 6 {
      } else {
      }
    }
    CodesEqual16(y, 0xAAAE);
  }

  /** The MFM byte defect on one input: 0xFF on a fresh instance should give 0x5555 but
      gives the code of eight zeros after a one, 0x2AAA. */
  lemma MfmByteExample()
    ensures BlockCodec.EncodeByte(New(), 0xFF).value == 0x2AAA
    ensures EncodeByte(New(), 0xFF).value == 0x5555
  {
    var y := EncodeByte(New(), 0xFF).value;
    forall k: bv6 | k < 8
      ensures DataBit16(y, k) == DataBit16(0x5555, k)
      ensures ClockBit16(y, k) == ClockBit16(0x5555, k)
    {
      // one case per bit, so that every shift amount is a constant
      if k == 0 {
      } else if k == 1 {
      } else if k == 2 {
      } else if k == 3 {
      } else if k == 4 {
      } else if k == 5 {
      } else if k == 6 {
      } else {
      }
    }
    CodesEqual16(y, 0x5555);
  }

  /** The MFM word defect on one input: 0xFFFF on a fresh instance should give 0x55555555
      but gives 0x2AAAAAA9. */
  lemma MfmWordExample()
    ensures BlockCodec.EncodeWord(New(), 0xFFFF).value == 0x2AAA_AAA9
    ensures EncodeWord(New(), 0xFFFF).value == 0x5555_5555
  {
    var y := EncodeWord(New(), 0xFFFF).value;
    forall k: bv6 | k < 16
      ensures DataBit32(y, k) == DataBit32(0x5555_5555, k)
      ensures ClockBit32(y, k) == ClockBit32(0x5555_5555, k)
    {
      // one case per bit, so that every shift amount is a constant
      if k == 0 {
      } else if k == 1 {
      } else if k == 2 {
      } else if k == 3 {
      } else if k == 4 {
      } else if k == 5 {
      } else if k == 6 {
      } else if k == 7 {
      } else if k == 8 {
      } else if k == 9 {
      } else if k == 10 {
      } else if k == 11 {
      } else if k == 12 {
      } else if k == 13 {
      } else if k == 14 {
      } else {
      }
    }
    PairsEqual(y, 0x5555_5555, 16);
  }

  /** The decoder defect on two inputs: data position 6 alone decodes to 0 instead of 0x40,
      and data position 3 alone to 0x0C instead of 0x08. */
  lemma DecodeExample()
    ensures BlockCodec.Decode16(0x1000) == 0 && Decode16(0x1000) == 0x40
    ensures BlockCodec.Decode16(0x0040) == 0x0C && Decode16(0x0040) == 0x08
    ensures BlockCodec.Decode32(0x1000) == 0 && Decode32(0x1000) == 0x40
  {
  }
}
