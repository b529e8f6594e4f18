/** The single-bit encoding rule applied across a word, most significant bit first, with the
    code of bit `k` placed at bits `2k+1` (clock) and `2k` (data). This is what the block
    encoders are meant to compute; the as-written block encoders are characterised by it. */
module Modulation {
  import opened Bits
  import opened CodecState
  import opened BitCodec

  /** Encodes bits `n-1 .. 0` of `v`, in that order, by `encode(bool)` calls on `c`. */
  function Modulate(c: Codec, v: bv16, n: bv6): (r: Out<bv32>)
    requires n <= 16
    decreases n
  {
    if n == 0 then Out(0, c)
    else
      var e := EncodeBit(c, Bit16(v, n - 1));
      var rest := Modulate(e.state, v, n - 1);
      Out(((e.value as bv32) << (2 * (n - 1))) | rest.value, rest.state)
  }

  /** The clock bit the MFM rule gives pair `k` of a modulated word: set in FM, and in MFM
      only when data bit `k` and the data bit encoded just before it are both zero. */
  predicate ClockRule(c: Codec, v: bv16, n: bv6, k: bv6)
    requires k < n <= 16
  {
    c.IsFm() || (!Bit16(v, k) && !(if k + 1 < n then Bit16(v, k + 1) else c.last))
  }

  lemma PlaceHigh(code: bv8, m: bv6, below: bv32, r: bv32)
    requires code < 4 && m < 16
    requires below >> (2 * m) == 0
    requires r == ((code as bv32) << (2 * m)) | below
    ensures r >> (2 * m + 2) == 0
  {
  }

  lemma PlaceBelowData(code: bv8, m: bv6, below: bv32, r: bv32, k: bv6)
    requires code < 4 && k < m < 16
    requires r == ((code as bv32) << (2 * m)) | below
    ensures Bit32(r, 2 * k) == Bit32(below, 2 * k)
  {
  }

  lemma PlaceBelowClock(code: bv8, m: bv6, below: bv32, r: bv32, k: bv6)
    requires code < 4 && k < m < 16
    requires r == ((code as bv32) << (2 * m)) | below
    ensures Bit32(r, 2 * k + 1) == Bit32(below, 2 * k + 1)
  {
  }

  /** Placing a code at pair `m` leaves the data position of every lower pair alone. */
  lemma PlaceBelowDataAt(code: bv8, m: bv6, below: bv32, r: bv32, k: bv6)
    requires code < 4 && k < m < 16
    requires r == ((code as bv32) << (2 * m)) | below
    ensures DataBit32(r, k) == DataBit32(below, k)
  {
    PlaceBelowData(code, m, below, r, k);
  }

  /** Placing a code at pair `m` leaves the clock position of every lower pair alone. */
  lemma PlaceBelowClockAt(code: bv8, m: bv6, below: bv32, r: bv32, k: bv6)
    requires code < 4 && k < m < 16
    requires r == ((code as bv32) << (2 * m)) | below
    ensures ClockBit32(r, k) == ClockBit32(below, k)
  {
    PlaceBelowClock(code, m, below, r, k);
  }

  lemma PlaceAt(code: bv8, m: bv6, below: bv32, r: bv32)
    requires code < 4 && m < 16
    requires below >> (2 * m) == 0
    requires r == ((code as bv32) << (2 * m)) | below
    ensures Bit32(r, 2 * m) == Data(code)
    ensures Bit32(r, 2 * m + 1) == Clock(code)
  {
  }

  /** One step of `Modulate`: the top pair holds the code of bit `n-1`, the pairs below it
      the modulation of the remaining bits. */
  lemma ModulateStep(c: Codec, v: bv16, n: bv6)
    requires 0 < n <= 16
    ensures var e := EncodeBit(c, Bit16(v, n - 1));
            Modulate(c, v, n).value == ((e.value as bv32) << (2 * (n - 1))) | Modulate(e.state, v, n - 1).value
    ensures Modulate(c, v, n).state == Modulate(EncodeBit(c, Bit16(v, n - 1)).state, v, n - 1).state
  {
  }

  /** A modulated word occupies only its `2n` low bits, and the history bit left behind is
      the last (least significant) bit encoded. */
  lemma {:induction false} ModulateFits(c: Codec, v: bv16, n: bv6)
    requires n <= 16
    ensures Modulate(c, v, n).value >> (2 * n) == 0
    ensures Modulate(c, v, n).state == if n == 0 then c else c.(last := Bit16(v, 0))
    decreases n
  {
    if n > 0 {
      var e := EncodeBit(c, Bit16(v, n - 1));
      ModulateFits(e.state, v, n - 1);
      ModulateStep(c, v, n);
      PlaceHigh(e.value, n - 1, Modulate(e.state, v, n - 1).value, Modulate(c, v, n).value);
    }
  }

  lemma DataBelow(c: Codec, v: bv16, n: bv6, k: bv6)
    requires 0 < n <= 16 && k < n - 1
    ensures var e := EncodeBit(c, Bit16(v, n - 1));
            DataBit32(Modulate(c, v, n).value, k) == DataBit32(Modulate(e.state, v, n - 1).value, k)
  {
    var e := EncodeBit(c, Bit16(v, n - 1));
    var m := n - 1;
    ModulateStep(c, v, n);
    PlaceBelowDataAt(e.value, m, Modulate(e.state, v, m).value, Modulate(c, v, n).value, k);
  }

  lemma ClockBelow(c: Codec, v: bv16, n: bv6, k: bv6)
    requires 0 < n <= 16 && k < n - 1
    ensures var e := EncodeBit(c, Bit16(v, n - 1));
            ClockBit32(Modulate(c, v, n).value, k) == ClockBit32(Modulate(e.state, v, n - 1).value, k)
  {
    var e := EncodeBit(c, Bit16(v, n - 1));
    var m := n - 1;
    ModulateStep(c, v, n);
    PlaceBelowClockAt(e.value, m, Modulate(e.state, v, m).value, Modulate(c, v, n).value, k);
  }

  /** The top pair of a modulated word is the single-bit code of its top bit. */
  lemma TopPair(c: Codec, v: bv16, n: bv6)
    requires 0 < n <= 16
    ensures DataBit32(Modulate(c, v, n).value, n - 1) == Bit16(v, n - 1)
    ensures ClockBit32(Modulate(c, v, n).value, n - 1) == ClockRule(c, v, n, n - 1)
  {
    var e := EncodeBit(c, Bit16(v, n - 1));
    ModulateStep(c, v, n);
    ModulateFits(e.state, v, n - 1);
    PlaceAt(e.value, n - 1, Modulate(e.state, v, n - 1).value, Modulate(c, v, n).value);
  }

  /** Data position `2k` of a modulated word carries input bit `k`. */
  lemma {:induction false} ModulateDataAt(c: Codec, v: bv16, n: bv6, k: bv6)
    requires k < n <= 16
    ensures DataBit32(Modulate(c, v, n).value, k) == Bit16(v, k)
    decreases n
  {
    if k < n - 1 {
      var e := EncodeBit(c, Bit16(v, n - 1));
      ModulateDataAt(e.state, v, n - 1, k);
      DataBelow(c, v, n, k);
    } else {
      TopPair(c, v, n);
    }
  }

  /** Clock position `2k+1` of a modulated word follows the clock rule. */
  lemma {:induction false} ModulateClockAt(c: Codec, v: bv16, n: bv6, k: bv6)
    requires k < n <= 16
    ensures ClockBit32(Modulate(c, v, n).value, k) == ClockRule(c, v, n, k)
    decreases n
  {
    if k < n - 1 {
      var e := EncodeBit(c, Bit16(v, n - 1));
      ModulateClockAt(e.state, v, n - 1, k);
      ClockBelow(c, v, n, k);
      assert ClockRule(e.state, v, n - 1, k) == ClockRule(c, v, n, k);
    } else {
      TopPair(c, v, n);
    }
  }

  /** The whole characterisation: every data position carries its input bit, every clock
      position follows the clock rule, nothing is set above the `2n` low bits. */
  lemma ModulateBits(c: Codec, v: bv16, n: bv6)
    requires n <= 16
    ensures var r := Modulate(c, v, n).value;
            && r >> (2 * n) == 0
            && (forall k: bv6 :: k < n ==> DataBit32(r, k) == Bit16(v, k))
            && (forall k: bv6 :: k < n ==> ClockBit32(r, k) == ClockRule(c, v, n, k))
  {
    ModulateFits(c, v, n);
    forall k: bv6 | k < n
      ensures DataBit32(Modulate(c, v, n).value, k) == Bit16(v, k)
      ensures ClockBit32(Modulate(c, v, n).value, k) == ClockRule(c, v, n, k)
    {
      ModulateDataAt(c, v, n, k);
      ModulateClockAt(c, v, n, k);
    }
  }

  lemma HighClear(x: bv32, n: bv6, p: bv6)
    requires n <= 16 && 2 * n <= p < 32
    requires x >> (2 * n) == 0
    ensures !Bit32(x, p)
  {
  }

  /** Two words of `n` pairs are equal when they agree on every clock and data position. */
  lemma PairsEqual(x: bv32, y: bv32, n: bv6)
    requires n <= 16
    requires x >> (2 * n) == 0 && y >> (2 * n) == 0
    requires forall k: bv6 :: k < n ==> DataBit32(x, k) == DataBit32(y, k)
    requires forall k: bv6 :: k < n ==> ClockBit32(x, k) == ClockBit32(y, k)
    ensures x == y
  {
    forall p: bv6 | p < 32
      ensures Bit32(x, p) == Bit32(y, p)
    {
      if p < 2 * n {
        var k := p / 2;
        if p % 2 == 0 {
          assert p == 2 * k && DataBit32(x, k) == DataBit32(y, k);
        } else {
          assert p == 2 * k + 1 && ClockBit32(x, k) == ClockBit32(y, k);
        }
      } else {
        HighClear(x, n, p);
        HighClear(y, n, p);
      }
    }
    Equal32(x, y);
  }
}
