/** The single-bit codec: `encode(bool)` and `decode(bool)`, and the streams obtained by
    calling them repeatedly on one instance. */
module BitCodec {
  import opened Bits
  import opened CodecState

  /** The clock half (bit 1) of a two-bit code. */
  predicate Clock(code: bv8) {
    code & 2 == 2
  }

  /** The data half (bit 0) of a two-bit code. */
  predicate Data(code: bv8) {
    code & 1 == 1
  }

  /** `encode(bool)`: the (clock, data) pair for bit `i` in bits 1..0.
      FM always clocks; MFM clocks only between two zero data bits. */
  function EncodeBit(c: Codec, i: bool): (r: Out<bv8>)
    ensures r.value < 4
    ensures Data(r.value) == i
    ensures c.IsFm() ==> Clock(r.value)
    ensures !c.IsFm() ==> (Clock(r.value) <==> !i && !c.last)
    ensures r.state == c.(last := i)
  {
    var ret: bv8 :=
      if c.IsFm() then 2 | FromBool(i) as bv8
      else if i then 1
      else if !c.last then 2
      else 0;
    Out(ret, c.(last := i))
  }

  /** `decode(bool)`: a clock-phase bit yields 0 and is discarded unchecked; a data-phase
      bit yields `2 | i`. Only the phase changes. */
  function DecodeBit(c: Codec, i: bool): (r: Out<bv8>)
    ensures r.state == c.(lastType := !c.lastType)
    ensures c.lastType == DATA ==> r.value == 0
    ensures c.lastType == CLOCK ==> r.value < 4 && Clock(r.value) && Data(r.value) == i
  {
    if c.lastType == DATA then
      Out(0, c.(lastType := CLOCK))
    else
      Out(2 | FromBool(i) as bv8, c.(lastType := DATA))
  }

  /** Calls `encode(bool)` once per bit, in order, on the same instance. */
  function EncodeBits(c: Codec, bits: seq<bool>): (r: Out<seq<bv8>>)
    ensures |r.value| == |bits|
    ensures r.state == if |bits| == 0 then c else c.(last := bits[|bits| - 1])
    decreases |bits|
  {
    if |bits| == 0 then Out([], c)
    else
      var e := EncodeBit(c, bits[0]);
      var rest := EncodeBits(e.state, bits[1..]);
      Out([e.value] + rest.value, rest.state)
  }

  /** Calls `decode(bool)` once per physical bit, in order, on the same instance. */
  function DecodeBits(c: Codec, line: seq<bool>): (r: Out<seq<bv8>>)
    ensures |r.value| == |line|
    ensures r.state == c.(lastType := if |line| % 2 == 0 then c.lastType else !c.lastType)
    decreases |line|
  {
    if |line| == 0 then Out([], c)
    else
      var d := DecodeBit(c, line[0]);
      var rest := DecodeBits(d.state, line[1..]);
      Out([d.value] + rest.value, rest.state)
  }

  /** The physical bit stream of a sequence of codes: clock bit, then data bit, per code. */
  function Line(codes: seq<bv8>): (r: seq<bool>)
    ensures |r| == 2 * |codes|
    decreases |codes|
  {
    if |codes| == 0 then [] else [Clock(codes[0]), Data(codes[0])] + Line(codes[1..])
  }

  /** The data values a decoder reported: the results with bit 1 set, read at bit 0. */
  function Payload(outs: seq<bv8>): (r: seq<bool>)
    ensures |r| <= |outs|
    decreases |outs|
  {
    if |outs| == 0 then []
    else if Clock(outs[0]) then [Data(outs[0])] + Payload(outs[1..])
    else Payload(outs[1..])
  }

  /** No two adjacent ones in a physical stream. */
  predicate NoDoubleOne(s: seq<bool>) {
    forall j :: 0 <= j < |s| - 1 ==> !(s[j] && s[j + 1])
  }

  /** No four consecutive zeros in a physical stream. */
  predicate NoFourZeros(s: seq<bool>) {
    forall j :: 0 <= j < |s| - 3 ==> s[j] || s[j + 1] || s[j + 2] || s[j + 3]
  }

  /** The history bit that code `j` of a stream was encoded against. */
  function PrevBit(c: Codec, bits: seq<bool>, j: nat): bool
    requires j < |bits|
  {
    if j == 0 then c.last else bits[j - 1]
  }

  /** Code `j` of a stream is the single-bit code of `bits[j]` with the preceding data bit
      (or the instance's history bit, for the first code) as history. */
  lemma {:induction false} EncodeBitsAt(c: Codec, bits: seq<bool>, j: nat)
    requires j < |bits|
    ensures EncodeBits(c, bits).value[j] == EncodeBit(c.(last := PrevBit(c, bits, j)), bits[j]).value
    decreases j
  {
    if j > 0 {
      var e := EncodeBit(c, bits[0]);
      EncodeBitsAt(e.state, bits[1..], j - 1);
    }
  }

  /** The line of a non-empty code sequence starts with the first code's clock and data
      bits and continues with the line of the remaining codes. */
  lemma LineCons(codes: seq<bv8>)
    requires |codes| > 0
    ensures Line(codes)[0] == Clock(codes[0]) && Line(codes)[1] == Data(codes[0])
    ensures Line(codes)[2..] == Line(codes[1..])
  {
  }

  /** Position `2m` of the line is the clock of code `m`, position `2m+1` its data. */
  lemma {:induction false} LineAt(codes: seq<bv8>, m: nat)
    requires m < |codes|
    ensures Line(codes)[2 * m] == Clock(codes[m])
    ensures Line(codes)[2 * m + 1] == Data(codes[m])
    decreases m
  {
    LineCons(codes);
    if m > 0 {
      LineAt(codes[1..], m - 1);
      assert Line(codes)[2 * m] == Line(codes)[2..][2 * (m - 1)];
      assert Line(codes)[2 * m + 1] == Line(codes)[2..][2 * (m - 1) + 1];
    }
  }

  /** MFM never puts two ones next to each other, neither inside a pair nor across the
      boundary between consecutive pairs. */
  lemma MfmNoDoubleOne(c: Codec, bits: seq<bool>)
    requires !c.IsFm()
    ensures NoDoubleOne(Line(EncodeBits(c, bits).value))
  {
    var s := Line(EncodeBits(c, bits).value);
    forall j | 0 <= j < |s| - 1
      ensures !(s[j] && s[j + 1])
    {
      var m := j / 2;
      assert j == 2 * m || j == 2 * m + 1;
      PairNoDoubleOne(c, bits, m);
    }
  }

  /** Pair `m` of an MFM line is not `11`, and its data bit and the next clock bit are not
      both one. */
  lemma PairNoDoubleOne(c: Codec, bits: seq<bool>, m: nat)
    requires !c.IsFm() && m < |bits|
    ensures var s := Line(EncodeBits(c, bits).value);
            && !(s[2 * m] && s[2 * m + 1])
            && (m + 1 < |bits| ==> !(s[2 * m + 1] && s[2 * m + 2]))
  {
    var codes := EncodeBits(c, bits).value;
    EncodeBitsAt(c, bits, m);
    LineAt(codes, m);
    if m + 1 < |bits| {
      EncodeBitsAt(c, bits, m + 1);
      LineAt(codes, m + 1);
    }
  }

  /** What the MFM clock rule means for two neighbouring codes of one stream: a clocked
      code follows a zero, and an unclocked zero (`00`) follows a one. */
  lemma MfmNeighbours(c: Codec, bits: seq<bool>, m: nat)
    requires !c.IsFm()
    requires 0 < m < |bits|
    ensures var codes := EncodeBits(c, bits).value;
            (Clock(codes[m]) ==> !Data(codes[m - 1]))
            && (!Clock(codes[m]) && !Data(codes[m]) ==> Data(codes[m - 1]))
  {
    EncodeBitsAt(c, bits, m);
    EncodeBitsAt(c, bits, m - 1);
  }

  /** MFM never leaves more than three zeros in a row: a `00` pair only follows a one. */
  lemma MfmNoFourZeros(c: Codec, bits: seq<bool>)
    requires !c.IsFm()
    ensures NoFourZeros(Line(EncodeBits(c, bits).value))
  {
    var s := Line(EncodeBits(c, bits).value);
    forall j | 0 <= j < |s| - 3
      ensures s[j] || s[j + 1] || s[j + 2] || s[j + 3]
    {
      var m := j / 2;
      assert j == 2 * m || j == 2 * m + 1;
      PairNoGap(c, bits, m);
    }
  }

  /** Line positions `2m+1` to `2m+3`, which every window of four starting at `2m` or
      `2m+1` covers, are never all zero. */
  lemma PairNoGap(c: Codec, bits: seq<bool>, m: nat)
    requires !c.IsFm() && m + 1 < |bits|
    ensures var s := Line(EncodeBits(c, bits).value);
            s[2 * m + 1] || s[2 * m + 2] || s[2 * m + 3]
  {
    var codes := EncodeBits(c, bits).value;
    MfmNoGap(c, bits, m);
    LineAt(codes, m);
    LineAt(codes, m + 1);
  }

  /** The data bit of pair `m` and the whole pair `m + 1` (line positions `2m+1` to `2m+3`,
      which every window of four covers) are never all zero. */
  lemma MfmNoGap(c: Codec, bits: seq<bool>, m: nat)
    requires !c.IsFm() && m + 1 < |bits|
    ensures var codes := EncodeBits(c, bits).value;
            Data(codes[m]) || Clock(codes[m + 1]) || Data(codes[m + 1])
  {
    MfmNeighbours(c, bits, m + 1);
  }

  /** One round trip: starting in DATA phase, decoding the clock bit and then the data bit
      of `encode(b)` yields 0, then `2 | b`, and leaves the decoder in DATA phase again.
      The decoder's other fields are untouched. */
  lemma BitRoundTrip(enc: Codec, dec: Codec, b: bool)
    requires dec.lastType == DATA
    ensures var code := EncodeBit(enc, b).value;
            var d1 := DecodeBit(dec, Clock(code));
            var d2 := DecodeBit(d1.state, Data(code));
            d1.value == 0 && d2.value == 2 | FromBool(b) as bv8 && d2.state == dec
  {
  }

  /** Stream round trip: a decoder in DATA phase fed the physical stream of any encoded
      bit sequence, in either mode and from any history, reports exactly those bits and
      ends in DATA phase. */
  lemma {:induction false} StreamRoundTrip(enc: Codec, dec: Codec, bits: seq<bool>)
    requires dec.lastType == DATA
    ensures var out := DecodeBits(dec, Line(EncodeBits(enc, bits).value));
            Payload(out.value) == bits && out.state == dec
    decreases |bits|
  {
    if |bits| > 0 {
      var e := EncodeBit(enc, bits[0]);
      var codes := EncodeBits(enc, bits).value;
      var tail := EncodeBits(e.state, bits[1..]).value;
      assert codes == [e.value] + tail;
      var line := Line(codes);
      LineCons(codes);
      assert line[1..][1..] == line[2..];
      var d1 := DecodeBit(dec, line[0]);
      var d2 := DecodeBit(d1.state, line[1..][0]);
      StreamRoundTrip(e.state, d2.state, bits[1..]);
      var outs := DecodeBits(dec, line).value;
      var rest := DecodeBits(d2.state, Line(tail)).value;
      assert DecodeBits(d1.state, line[1..]).value == [d2.value] + rest;
      assert outs == [d1.value, d2.value] + rest;
      assert outs[1..][1..] == rest;
    }
  }

  /** After `reset`, encoding a one gives the same code whatever came before:
      `11` in FM and `01` in MFM. */
  lemma ResetThenEncodeOne(c: Codec)
    ensures EncodeBit(Reset(c), true).value == if c.IsFm() then 3 else 1
  {
  }

  /** The first `decode(bool)` after a reset treats its bit as a clock bit. */
  lemma DecodeAfterResetIsClock(c: Codec, b: bool)
    ensures DecodeBit(Reset(c), b).value == 0
    ensures DecodeBit(Reset(c), b).state.lastType == CLOCK
  {
  }

  /** Right after `setType`, FM and MFM instances encode any non-empty bit sequence
      differently: the first FM code is clocked, the first MFM code is not. */
  lemma ModesDiffer(c: Codec, m: bv8, bits: seq<bool>)
    requires m != FM
    requires |bits| > 0
    ensures EncodeBits(SetType(c, FM), bits).value != EncodeBits(SetType(c, m), bits).value
  {
    EncodeBitsAt(SetType(c, FM), bits, 0);
    EncodeBitsAt(SetType(c, m), bits, 0);
  }
}
