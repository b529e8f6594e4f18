/** The sync-mark detector `waitForSync`: a hand-written automaton over the fifteen bits of
    the mark, fed one line bit per call. */
module SyncDetector {
  import opened Bits
  import opened CodecState

  /** The mark the detector looks for, first bit first: the MFM sync word 0x4489 without its
      leading zero. */
  const SyncMark: seq<bool> := [true, false, false, false, true, false, false, true, false, false, false, true, false, false, true]

  /** The mark has its ones at positions 0, 4, 7, 11 and 14. */
  lemma MarkOnes()
    ensures |SyncMark| == 15
    ensures forall j :: 0 <= j < 15 ==> SyncMark[j] == (j == 0 || j == 4 || j == 7 || j == 11 || j == 14)
  {
  }

  /** `waitForSync`: advances on a matching bit, falls back on a mismatch, reports `true` only
      on the step that completes the mark, and stays in state 15 afterwards. */
  function WaitForSync(c: Codec, i: bool): (r: Out<bool>)
    requires c.Valid()
    ensures r.state.Valid() && r.state == c.(syncState := r.state.syncState)
    ensures r.value <==> c.syncState == 14 && i
    ensures c.syncState == 15 ==> r.state == c
    ensures r.state.syncState == 15 <==> c.syncState == 15 || (c.syncState == 14 && i)
  {
    var s := c.syncState;
    match s
    case 15 => Out(false, c)
    case 14 =>
      if SyncMark[s] == i then Out(true, c.(syncState := s + 1)) else Out(false, c.(syncState := 4))
    case 7 =>
      if SyncMark[s] == i then Out(false, c.(syncState := s + 1)) else Out(false, c.(syncState := 4))
    case 11 | 4 =>
      if SyncMark[s] == i then Out(false, c.(syncState := s + 1)) else Out(false, c.(syncState := 0))
    case 13 | 12 | 10 | 9 | 8 | 6 | 5 | 3 | 2 | 1 =>
      if SyncMark[s] == i then Out(false, c.(syncState := s + 1)) else Out(false, c.(syncState := 1))
    case _ =>
      if SyncMark[s] == i then Out(false, c.(syncState := s + 1)) else Out(false, c)
  }

  /** The transitions of `waitForSync` below state 15: a bit matching the mark advances the
      state by one; a mismatch falls back to 4 from states 7 and 14, to 0 from states 0, 4
      and 11, and to 1 from every other state. */
  lemma Transitions(c: Codec, i: bool)
    requires c.Valid() && c.syncState < 15
    ensures var s := c.syncState;
            var t := WaitForSync(c, i).state.syncState;
            && (i == SyncMark[s] ==> t == s + 1)
            && (i != SyncMark[s] ==> t == if s == 7 || s == 14 then 4
                                         else if s == 0 || s == 4 || s == 11 then 0
                                         else 1)
  {
  }

  /** The instance after `waitForSync` has been called on each bit of `t`, in order. */
  function Feed(c: Codec, t: seq<bool>): (r: Codec)
    requires c.Valid()
    ensures r.Valid() && r == c.(syncState := r.syncState)
    decreases |t|
  {
    if |t| == 0 then c else WaitForSync(Feed(c, t[..|t| - 1]), t[|t| - 1]).state
  }

  /** The last fifteen bits of `t` are the mark. */
  predicate MarkEnds(t: seq<bool>) {
    |t| >= 15 && t[|t| - 15..] == SyncMark
  }

  /** Bit 0 or 1: whether the bit fed `d` calls ago (`d = 1` being the last one) was a one;
      0 when fewer than `d` bits were fed. */
  function Fed(t: seq<bool>, d: nat): (r: bv16)
    requires d > 0
    ensures r < 2
    ensures r == 1 <==> d <= |t| && t[|t| - d]
  {
    if d <= |t| && t[|t| - d] then 1 else 0
  }

  /** The last bits fed, at most fifteen of them, the most recent in bit 0. */
  function Window(t: seq<bool>): (w: bv16)
    ensures w >> 15 == 0
  {
    Fed(t, 1) | (Fed(t, 2) << 1) | (Fed(t, 3) << 2) | (Fed(t, 4) << 3) | (Fed(t, 5) << 4)
    | (Fed(t, 6) << 5) | (Fed(t, 7) << 6) | (Fed(t, 8) << 7) | (Fed(t, 9) << 8) | (Fed(t, 10) << 9)
    | (Fed(t, 11) << 10) | (Fed(t, 12) << 11) | (Fed(t, 13) << 12) | (Fed(t, 14) << 13)
    | (Fed(t, 15) << 14)
  }

  /** The length of the longest prefix of the mark that the last `len` bits of window `w`
      end with (the mark's prefixes of length `m` being the top `m` bits of 0x4489). */
  function LongestPrefix(w: bv16, len: nat): (r: nat)
    ensures r <= 15 && r <= len
  {
    if len >= 15 && w & 0x7FFF == 0x4489 then 15
    else if len >= 14 && w & 0x3FFF == 0x2244 then 14
    else if len >= 13 && w & 0x1FFF == 0x1122 then 13
    else if len >= 12 && w & 0xFFF == 0x891 then 12
    else if len >= 11 && w & 0x7FF == 0x448 then 11
    else if len >= 10 && w & 0x3FF == 0x224 then 10
    else if len >= 9 && w & 0x1FF == 0x112 then 9
    else if len >= 8 && w & 0xFF == 0x89 then 8
    else if len >= 7 && w & 0x7F == 0x44 then 7
    else if len >= 6 && w & 0x3F == 0x22 then 6
    else if len >= 5 && w & 0x1F == 0x11 then 5
    else if len >= 4 && w & 0xF == 0x8 then 4
    else if len >= 3 && w & 0x7 == 0x4 then 3
    else if len >= 2 && w & 0x3 == 0x2 then 2
    else if len >= 1 && w & 0x1 == 0x1 then 1
    else 0
  }

  /** The window length of a stream: its length, capped at fifteen. */
  function Span(t: seq<bool>): nat {
    if |t| < 15 then |t| else 15
  }

  /** The automaton is the Knuth-Morris-Pratt matcher for the mark: from any state that is the
      longest mark prefix the window ends with, one more bit leads to the longest mark prefix
      the extended window ends with. */
  lemma KmpStep(c: Codec, w: bv16, len: nat, b: bool)
    requires c.Valid() && c.syncState == LongestPrefix(w, len) && c.syncState < 15
    ensures WaitForSync(c, b).state.syncState
            == LongestPrefix(((w << 1) | (if b then 1 else 0)) & 0x7FFF, if len < 15 then len + 1 else 15)
  {
    if c.syncState < 8 {
      KmpStepLow(c, w, len, b);
    } else {
      KmpStepHigh(c, w, len, b);
    }
  }

  lemma KmpStepLow(c: Codec, w: bv16, len: nat, b: bool)
    requires c.Valid() && c.syncState == LongestPrefix(w, len) && c.syncState < 8
    ensures WaitForSync(c, b).state.syncState
            == LongestPrefix(((w << 1) | (if b then 1 else 0)) & 0x7FFF, if len < 15 then len + 1 else 15)
  {
  }

  lemma KmpStepHigh(c: Codec, w: bv16, len: nat, b: bool)
    requires c.Valid() && c.syncState == LongestPrefix(w, len) && 8 <= c.syncState < 15
    ensures WaitForSync(c, b).state.syncState
            == LongestPrefix(((w << 1) | (if b then 1 else 0)) & 0x7FFF, if len < 15 then len + 1 else 15)
  {
  }

  /** Feeding one more bit shifts it into the window and drops the oldest bit. */
  lemma WindowPush(t: seq<bool>, b: bool)
    ensures Window(t + [b]) == ((Window(t) << 1) | (if b then 1 else 0)) & 0x7FFF
  {
    var u := t + [b];
    assert Fed(u, 1) == if b then 1 else 0;
    assert Fed(u, 2) == Fed(t, 1);
    assert Fed(u, 3) == Fed(t, 2);
    assert Fed(u, 4) == Fed(t, 3);
    assert Fed(u, 5) == Fed(t, 4);
    assert Fed(u, 6) == Fed(t, 5);
    assert Fed(u, 7) == Fed(t, 6);
    assert Fed(u, 8) == Fed(t, 7);
    assert Fed(u, 9) == Fed(t, 8);
    assert Fed(u, 10) == Fed(t, 9);
    assert Fed(u, 11) == Fed(t, 10);
    assert Fed(u, 12) == Fed(t, 11);
    assert Fed(u, 13) == Fed(t, 12);
    assert Fed(u, 14) == Fed(t, 13);
    assert Fed(u, 15) == Fed(t, 14);
  }

  /** The stream ends with the mark exactly when its window holds 0x4489. */
  lemma MarkEndsWindow(t: seq<bool>)
    ensures MarkEnds(t) <==> |t| >= 15 && Window(t) == 0x4489
  {
    MarkOnes();
    if |t| >= 15 {
      var m := t[|t| - 15..];
      if Window(t) == 0x4489 {
        assert m[0] == t[|t| - 15] && m[1] == t[|t| - 14] && m[2] == t[|t| - 13];
        assert m[3] == t[|t| - 12] && m[4] == t[|t| - 11] && m[5] == t[|t| - 10];
        assert m[6] == t[|t| - 9] && m[7] == t[|t| - 8] && m[8] == t[|t| - 7];
        assert m[9] == t[|t| - 6] && m[10] == t[|t| - 5] && m[11] == t[|t| - 4];
        assert m[12] == t[|t| - 3] && m[13] == t[|t| - 2] && m[14] == t[|t| - 1];
        assert m == SyncMark;
      }
    }
  }

  /** The longest prefix of the mark that the stream ends with, counted on its window. */
  function Progress(t: seq<bool>): (r: nat)
    ensures r <= 15
  {
    LongestPrefix(Window(t), Span(t))
  }

  /** One step of the automaton on a stream keeps it equal to `Progress`. */
  lemma ProgressStep(c: Codec, p: seq<bool>, b: bool)
    requires c.Valid() && c.syncState == Progress(p) && c.syncState < 15
    ensures WaitForSync(c, b).state.syncState == Progress(p + [b])
  {
    WindowPush(p, b);
    KmpStep(c, Window(p), Span(p), b);
  }

  /** The stream ends with the mark exactly when `Progress` reaches 15. */
  lemma MarkEndsProgress(t: seq<bool>)
    ensures MarkEnds(t) <==> Progress(t) == 15
  {
    MarkEndsWindow(t);
  }

  /** The mark has ended at some point of the stream: at its end or within a prefix. */
  predicate Seen(t: seq<bool>)
    decreases |t|
  {
    MarkEnds(t) || (|t| > 0 && Seen(t[..|t| - 1]))
  }

  /** `Seen` says that some prefix of the stream ends with the mark. */
  lemma {:induction false} SeenPrefix(t: seq<bool>)
    ensures Seen(t) <==> exists n :: 0 <= n <= |t| && MarkEnds(t[..n])
    decreases |t|
  {
    assert t[..|t|] == t;
    if |t| > 0 {
      var p := t[..|t| - 1];
      SeenPrefix(p);
      if Seen(p) {
        var n :| 0 <= n <= |p| && MarkEnds(p[..n]);
        assert t[..n] == p[..n];
      }
      if n :| 0 <= n <= |t| && MarkEnds(t[..n]) {
        if n < |t| {
          assert t[..n] == p[..n];
        }
      }
    }
  }

  /** The state the detector is in after a stream, started from state 0: 15 once the mark
      has occurred, and before that the longest prefix of the mark the stream ends with. */
  function Expected(t: seq<bool>): (r: nat)
    ensures r <= 15
    ensures r == 15 <==> Seen(t)
  {
    if Seen(t) then 15 else MarkEndsProgress(t); Progress(t)
  }

  /** Extending a stream by one bit: a mark seen before stays seen. */
  lemma SeenStep(p: seq<bool>, b: bool)
    ensures Seen(p + [b]) <==> Seen(p) || MarkEnds(p + [b])
  {
    var t := p + [b];
    assert t[..|t| - 1] == p;
  }

  /** One step of the automaton keeps it equal to `Expected`. */
  lemma ExpectedStep(c: Codec, p: seq<bool>, b: bool)
    requires c.Valid() && c.syncState == Expected(p)
    ensures WaitForSync(c, b).state.syncState == Expected(p + [b])
  {
    SeenStep(p, b);
    if !Seen(p) {
      ProgressStep(c, p, b);
      MarkEndsProgress(p + [b]);
    }
  }

  /** Started in state 0, the detector's state after any stream is `Expected`. */
  lemma {:induction false} Tracks(c: Codec, t: seq<bool>)
    requires c.Valid() && c.syncState == 0
    ensures Feed(c, t).syncState == Expected(t)
    decreases |t|
  {
    if |t| == 0 {
      assert Progress(t) == 0;
    } else {
      var p := t[..|t| - 1];
      var b := t[|t| - 1];
      assert t == p + [b];
      Tracks(c, p);
      ExpectedStep(Feed(c, p), p, b);
    }
  }

  /** Started in state 0, `waitForSync` returns true on bit `j` exactly when the fifteen bits
      ending with bit `j` are the mark and the mark has not ended at any earlier bit. */
  lemma FirstOccurrence(c: Codec, t: seq<bool>, j: nat)
    requires c.Valid() && c.syncState == 0 && j < |t|
    ensures WaitForSync(Feed(c, t[..j]), t[j]).value
            <==> MarkEnds(t[..j + 1]) && forall n :: 0 <= n <= j ==> !MarkEnds(t[..n])
  {
    var p := t[..j];
    var q := t[..j + 1];
    assert q[..|q| - 1] == p;
    Tracks(c, p);
    Tracks(c, q);
    SeenPrefix(p);
    forall n | 0 <= n <= j
      ensures p[..n] == t[..n]
    {
    }
  }

  /** After a reset, the detector has synchronised once any stream ending with the mark has
      gone by, whatever came before the mark. */
  lemma NeverMisses(c: Codec, p: seq<bool>)
    ensures Feed(Reset(c), p + SyncMark).syncState == 15
  {
    var t := p + SyncMark;
    assert t[|t| - 15..] == SyncMark;
    Tracks(Reset(c), t);
  }

  /** A stream without any one never synchronises a reset detector. */
  lemma ZerosNeverSync(c: Codec, t: seq<bool>)
    requires forall j :: 0 <= j < |t| ==> !t[j]
    ensures Feed(Reset(c), t).syncState < 15
  {
    Tracks(Reset(c), t);
    SeenPrefix(t);
  }

  /** The stream 1,1,0,0,0,1,0,0,1,0,0,0,1,0,0,1 fed to a reset detector: only the
      sixteenth bit is reported, the first one being a false start. */
  lemma SixteenBitExample(c: Codec)
    ensures var t := [true] + SyncMark;
            forall j :: 0 <= j < 16 ==> (WaitForSync(Feed(Reset(c), t[..j]), t[j]).value <==> j == 15)
  {
    var t := [true] + SyncMark;
    FalseStart(t);
    forall j | 0 <= j < 16
      ensures WaitForSync(Feed(Reset(c), t[..j]), t[j]).value <==> j == 15
    {
      FirstOccurrence(Reset(c), t, j);
    }
  }

  /** A one followed by the mark: no prefix of up to fifteen bits ends with the mark, the
      whole sixteen-bit stream does. */
  lemma FalseStart(t: seq<bool>)
    requires t == [true] + SyncMark
    ensures forall n :: 0 <= n <= 15 ==> !MarkEnds(t[..n])
    ensures MarkEnds(t[..16])
  {
    assert t[..15][1] != SyncMark[1];
    assert t[..16][1..] == SyncMark;
  }

  /** Once in state 15 the detector ignores everything it is fed. */
  lemma {:induction false} Absorbing(c: Codec, u: seq<bool>)
    requires c.Valid() && c.syncState == 15
    ensures Feed(c, u) == c
    ensures forall j :: 0 <= j < |u| ==> !WaitForSync(Feed(c, u[..j]), u[j]).value
    decreases |u|
  {
    if |u| > 0 {
      var p := u[..|u| - 1];
      Absorbing(c, p);
      forall j | 0 <= j < |u|
        ensures !WaitForSync(Feed(c, u[..j]), u[j]).value
      {
        assert u[..j] == p[..j] || j == |p|;
        if j < |p| {
          assert u[..j] == p[..j];
        } else {
          assert u[..j] == p;
        }
      }
    }
  }
}
