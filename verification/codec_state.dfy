/** The state record of one codec instance and the operations that (re)initialise it:
    the constructor, `reset` and `setType`. */
module CodecState {

  /** Values of the modulation-mode field. Only FM (0) is ever compared against; every other value means MFM. */
  const FM: bv8 := 0
  const MFM: bv8 := 1

  /** Values of the decoder phase field: DATA is true, CLOCK is false. */
  const DATA: bool := true
  const CLOCK: bool := false

  /** One codec instance.
      - `mode`: the modulation type byte (`unsigned char`), any value may be stored.
      - `last`: the last data bit encoded, the history bit of the MFM clock rule.
      - `lastType`: the phase of the previous single-bit decode call.
      - `syncState`: progress of the sync-mark detector. */
  datatype Codec = Codec(mode: bv8, last: bool, lastType: bool, syncState: nat)
  {
    /** Only mode value FM selects FM; anything else takes the MFM branch. */
    predicate IsFm() {
      mode == FM
    }

    /** The detector progress stays within the 16 states of the sync automaton. */
    predicate Valid() {
      syncState <= 15
    }
  }

  /** The result of an operation together with the instance state it leaves behind. */
  datatype Out<T> = Out(value: T, state: Codec)

  /** `reset`: restores the history fields and keeps the mode. */
  function Reset(c: Codec): (r: Codec)
    ensures r.mode == c.mode
    ensures r.last && r.lastType == DATA && r.syncState == 0
    ensures r.Valid()
  {
    c.(last := true, lastType := DATA, syncState := 0)
  }

  /** `setType`: stores the mode byte, then resets. */
  function SetType(c: Codec, t: bv8): (r: Codec)
    ensures r.mode == t
    ensures r.IsFm() <==> t == FM
    ensures r == Reset(c.(mode := t))
  {
    Reset(c.(mode := t))
  }

  /** The constructor: the in-class initialiser sets the mode to MFM, then the body resets. */
  function New(): (r: Codec)
    ensures !r.IsFm()
    ensures r.Valid()
  {
    Reset(Codec(MFM, false, CLOCK, 0))
  }

  /** Resetting twice is resetting once. */
  lemma ResetIdempotent(c: Codec)
    ensures Reset(Reset(c)) == Reset(c)
  {
  }

  /** After `setType(t)` the instance no longer depends on its history: two instances
      given the same mode are equal, and setting the same mode again changes nothing. */
  lemma SetTypeForgetsHistory(c: Codec, d: Codec, t: bv8)
    ensures SetType(c, t) == SetType(d, t)
    ensures SetType(SetType(c, t), t) == SetType(c, t)
  {
  }

  /** A fresh instance is an MFM instance that has just been reset, whatever the
      instance it is compared with held before. */
  lemma NewIsResetMfm(c: Codec)
    ensures New() == SetType(c, MFM)
    ensures New() == Codec(MFM, true, DATA, 0)
  {
  }
}
