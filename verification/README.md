# uMFMLib in Dafny

A model of uMFMLib, a small FM/MFM line-code engine for microcontrollers. One instance holds
four fields:

- the modulation type (`_type`);
- the last data bit encoded (`_last`), which is the history bit of the MFM clock rule;
- the phase of the single-bit decoder (`_lastType`);
- the progress of the sync-mark detector (`_syncState`).

The instance offers these operations:

- `reset` and `setType`;
- a single-bit encoder and decoder;
- byte and word block encoders;
- byte, word and double-word block decoders;
- `waitForSync`, an automaton that watches a bit stream for the MFM sync word 0x4489.

Every operation is a pure function over an immutable `Codec` record. The encoders, the
single-bit decoder and `waitForSync` return an `Out(value, state)` pair; `reset`, `setType`
and the constructor return the new record; the block decoders touch no state and return a
bare value. C arithmetic with a 32-bit `int` is written out on `bv8`, `bv16` and
`bv32`. Bit positions are `bv6`.

Modules:

- `Bits`: single-bit views of words (`Bit8/16/32`, the data and clock positions of a code word), and equality from bitwise agreement.
- `CodecState`: the state record, the constructor, `reset` and `setType`.
- `BitCodec`: `encode(bool)` and `decode(bool)`, and the streams obtained by calling them repeatedly.
- `Modulation`: the single-bit rule applied across a word, most significant bit first (`Modulate`). It is the reference the block encoders are measured against.
- `BlockCodec`: the block encoders and decoders exactly as written, defects included.
- `IntendedBlockCodec`: the block functions as the single-bit rule and the structure of the code evidently intend them: the MFM loops walk from the top pair down (`idx` from 14 or 30, `mask` from bit 15), and the FM word formula puts input bit `k` at data position `2k`. The library's comments give no bit order or clock rule. The module also holds the lemmas comparing them with `BlockCodec` and concrete inputs that show each difference.
- `SyncDetector`: `waitForSync`, and its correctness against an independent definition. That definition is the longest prefix of the mark that the stream ends with, computed on a window of the last fifteen bits.

## Model

| member | source | states |
|---|---|---|
| CodecState.Reset | src/uMFMLib.cpp:25-29 | `reset` sets the history bit to 1, the decoder phase to DATA and the detector to state 0, and keeps the mode |
| CodecState.SetType | src/uMFMLib.cpp:38-41 | `setType` stores the mode byte and resets; the instance is in FM exactly when the byte is 0 |
| CodecState.New | src/uMFMLib.cpp:17-19 | a fresh instance is in MFM and valid (detector state at most 15) |
| CodecState.ResetIdempotent | src/uMFMLib.cpp:25-29 | resetting twice is resetting once |
| CodecState.SetTypeForgetsHistory | src/uMFMLib.cpp:38-41 | after `setType(t)` two instances are equal whatever they held before; setting the same mode twice equals setting it once |
| CodecState.NewIsResetMfm | src/uMFMLib.h:39-43 | a fresh instance is MFM with history bit 1, DATA phase and detector state 0, the same as `setType(MFM)` on any instance |
| BitCodec.EncodeBit | src/uMFMLib.cpp:49-64 | the code is below 4 and its data bit is the input; FM always sets the clock; MFM sets it exactly when the input and the previous data bit are both 0; afterwards the history bit is the input |
| BitCodec.DecodeBit | src/uMFMLib.cpp:149-159 | every call flips the phase and changes nothing else; the clock phase yields 0 whatever the input; the data phase yields 2 + `i` |
| BitCodec.EncodeBits | src/uMFMLib.cpp:49-64 | a stream of `encode(bool)` calls gives one code per bit and leaves the last bit as history |
| BitCodec.DecodeBits | src/uMFMLib.cpp:149-159 | a stream of `decode(bool)` calls gives one result per bit and flips the phase once per bit |
| BitCodec.MfmNoDoubleOne | src/uMFMLib.cpp:54-62 | the physical MFM stream never has two adjacent ones, inside a pair or across pairs |
| BitCodec.MfmNeighbours | src/uMFMLib.cpp:54-62 | in MFM a clocked code follows a zero, and a `00` code follows a one |
| BitCodec.MfmNoFourZeros | src/uMFMLib.cpp:54-62 | the physical MFM stream never has four zeros in a row |
| BitCodec.BitRoundTrip | src/uMFMLib.cpp:149-159 | from DATA phase, decoding the clock and then the data bit of `encode(b)` yields 0, then 2 + `b`, and restores the decoder exactly |
| BitCodec.StreamRoundTrip | src/uMFMLib.cpp:149-159 | a DATA-phase decoder fed the physical stream of any encoded bit sequence reports exactly those bits, in either mode and from any history |
| BitCodec.ResetThenEncodeOne | src/uMFMLib.cpp:25-29 | after `reset`, encoding a one gives `11` in FM and `01` in MFM whatever came before |
| BitCodec.DecodeAfterResetIsClock | src/uMFMLib.cpp:151-153 | the first `decode(bool)` after `reset` treats its bit as a clock bit and yields 0 |
| BitCodec.ModesDiffer | src/uMFMLib.cpp:51-60 | right after `setType`, FM and MFM encode every non-empty bit sequence differently |
| Modulation.ModulateBits | src/uMFMLib.cpp:49-64 | applying the single-bit rule across `n` bits of a word puts input bit `k` at data position `2k`, follows the clock rule at position `2k+1`, and sets nothing above bit `2n` |
| Modulation.ModulateFits | src/uMFMLib.cpp:62 | after modulating a word, the history bit is the word's bit 0 |
| BlockCodec.EncodeByte | src/uMFMLib.cpp:74-99 | FM sets every clock, carries only input bits 0, 2 and 4, at data positions 0, 3 and 6, and keeps bit 0 as history; MFM returns 0xAAAA after a zero history bit and 0x2AAA after a one, whatever the input, and leaves history 0 |
| BlockCodec.MfmByteLoop | src/uMFMLib.cpp:82-96 | the byte loop produces the modulation of eight zero bits, the bit it checks being always false |
| BlockCodec.ScanZeroByte | src/uMFMLib.cpp:80-96 | eight zero bits modulate to 0xAAAA or 0x2AAA depending on the history bit |
| BlockCodec.EncodeWord | src/uMFMLib.cpp:109-135 | FM sets every clock and puts input bit `k` at data position `2k`; MFM returns 0x2AAAAAA8, plus 0x80000000 if the history bit was 0, plus 1 if the input is non-zero and 2 otherwise, and leaves `input != 0` as history |
| BlockCodec.FmWord | src/uMFMLib.cpp:112 | the FM word formula sets every odd bit and copies input bit `k` to bit `2k` |
| BlockCodec.Scanned | src/uMFMLib.cpp:119 | the word loop effectively scans a word whose only possible one is bit 0, set exactly when the input is non-zero |
| BlockCodec.MaskTest | src/uMFMLib.cpp:119 | the loop test is true exactly when the input is non-zero and the mask is 1 |
| BlockCodec.MfmWordLoop | src/uMFMLib.cpp:115-132 | the word loop produces the modulation of the scanned word |
| BlockCodec.ScanWord | src/uMFMLib.cpp:115-132 | the scanned word modulates to the closed form stated for `EncodeWord` |
| BlockCodec.Decode8 | src/uMFMLib.cpp:170-172 | the result is below 16 and bit `k` is input bit `2k` |
| BlockCodec.Decode16 | src/uMFMLib.cpp:183-185 | bit `k` is data position `k` except that bit 2 is data position 2 or 3 and bit 6 is always 0 |
| BlockCodec.Decode32 | src/uMFMLib.cpp:196-198 | bit `k` is data position `k` except that bit 2 is data position 2 or 3 and bit 6 is always 0 |
| IntendedBlockCodec.EncodeWord | src/uMFMLib.cpp:101-108 | the intended word encoder: data position `k` holds input bit `k`, clocks follow the rule, history becomes bit 0 |
| IntendedBlockCodec.EncodeByte | src/uMFMLib.cpp:66-73 | the intended byte encoder: data position `k` holds input bit `k`, clocks follow the rule, history becomes bit 0 |
| IntendedBlockCodec.Decode16 | src/uMFMLib.cpp:174-182 | the intended word decoder: bit `k` of the result is data position `k` |
| IntendedBlockCodec.Decode32 | src/uMFMLib.cpp:187-195 | the intended double-word decoder: bit `k` of the result is data position `k` |
| IntendedBlockCodec.WordRoundTrip | src/uMFMLib.cpp:101-108 | the intended word decoder undoes the intended word encoder, in either mode and from any history |
| IntendedBlockCodec.ByteRoundTrip | src/uMFMLib.cpp:66-73 | the intended word decoder undoes the intended byte encoder, in either mode and from any history |
| IntendedBlockCodec.NibbleRoundTrip | src/uMFMLib.cpp:170-172 | `decode(uint8_t)` undoes four `encode(bool)` calls: the code of any nibble decodes to that nibble |
| IntendedBlockCodec.Misread8 | src/uMFMLib.cpp:184 | the misreading keeps every bit but 2 and 6, clears bit 6, and sets bit 2 when bit 2 or bit 3 was set |
| IntendedBlockCodec.Misread16 | src/uMFMLib.cpp:197 | the same misreading on 16 bits |
| IntendedBlockCodec.Decode16AsWritten | src/uMFMLib.cpp:184 | the as-written word decoder is the intended one followed by the misreading |
| IntendedBlockCodec.Decode32AsWritten | src/uMFMLib.cpp:197 | the as-written double-word decoder is the intended one followed by the misreading |
| IntendedBlockCodec.DecodersAgreeElsewhere | src/uMFMLib.cpp:196-198 | outside bits 2 and 6 the as-written decoders are right, and the high byte of `decode(uint32_t)` is wholly right |
| IntendedBlockCodec.MisreadFixed | src/uMFMLib.cpp:197 | the misreading leaves a value unchanged exactly when bit 6 is clear and bit 3 is clear or comes with bit 2 |
| IntendedBlockCodec.Decode16AgreesIff | src/uMFMLib.cpp:184 | the as-written and intended word decoders agree exactly when data position 6 is clear and data position 3 is clear or comes with data position 2 |
| IntendedBlockCodec.FmWordAgrees | src/uMFMLib.cpp:112-113 | in FM the as-written word encoder equals the intended one on every input |
| IntendedBlockCodec.MfmWordScans | src/uMFMLib.cpp:119 | in MFM the as-written word encoder encodes the scanned word instead of the input |
| IntendedBlockCodec.MfmWordAgreesIff | src/uMFMLib.cpp:115-132 | in MFM the as-written and intended word encoders agree exactly on inputs 0 and 1 |
| IntendedBlockCodec.MfmByteScans | src/uMFMLib.cpp:83 | in MFM the as-written byte encoder encodes 0 whatever the input |
| IntendedBlockCodec.MfmByteAgreesIff | src/uMFMLib.cpp:80-96 | in MFM the as-written and intended byte encoders agree exactly on input 0 |
| IntendedBlockCodec.FmByteAgreesIff | src/uMFMLib.cpp:77 | in FM the as-written and intended byte encoders agree exactly on inputs 0 and 1 |
| IntendedBlockCodec.FmWordTrip | src/uMFMLib.cpp:112 | in FM the library's own word round trip returns the misread input, which is the input exactly when bit 6 is clear and bit 3 is clear or comes with bit 2 |
| IntendedBlockCodec.MfmWordTrip | src/uMFMLib.cpp:119 | in MFM the library's own word round trip returns only whether the input was non-zero |
| IntendedBlockCodec.FmByteTrip | src/uMFMLib.cpp:77 | in FM the library's own byte round trip returns `(b & 5) + ((b & 4) << 1)`, which is `b` only for 0, 1, 12 and 13 |
| IntendedBlockCodec.MfmByteTrip | src/uMFMLib.cpp:83 | in MFM the library's own byte round trip returns 0 for every byte |
| IntendedBlockCodec.FmByteExample | src/uMFMLib.cpp:77 | FM byte 0x02 gives 0xAAAA as written and 0xAAAE as intended |
| IntendedBlockCodec.MfmByteExample | src/uMFMLib.cpp:83 | MFM byte 0xFF on a fresh instance gives 0x2AAA as written and 0x5555 as intended |
| IntendedBlockCodec.MfmWordExample | src/uMFMLib.cpp:119 | MFM word 0xFFFF on a fresh instance gives 0x2AAAAAA9 as written and 0x55555555 as intended |
| IntendedBlockCodec.DecodeExample | src/uMFMLib.cpp:184 | data position 6 alone decodes to 0 instead of 0x40, data position 3 alone to 0x0C instead of 0x08 |
| SyncDetector.MarkOnes | src/uMFMLib.h:33 | the mark has fifteen entries, with ones exactly at 0, 4, 7, 11 and 14 |
| SyncDetector.WaitForSync | src/uMFMLib.cpp:210-270 | the state stays within 0..15 and no other field changes; the result is true exactly on a one in state 14; state 15 absorbs; state 15 is reached only from 14 on a one |
| SyncDetector.Transitions | src/uMFMLib.cpp:214-267 | a matching bit advances by one; a mismatch falls back to 4 from 7 and 14, to 0 from 0, 4 and 11, and to 1 elsewhere |
| SyncDetector.Feed | src/uMFMLib.cpp:210-270 | feeding a stream keeps the instance valid and changes only the detector state |
| SyncDetector.MarkEndsWindow | src/uMFMLib.h:33 | a stream ends with the mark exactly when its last fifteen bits read 0x4489 |
| SyncDetector.KmpStep | src/uMFMLib.cpp:214-266 | from the state that counts the longest prefix of the mark ending the window, one step reaches the longest prefix ending the shifted window: the fallbacks are those of the KMP automaton |
| SyncDetector.ProgressStep | src/uMFMLib.cpp:214-266 | below state 15, one step keeps the state equal to the longest prefix of the mark that the stream ends with |
| SyncDetector.SeenPrefix | src/uMFMLib.cpp:205 | the mark has been seen exactly when some prefix of the stream ends with it |
| SyncDetector.Tracks | src/uMFMLib.cpp:210-270 | from state 0, the state after any stream is 15 once the mark has occurred, and before that the longest prefix of the mark the stream ends with |
| SyncDetector.FirstOccurrence | src/uMFMLib.cpp:205 | from state 0, bit `j` is reported exactly when the bits up to `j` end with the mark and no shorter prefix does |
| SyncDetector.NeverMisses | src/uMFMLib.cpp:210-270 | after `reset`, any stream followed by the mark leaves the detector in state 15 |
| SyncDetector.ZerosNeverSync | src/uMFMLib.cpp:210-270 | an all-zero stream never synchronises a reset detector |
| SyncDetector.SixteenBitExample | src/uMFMLib.cpp:205 | on 1,1,0,0,0,1,0,0,1,0,0,0,1,0,0,1 from a reset, only the sixteenth bit is reported |
| SyncDetector.Absorbing | src/uMFMLib.cpp:215-216 | in state 15 any stream leaves the instance unchanged and is never reported |

## Left out

- The `B…` binary macros of the Arduino core are written as plain integer constants; nothing else from the Arduino core is used.
- Targets with a 16-bit `int` are not modelled; the model assumes a 32-bit `int`. On such a target:
  - only the word loop (`B00000001 << idx` and `B00000010 << idx` with `idx` up to 30, src/uMFMLib.cpp:121-123) and `decode(uint32_t)` (`B00000001 << 16` up to `<< 30`, src/uMFMLib.cpp:197) shift by 16 or more, which is undefined;
  - the FM formulas shift by at most 14 (src/uMFMLib.cpp:77) and 15 (src/uMFMLib.cpp:112); the fault there is where the bits land, up to bit 21 and bit 30;
  - in the byte formula the byte promotes to a signed `int`, so this is signed overflow;
  - in the word formula `uint16_t` promotes to `unsigned int`, so the high bits are silently truncated.
- `B00000010 << 30` in the word loop overflows a signed 32-bit `int`; the model takes the two's-complement result, bit 31.
- The FM word constant 2863311530 does not fit an `int`, so C gives it a wider type; the result is truncated to 32 bits anyway, so the model uses 0xAAAAAAAA.
- I/O, the host loop that feeds bits, timing and concurrency do not appear in the library and are not modelled.
- The header declares only the `bool` overloads of `encode` and `decode`. The byte and word overloads are modelled anyway, as functions over the same state.
- The block decoders touch no state, so they take none.
- The doc comment of `decode(bool)` describes the result in bits 6 and 7; the code uses bits 1 and 0, and the model follows the code.
- The return comments of `decode(uint16_t)` and `decode(uint32_t)` (src/uMFMLib.cpp:181 and 194) speak of "the four ending bits"; the code returns 8 and 16 decoded bits, and the model follows the code.
- The doc comments of `encode(uint8_t)` and `encode(uint16_t)` (src/uMFMLib.cpp:69 and 104) call 43690 and 2863311530 the initial value for MFM; the code uses these constants only in the FM branch and starts MFM from 0, and the model follows the code.
- SyncDetector.WaitForSync: requires the detector state to be at most 15. The library only ever stores 0..15 there, because every instance starts from `reset` and each step stays in range; a larger value would read past the end of the mark table.
- SyncDetector.WaitForSync: its contract states only the result, the absorbing state and the range. The per-state transitions are stated by `Transitions`, and their meaning by `KmpStep` and `Tracks`.

## Findings

| source | as written | input that shows it | evidently intended | confidence | as-written member | corrected member |
|---|---|---|---|---|---|---|
| src/uMFMLib.cpp:77 | FM `encode(uint8_t)` shifts input bit `k` left by `2k`, so it lands at position `3k`: bits 1, 3 and 5 hit clock positions and bits 6 and 7 fall off | byte 0x02 in FM gives 0xAAAA; 0xAAAE expected | shift bit `k` left by `k`, onto data position `2k`, as the word encoder does | high; not executed | IntendedBlockCodec.FmByteExample | IntendedBlockCodec.ByteRoundTrip |
| src/uMFMLib.cpp:83 | `(bool) i & B1000000` casts before masking, so the bit checked is always false and every MFM byte encodes as zero. The mask has seven digits as well: it is 64 (bit 6), not 128, so fixing the parentheses alone would read bits 6..0 and then a shifted-in zero (0xFF would give 0x5554) | byte 0xFF on a fresh instance gives 0x2AAA; 0x5555 expected | test the top bit of the shifting byte: `(i & B10000000) != 0`, both the parentheses and the mask changed | high; not executed | IntendedBlockCodec.MfmByteExample | IntendedBlockCodec.EncodeByte |
| src/uMFMLib.cpp:119 | `(bool) i & mask` casts before masking, so only the last iteration can see a one, and only whether the input is non-zero | word 0xFFFF on a fresh instance gives 0x2AAAAAA9; 0x55555555 expected | test `i & mask` | high; not executed | IntendedBlockCodec.MfmWordExample | IntendedBlockCodec.WordRoundTrip |
| src/uMFMLib.cpp:184 | the seventh term of `decode(uint16_t)` reads input bit 6 into output bit 2 where input bit 12 into output bit 6 belongs | 0x1000 decodes to 0; 0x40 expected | `((1 << 12) & i) >> 6` | high; not executed | IntendedBlockCodec.DecodeExample | IntendedBlockCodec.Decode16 |
| src/uMFMLib.cpp:197 | the same term in `decode(uint32_t)` | 0x1000 decodes to 0; 0x40 expected | `((1 << 12) & i) >> 6` | high; not executed | IntendedBlockCodec.Decode32AsWritten | IntendedBlockCodec.Decode32 |
