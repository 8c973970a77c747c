/**
 * The receive side shared by the protocol decoders: the capture buffer and the decode
 * results of IRrecv, the library constants the decoders depend on, and the matching
 * helpers whose bodies live outside the protocol files.
 */
module IRRecv {
  import opened Wrappers

  /** decode_type_t, restricted to the protocols of the modelled decoders. */
  datatype Protocol =
    | UNKNOWN
    | PANASONIC
    | KASEIKYO
    | KASEIKYO_SHARP
    | KASEIKYO_DENON
    | KASEIKYO_JVC
    | KASEIKYO_MITSUBISHI
    | LG
    | SAMSUNG
    | MAGIQUEST

  /** The IRDATA_FLAGS_* masks of the library header. */
  datatype FlagBits = FlagBits(isRepeat: bv8, parityFailed: bv8, isOldDecoder: bv8)

  /** The *_VENDOR_ID_CODE constants of the library header. */
  datatype VendorCodes = VendorCodes(panasonic: bv16, sharp: bv16, denon: bv16, jvc: bv16, mitsubishi: bv16)

  /** Header constants: MICROS_PER_TICK, MARK_EXCESS_MICROS, the flag masks and the vendor codes. */
  datatype Config = Config(microsPerTick: nat, markExcessMicros: nat, flags: FlagBits, vendors: VendorCodes)

  /** The arguments of decodePulseDistanceData, in its argument order. */
  datatype DistanceQuery = DistanceQuery(nbits: nat, startOffset: nat, bitMark: nat, oneSpace: nat, zeroSpace: nat, msbFirst: bool)

  /**
   * MATCH_MARK(measuredTicks, desiredMicros), MATCH_SPACE(measuredTicks, desiredMicros) and
   * decodePulseDistanceData over the capture buffer. Their tolerances and bit reading are not
   * part of this model, so they are left abstract: every lemma holds for all of them.
   * `pulseDistance` yields the value it leaves in results.value, or None when it fails.
   */
  datatype Matchers = Matchers(
    matchMark: (nat, nat) -> bool,
    matchSpace: (nat, nat) -> bool,
    pulseDistance: (seq<nat>, DistanceQuery) -> Option<bv32>)

  /** decodedIRData; address and command are the header's uint16_t fields. */
  datatype IRData = IRData(protocol: Protocol, address: bv16, command: bv16, numberOfBits: nat, flags: bv8)

  /** The receiver state a decoder reads and writes, as one value. */
  datatype RecvState = RecvState(
    rawbuf: seq<nat>,
    value: bv32,
    magnitude: bv16,
    decoded: IRData,
    lastDecodedAddress: bv16,
    lastDecodedCommand: bv16)

  /**
   * IRrecv's state: `rawbuf` is results.rawbuf[0 .. results.rawlen), so results.rawlen is
   * |rawbuf|; `value` and `magnitude` are results.value and results.magnitude.
   */
  class Receiver {
    var rawbuf: seq<nat>
    var value: bv32
    var magnitude: bv16
    var decoded: IRData
    var lastDecodedAddress: bv16
    var lastDecodedCommand: bv16

    ghost function State(): RecvState
      reads this
    {
      RecvState(rawbuf, value, magnitude, decoded, lastDecodedAddress, lastDecodedCommand)
    }
  }

  // LongUnion: a uint32_t seen as two 16-bit words or four bytes, least significant first.

  function LowWord(v: bv32): bv16
  {
    (v & 0xFFFF) as bv16
  }

  function HighWord(v: bv32): bv16
  {
    (v >> 16) as bv16
  }

  function LowByte(v: bv32): bv8
  {
    (v & 0xFF) as bv8
  }

  function MidLowByte(v: bv32): bv8
  {
    ((v >> 8) & 0xFF) as bv8
  }

  function MidHighByte(v: bv32): bv8
  {
    ((v >> 16) & 0xFF) as bv8
  }

  function HighByte(v: bv32): bv8
  {
    (v >> 24) as bv8
  }

  /** A LongUnion assembled from its four bytes, LowByte first. */
  function FromBytes(b0: bv8, b1: bv8, b2: bv8, b3: bv8): (v: bv32)
    ensures LowByte(v) == b0 && MidLowByte(v) == b1 && MidHighByte(v) == b2 && HighByte(v) == b3
  {
    b0 as bv32 | (b1 as bv32 << 8) | (b2 as bv32 << 16) | (b3 as bv32 << 24)
  }

  /** LowWord is MidLowByte:LowByte. */
  lemma LowWordBytes(v: bv32)
    ensures LowWord(v) == (MidLowByte(v) as bv16 << 8) | LowByte(v) as bv16
  {
  }

  /** HighWord is HighByte:MidHighByte. */
  lemma HighWordBytes(v: bv32)
    ensures HighWord(v) == (HighByte(v) as bv16 << 8) | MidHighByte(v) as bv16
  {
  }

  /** The value is HighWord:LowWord. */
  lemma WordsCompose(v: bv32)
    ensures v == (HighWord(v) as bv32 << 16) | LowWord(v) as bv32
  {
  }
}
