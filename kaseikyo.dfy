/**
 * The Kaseikyo (Panasonic and related vendors) protocol: a 16-bit vendor id, then one
 * 32-bit word holding a 4-bit vendor parity, a 12-bit address, an 8-bit command and an
 * 8-bit parity byte, all sent least significant bit first after a 3456/1728 us header.
 */
module Kaseikyo {
  import opened CTypes
  import opened Wrappers
  import opened IRSend
  import opened IRRecv

  const VendorIdBits: nat := 16
  const VendorParityBits: nat := 4
  const AddressBits: nat := 12
  const CommandBits: nat := 8
  const ParityBits: nat := 8

  /** KASEIKYO_BITS. */
  const Bits: nat := 48
  /** The data word after the vendor id: vendor parity, address, command and parity. */
  const WordBits: nat := 32

  const Unit: nat := 432
  const HeaderMark: nat := 3456
  const HeaderSpace: nat := 1728
  const BitMark: nat := 432
  const OneSpace: nat := 1296
  const ZeroSpace: nat := 432
  const AverageDuration: nat := 56000
  const RepeatPeriod: nat := 130000
  const RepeatSpace: nat := 74000
  /** delay(KASEIKYO_REPEAT_SPACE / 1000), in milliseconds. */
  const RepeatDelay: nat := 74
  const CarrierKHz: nat := 37

  /** results.rawlen of a frame: the gap, the header mark and space, 48 bit cells and the stop mark. */
  const RawLength: nat := 100
  /** Where the data word starts in rawbuf: after the gap, the header and the 16 vendor cells. */
  const DataOffset: nat := 35

  /** The literals above are the source's expressions evaluated. */
  lemma FrameShape()
    ensures Bits == VendorIdBits + VendorParityBits + AddressBits + CommandBits + ParityBits
    ensures WordBits == VendorParityBits + AddressBits + CommandBits + ParityBits
    ensures HeaderMark == 8 * Unit && HeaderSpace == 4 * Unit
    ensures BitMark == Unit && OneSpace == 3 * Unit && ZeroSpace == Unit
    ensures RepeatSpace == RepeatPeriod - AverageDuration && RepeatDelay == RepeatSpace / 1000
    ensures RawLength == 2 * Bits + 4 && DataOffset == 3 + 2 * VendorIdBits
  {
  }

  /** The sender's bit timing, in sendPulseDistanceWidthData's argument order. */
  const Timing: PulseDistanceWidth := PulseDistanceWidth(BitMark, OneSpace, BitMark, ZeroSpace)

  /** The two decodePulseDistanceData calls of the decoder. */
  const VendorQuery: DistanceQuery := DistanceQuery(VendorIdBits, 3, BitMark, OneSpace, ZeroSpace, false)
  const WordQuery: DistanceQuery := DistanceQuery(WordBits, DataOffset, BitMark, OneSpace, ZeroSpace, false)

  // ---------------------------------------------------------------------------
  // Parity and the LongUnion word
  // ---------------------------------------------------------------------------

  /**
   * The vendor parity, one expression on both sides: the vendor id folded into a uint8_t,
   * then its two nibbles XORed and masked to 4 bits.
   */
  function VendorParity(vendor: bv16): (p: bv8)
    ensures p <= 0xF
  {
    var folded := ((vendor ^ (vendor >> 8)) & 0xFF) as bv8;
    (folded ^ (folded >> 4)) & 0xF
  }

  /** The vendor parity is the XOR of the four nibbles of the vendor id. */
  lemma VendorParityNibbles(vendor: bv16)
    ensures VendorParity(vendor) as bv16 == (vendor ^ (vendor >> 4) ^ (vendor >> 8) ^ (vendor >> 12)) & 0xF
  {
  }

  /**
   * The LongUnion sendKaseikyoStandard builds around a 4-bit parity: LowWord is
   * aAddress << 4 in 16 bits, the parity goes into the low nibble of LowByte, the command
   * into MidHighByte, and HighByte is the command XORed with the two low bytes.
   */
  function PackWord(address: bv16, command: bv8, parity: bv8): (w: bv32)
  {
    var lowWord: bv16 := address << 4;
    var lowByte := (lowWord & 0xFF) as bv8 | parity;
    var midLowByte := (lowWord >> 8) as bv8;
    FromBytes(lowByte, midLowByte, command, command ^ lowByte ^ midLowByte)
  }

  /** The word sent after the vendor id, its low nibble the vendor parity. */
  function SendWord(address: bv16, command: bv8, vendor: bv16): (w: bv32)
  {
    PackWord(address, command, VendorParity(vendor))
  }

  // One bit-vector fact per lemma: the solver handles each alone quickly, not all at once.

  lemma PackParity(address: bv16, command: bv8, parity: bv8)
    requires parity <= 0xF
    ensures LowByte(PackWord(address, command, parity)) & 0xF == parity
  {
  }

  lemma PackShifted(address: bv16, command: bv8, parity: bv8)
    requires parity <= 0xF
    ensures LowWord(PackWord(address, command, parity)) & 0xFFF0 == address << 4
  {
  }

  lemma PackAddress(address: bv16, command: bv8, parity: bv8)
    requires parity <= 0xF
    ensures LowWord(PackWord(address, command, parity)) >> 4 == address & 0xFFF
  {
  }

  lemma PackCommand(address: bv16, command: bv8, parity: bv8)
    ensures MidHighByte(PackWord(address, command, parity)) == command
  {
  }

  lemma PackCheck(address: bv16, command: bv8, parity: bv8)
    ensures HighByte(PackWord(address, command, parity)) ==
      LowByte(PackWord(address, command, parity)) ^ MidLowByte(PackWord(address, command, parity)) ^
      MidHighByte(PackWord(address, command, parity))
  {
  }

  /**
   * The layout of a packed word: the parity in bits 0-3, (address << 4) mod 2^16 in
   * bits 4-15, the command in bits 16-23 and the XOR of the three lower bytes in bits 24-31.
   */
  lemma PackLayout(address: bv16, command: bv8, parity: bv8)
    requires parity <= 0xF
    ensures LowByte(PackWord(address, command, parity)) & 0xF == parity
    ensures LowWord(PackWord(address, command, parity)) & 0xFFF0 == address << 4
    ensures LowWord(PackWord(address, command, parity)) >> 4 == address & 0xFFF
    ensures MidHighByte(PackWord(address, command, parity)) == command
    ensures HighByte(PackWord(address, command, parity)) ==
      LowByte(PackWord(address, command, parity)) ^ MidLowByte(PackWord(address, command, parity)) ^
      MidHighByte(PackWord(address, command, parity))
  {
    PackParity(address, command, parity);
    PackShifted(address, command, parity);
    PackAddress(address, command, parity);
    PackCommand(address, command, parity);
    PackCheck(address, command, parity);
  }

  // ---------------------------------------------------------------------------
  // The sender
  // ---------------------------------------------------------------------------

  /** One frame, sent with interrupts masked: header, vendor id, then the word and the stop bit. */
  function Frame(address: bv16, command: bv8, vendor: bv16): (frame: seq<Act>)
    ensures |frame| == 6
  {
    [NoInterrupts,
     Mark(HeaderMark),
     Space(HeaderSpace),
     PulseDistanceData(Timing, vendor as nat, VendorIdBits, false, false),
     PulseDistanceData(Timing, SendWord(address, command, vendor) as nat, WordBits, false, true),
     Interrupts]
  }

  /** tNumberOfCommands: aNumberOfRepeats + 1 stored in a uint8_t. */
  function FrameCount(repeats: nat): (n: nat)
    ensures n < U8
  {
    (repeats + 1) % U8
  }

  /** The trace of sendKaseikyoStandard: the carrier, then the frames with a delay between each two. */
  function KaseikyoTrace(address: bv16, command: bv8, vendor: bv16, repeats: nat): seq<Act>
    requires repeats < U8
  {
    [EnableIROut(CarrierKHz)] + Separated(Frame(address, command, vendor), Delay(RepeatDelay), FrameCount(repeats))
  }

  /** sendKaseikyoStandard(): the uint8_t countdown loop, with a delay after every frame but the last. */
  method SendKaseikyoStandard(address: bv16, command: bv8, vendor: bv16, repeats: nat) returns (trace: seq<Act>)
    requires repeats < U8
    ensures trace == KaseikyoTrace(address, command, vendor, repeats)
  {
    trace := [EnableIROut(CarrierKHz)];
    ghost var pre := trace;
    var count: nat := (repeats + 1) % U8;
    ghost var n := count;
    assert n == FrameCount(repeats);
    ghost var frame := Frame(address, command, vendor);
    while count > 0
      invariant count <= n
      invariant count > 0 ==> trace == pre + Rounds(frame, Delay(RepeatDelay), n - count)
      invariant count == 0 ==> trace == pre + Separated(frame, Delay(RepeatDelay), n)
    {
      ghost var k := n - count;
      ghost var before := trace;
      var word := SendWord(address, command, vendor);
      trace := trace + [NoInterrupts, Mark(HeaderMark), Space(HeaderSpace),
        PulseDistanceData(Timing, vendor as nat, VendorIdBits, false, false),
        PulseDistanceData(Timing, word as nat, WordBits, false, true), Interrupts];
      assert trace == before + frame;
      count := count - 1;
      if count > 0 {
        assert Rounds(frame, Delay(RepeatDelay), k + 1) == Rounds(frame, Delay(RepeatDelay), k) + frame + [Delay(RepeatDelay)];
        trace := trace + [Delay(RepeatDelay)];
      }
    }
  }

  /** sendPanasonicStandard(): the Kaseikyo frames with the Panasonic vendor code. */
  method SendPanasonicStandard(address: bv16, command: bv8, repeats: nat, codes: VendorCodes) returns (trace: seq<Act>)
    requires repeats < U8
    ensures trace == KaseikyoTrace(address, command, codes.panasonic, repeats)
  {
    trace := SendKaseikyoStandard(address, command, codes.panasonic, repeats);
  }

  /** aNumberOfRepeats + 1 frames, counted in 8 bits: 255 repeats send none. */
  lemma FrameCountWraps(repeats: nat)
    requires repeats < U8
    ensures FrameCount(repeats) == if repeats == U8 - 1 then 0 else repeats + 1
  {
  }

  /** Without frames only the carrier is set up. */
  lemma SendNothing(address: bv16, command: bv8, vendor: bv16)
    ensures KaseikyoTrace(address, command, vendor, U8 - 1) == [EnableIROut(CarrierKHz)]
  {
    assert FrameCount(U8 - 1) == 0;
  }

  /** The schedule's shape: the carrier first, and the trace ends with a frame, not a delay. */
  lemma SendSchedule(address: bv16, command: bv8, vendor: bv16, repeats: nat)
    requires repeats < U8 && FrameCount(repeats) >= 1
    ensures KaseikyoTrace(address, command, vendor, repeats)[0] == EnableIROut(CarrierKHz)
    ensures EndsWith(KaseikyoTrace(address, command, vendor, repeats), Frame(address, command, vendor))
  {
    SeparatedAfterEnds([EnableIROut(CarrierKHz)], Frame(address, command, vendor), Delay(RepeatDelay), FrameCount(repeats));
  }

  /** A frame holds one header mark and no delay. */
  lemma FrameEvents(address: bv16, command: bv8, vendor: bv16)
    ensures Delay(RepeatDelay) !in Frame(address, command, vendor)
    ensures multiset(Frame(address, command, vendor))[Mark(HeaderMark)] == 1
  {
    var frame := Frame(address, command, vendor);
    assert frame == [NoInterrupts, Mark(HeaderMark)] + frame[2..];
  }

  /** The schedule's counts: FrameCount(repeats) frame headers and a 74 ms delay between each two frames. */
  lemma SendCounts(address: bv16, command: bv8, vendor: bv16, repeats: nat)
    requires repeats < U8 && FrameCount(repeats) >= 1
    ensures multiset(KaseikyoTrace(address, command, vendor, repeats))[Delay(RepeatDelay)] == FrameCount(repeats) - 1
    ensures multiset(KaseikyoTrace(address, command, vendor, repeats))[Mark(HeaderMark)] == FrameCount(repeats)
  {
    var frame := Frame(address, command, vendor);
    var pre := [EnableIROut(CarrierKHz)];
    FrameEvents(address, command, vendor);
    SeparatedAfterCount(pre, frame, Delay(RepeatDelay), FrameCount(repeats), Delay(RepeatDelay));
    SeparatedAfterCount(pre, frame, Delay(RepeatDelay), FrameCount(repeats), Mark(HeaderMark));
  }

  /** The sender masks interrupts only around each frame and leaves them enabled. */
  lemma SendBalanced(address: bv16, command: bv8, vendor: bv16, repeats: nat)
    requires repeats < U8
    ensures Balanced(KaseikyoTrace(address, command, vendor, repeats))
  {
    var frame := Frame(address, command, vendor);
    assert frame == [NoInterrupts] + frame[1..5] + [Interrupts];
    MaskedRegionBalanced(frame[1..5]);
    SeparatedBalanced(frame, Delay(RepeatDelay), FrameCount(repeats));
    SingleBalanced(EnableIROut(CarrierKHz));
    BalancedAppend([EnableIROut(CarrierKHz)], Separated(frame, Delay(RepeatDelay), FrameCount(repeats)));
  }

  // ---------------------------------------------------------------------------
  // The decoder
  // ---------------------------------------------------------------------------

  /**
   * results.value == code for a uint16_t vendor code, which the comparison promotes to 32 bits:
   * the high word of the value is clear and its low word is the code.
   */
  predicate IsCode(value: bv32, code: bv16)
  {
    HighWord(value) == 0 && LowWord(value) == code
  }

  /** IsCode is the promoted comparison. */
  lemma IsCodePromoted(value: bv32, code: bv16)
    ensures IsCode(value, code) ==> value == code as bv32
    ensures value == code as bv32 ==> IsCode(value, code)
  {
  }

  /** The protocol a vendor id selects; the full 32-bit results.value is compared with each code. */
  function VendorProtocol(value: bv32, codes: VendorCodes): Protocol
  {
    if IsCode(value, codes.panasonic) then PANASONIC
    else if IsCode(value, codes.sharp) then KASEIKYO_SHARP
    else if IsCode(value, codes.denon) then KASEIKYO_DENON
    else if IsCode(value, codes.jvc) then KASEIKYO_JVC
    else if IsCode(value, codes.mitsubishi) then KASEIKYO_MITSUBISHI
    else KASEIKYO
  }

  /** The vendor parity nibble sent in the low nibble of the word matches the vendor id. */
  predicate VendorParityOk(vendor: bv16, value: bv32)
  {
    VendorParity(vendor) == LowByte(value) & 0xF
  }

  /** The top byte of the word is the XOR of the three bytes below it. */
  predicate ParityOk(value: bv32)
  {
    HighByte(value) == LowByte(value) ^ MidLowByte(value) ^ MidHighByte(value)
  }

  /**
   * The address from the low 16 bits of the word: its bits 4-15, with the vendor id shifted in
   * above bit 11 when `withVendor`.
   */
  function FrameAddress(lowWord: bv16, vendor: bv16, withVendor: bool): bv16
  {
    if withVendor then (lowWord >> 4) | (vendor << 12) else lowWord >> 4
  }

  /**
   * The flags after a frame: a failed check assigns PARITY_FAILED, discarding what was
   * held before; a repeat gap ORs IS_REPEAT in.
   */
  function FrameFlags(held: bv8, vendorOk: bool, parityOk: bool, repeat: bool, bits: FlagBits): bv8
  {
    var afterVendor := if !vendorOk then bits.parityFailed else held;
    var afterParity := if !parityOk then bits.parityFailed else afterVendor;
    if repeat then afterParity | bits.isRepeat else afterParity
  }

  /**
   * decodedIRData after both reads succeeded: `protocol` and `vendor` come from the vendor
   * read, `value` is the word read, `repeat` says whether the gap rawbuf[0] was short.
   */
  function DecodedFrame(d: IRData, protocol: Protocol, vendor: bv16, value: bv32, repeat: bool, bits: FlagBits): (d': IRData)
    ensures d'.numberOfBits == Bits && d'.command == MidHighByte(value) as bv16 && d'.protocol == protocol
  {
    d.(address := FrameAddress(LowWord(value), vendor, protocol == KASEIKYO),
       command := MidHighByte(value) as bv16,
       flags := FrameFlags(d.flags, VendorParityOk(vendor, value), ParityOk(value), repeat, bits),
       protocol := protocol,
       numberOfBits := Bits)
  }

  /** The repeat test on the gap before the frame: shorter than 130000 us, counted in ticks. */
  predicate RepeatGap(gap: nat, c: Config)
    requires c.microsPerTick > 0
  {
    gap < RepeatPeriod / c.microsPerTick
  }

  /**
   * decodeKaseikyo(): the verdict and the new receiver state. Each gate that fails returns
   * false at once; results.value keeps what the last successful read left in it.
   */
  function DecodeKaseikyoSpec(st: RecvState, m: Matchers, c: Config): (r: (bool, RecvState))
    requires c.microsPerTick > 0
    ensures r.1.rawbuf == st.rawbuf && r.1.lastDecodedAddress == st.lastDecodedAddress
    ensures r.1.lastDecodedCommand == st.lastDecodedCommand && r.1.magnitude == st.magnitude
  {
    var raw := st.rawbuf;
    if |raw| != RawLength then (false, st)
    else if !m.matchMark(raw[1], HeaderMark) then (false, st)
    else if !m.matchMark(raw[2], HeaderSpace) then (false, st)
    else match m.pulseDistance(raw, VendorQuery)
      case None => (false, st)
      case Some(vendorValue) =>
        match m.pulseDistance(raw, WordQuery)
          case None => (false, st.(value := vendorValue))
          case Some(value) =>
            (true, st.(value := value,
                       decoded := DecodedFrame(st.decoded, VendorProtocol(vendorValue, c.vendors), LowWord(vendorValue),
                                               value, RepeatGap(raw[0], c), c.flags)))
  }

  /** The two writes of decodedIRData.address: bits 4-15 of the word, then the vendor id ORed in above them. */
  method ComposeAddress(lowWord: bv16, vendor: bv16, withVendor: bool) returns (address: bv16)
    ensures address == FrameAddress(lowWord, vendor, withVendor)
  {
    address := lowWord >> 4;
    if withVendor {
      address := address | (vendor << 12);
    }
  }

  /** The writes of decodedIRData.flags: the two parity checks, then the repeat test. */
  method CheckFrame(held: bv8, vendor: bv16, value: bv32, repeat: bool, bits: FlagBits) returns (flags: bv8)
    ensures flags == FrameFlags(held, VendorParityOk(vendor, value), ParityOk(value), repeat, bits)
  {
    flags := held;
    if !VendorParityOk(vendor, value) {
      flags := bits.parityFailed;
    }
    if !ParityOk(value) {
      flags := bits.parityFailed;
    }
    if repeat {
      flags := flags | bits.isRepeat;
    }
  }

  /** The writes of decodedIRData once both reads have succeeded, in the order the source makes them. */
  method FillDecoded(d: IRData, vendor: bv16, protocol: Protocol, value: bv32, repeat: bool, bits: FlagBits)
    returns (d': IRData)
    ensures d' == DecodedFrame(d, protocol, vendor, value, repeat, bits)
  {
    var address := ComposeAddress(LowWord(value), vendor, protocol == KASEIKYO);
    var flags := CheckFrame(d.flags, vendor, value, repeat, bits);
    d' := d.(address := address, command := MidHighByte(value) as bv16, flags := flags,
             protocol := protocol, numberOfBits := Bits);
  }

  /** decodeKaseikyo(): the header gates, the two reads, then the fields of decodedIRData. */
  method DecodeKaseikyo(r: Receiver, m: Matchers, c: Config) returns (ok: bool)
    requires c.microsPerTick > 0
    modifies r
    ensures (ok, r.State()) == DecodeKaseikyoSpec(old(r.State()), m, c)
  {
    if |r.rawbuf| != RawLength {
      return false;
    }
    if !m.matchMark(r.rawbuf[1], HeaderMark) {
      return false;
    }
    if !m.matchMark(r.rawbuf[2], HeaderSpace) {
      return false;
    }
    var vendorRead := m.pulseDistance(r.rawbuf, VendorQuery);
    if vendorRead.None? {
      return false;
    }
    r.value := vendorRead.value;
    var vendor := LowWord(r.value);
    var protocol := VendorProtocol(r.value, c.vendors);

    var wordRead := m.pulseDistance(r.rawbuf, WordQuery);
    if wordRead.None? {
      return false;
    }
    r.value := wordRead.value;
    var value := r.value;
    r.decoded := FillDecoded(r.decoded, vendor, protocol, value, RepeatGap(r.rawbuf[0], c), c.flags);
    return true;
  }

  // ---------------------------------------------------------------------------
  // Properties of the decoder
  // ---------------------------------------------------------------------------

  /**
   * The decoder accepts exactly a 100-entry capture whose header matches and whose two
   * reads succeed; when it refuses, decodedIRData is untouched.
   */
  lemma DecodeAccepts(st: RecvState, m: Matchers, c: Config)
    requires c.microsPerTick > 0
    ensures var r := DecodeKaseikyoSpec(st, m, c);
      (r.0 <==>
        |st.rawbuf| == RawLength && m.matchMark(st.rawbuf[1], HeaderMark) && m.matchMark(st.rawbuf[2], HeaderSpace) &&
        m.pulseDistance(st.rawbuf, VendorQuery).Some? && m.pulseDistance(st.rawbuf, WordQuery).Some?) &&
      (!r.0 ==> r.1.decoded == st.decoded) &&
      (r.0 ==> r.1.decoded.numberOfBits == Bits && r.1.value == m.pulseDistance(st.rawbuf, WordQuery).value)
  {
  }

  /** A capture that passes every gate: results.value is the word read, decodedIRData the decoded frame. */
  lemma FrameState(st: RecvState, m: Matchers, c: Config)
    requires c.microsPerTick > 0
    requires |st.rawbuf| == RawLength && m.matchMark(st.rawbuf[1], HeaderMark) && m.matchMark(st.rawbuf[2], HeaderSpace)
    requires m.pulseDistance(st.rawbuf, VendorQuery).Some? && m.pulseDistance(st.rawbuf, WordQuery).Some?
    ensures var vendorValue := m.pulseDistance(st.rawbuf, VendorQuery).value;
      var value := m.pulseDistance(st.rawbuf, WordQuery).value;
      DecodeKaseikyoSpec(st, m, c) ==
        (true, st.(value := value,
                   decoded := DecodedFrame(st.decoded, VendorProtocol(vendorValue, c.vendors), LowWord(vendorValue),
                                           value, RepeatGap(st.rawbuf[0], c), c.flags)))
  {
  }

  /** No known code matched. */
  predicate UnknownVendor(value: bv32, codes: VendorCodes)
  {
    !IsCode(value, codes.panasonic) && !IsCode(value, codes.sharp) && !IsCode(value, codes.denon) &&
    !IsCode(value, codes.jvc) && !IsCode(value, codes.mitsubishi)
  }

  /**
   * The protocol of a vendor id: each known code selects its protocol (the first listed
   * wins when two codes coincide), anything else, including a read with bits above
   * bit 15, is generic KASEIKYO.
   */
  lemma VendorMapping(value: bv32, codes: VendorCodes)
    ensures VendorProtocol(value, codes) == PANASONIC <==> IsCode(value, codes.panasonic)
    ensures VendorProtocol(value, codes) == KASEIKYO_SHARP <==> !IsCode(value, codes.panasonic) && IsCode(value, codes.sharp)
    ensures VendorProtocol(value, codes) == KASEIKYO_DENON <==>
      !IsCode(value, codes.panasonic) && !IsCode(value, codes.sharp) && IsCode(value, codes.denon)
    ensures VendorProtocol(value, codes) == KASEIKYO_JVC <==>
      !IsCode(value, codes.panasonic) && !IsCode(value, codes.sharp) && !IsCode(value, codes.denon) &&
      IsCode(value, codes.jvc)
    ensures VendorProtocol(value, codes) == KASEIKYO_MITSUBISHI <==>
      !IsCode(value, codes.panasonic) && !IsCode(value, codes.sharp) && !IsCode(value, codes.denon) &&
      !IsCode(value, codes.jvc) && IsCode(value, codes.mitsubishi)
    ensures VendorProtocol(value, codes) == KASEIKYO <==> UnknownVendor(value, codes)
    ensures HighWord(value) != 0 ==> VendorProtocol(value, codes) == KASEIKYO
  {
  }

  /** Bits 0-11 of the decoded address are bits 4-15 of the word. */
  lemma DecodedAddressLow(d: IRData, protocol: Protocol, vendor: bv16, value: bv32, repeat: bool, bits: FlagBits)
    ensures DecodedFrame(d, protocol, vendor, value, repeat, bits).address & 0xFFF == LowWord(value) >> 4
  {
    AddressFields(LowWord(value), vendor, protocol == KASEIKYO);
  }

  /** Bits 12-15 of the decoded address: the vendor id's low nibble for generic KASEIKYO, else 0. */
  lemma DecodedAddressHigh(d: IRData, protocol: Protocol, vendor: bv16, value: bv32, repeat: bool, bits: FlagBits)
    ensures DecodedFrame(d, protocol, vendor, value, repeat, bits).address >> 12 ==
      if protocol == KASEIKYO then vendor & 0xF else 0
  {
    AddressFields(LowWord(value), vendor, protocol == KASEIKYO);
  }

  /**
   * The address after a decode is bits 4-15 of the word; only for generic KASEIKYO does the
   * vendor id enter it, shifted left by 12 into a 16-bit field, so that only its low nibble
   * survives.
   */
  lemma DecodedAddress(st: RecvState, m: Matchers, c: Config)
    requires c.microsPerTick > 0
    requires DecodeKaseikyoSpec(st, m, c).0
    ensures var vendorValue := m.pulseDistance(st.rawbuf, VendorQuery).value;
      var d' := DecodeKaseikyoSpec(st, m, c).1.decoded;
      d'.address & 0xFFF == LowWord(m.pulseDistance(st.rawbuf, WordQuery).value) >> 4 &&
      d'.address >> 12 == (if d'.protocol == KASEIKYO then LowWord(vendorValue) & 0xF else 0) &&
      d'.protocol == VendorProtocol(vendorValue, c.vendors)
  {
    var vendorValue := m.pulseDistance(st.rawbuf, VendorQuery).value;
    var value := m.pulseDistance(st.rawbuf, WordQuery).value;
    var protocol := VendorProtocol(vendorValue, c.vendors);
    var repeat := RepeatGap(st.rawbuf[0], c);
    DecodedAddressLow(st.decoded, protocol, LowWord(vendorValue), value, repeat, c.flags);
    DecodedAddressHigh(st.decoded, protocol, LowWord(vendorValue), value, repeat, c.flags);
  }

  /**
   * The flags after a decode: when either parity check fails they are PARITY_FAILED alone,
   * whatever was set before; otherwise the flags held before are kept. IS_REPEAT is ORed
   * in exactly for a repeat gap.
   */
  lemma DecodedFlags(d: IRData, protocol: Protocol, vendor: bv16, value: bv32, repeat: bool, bits: FlagBits)
    ensures var passed := VendorParity(vendor) == LowByte(value) & 0xF &&
        HighByte(value) == LowByte(value) ^ MidLowByte(value) ^ MidHighByte(value);
      DecodedFrame(d, protocol, vendor, value, repeat, bits).flags ==
        (if passed then d.flags else bits.parityFailed) | (if repeat then bits.isRepeat else 0)
  {
  }

  /** Both parity checks pass on a word the sender built. */
  lemma SentChecksPass(address: bv16, command: bv8, vendor: bv16)
    ensures VendorParityOk(vendor, SendWord(address, command, vendor))
    ensures ParityOk(SendWord(address, command, vendor))
  {
    PackParity(address, command, VendorParity(vendor));
    PackCheck(address, command, VendorParity(vendor));
  }

  /** FrameAddress depends on the low word only through its bits 4-15. */
  lemma AddressOfBits(lowWord: bv16, address: bv16, vendor: bv16, withVendor: bool)
    requires lowWord >> 4 == address & 0xFFF
    ensures FrameAddress(lowWord, vendor, withVendor) ==
      if withVendor then (address & 0xFFF) | (vendor << 12) else address & 0xFFF
  {
    if withVendor {
    } else {
    }
  }

  /** Bits 0-11 of the address are bits 4-15 of the low word; bits 12-15 the vendor's low nibble or 0. */
  lemma AddressFields(lowWord: bv16, vendor: bv16, withVendor: bool)
    ensures FrameAddress(lowWord, vendor, withVendor) & 0xFFF == lowWord >> 4
    ensures FrameAddress(lowWord, vendor, withVendor) >> 12 == if withVendor then vendor & 0xF else 0
  {
    if withVendor {
    } else {
    }
  }

  /** With both checks passed the flags held before are kept, with IS_REPEAT ORed in for a repeat. */
  lemma FlagsWhenChecksPass(held: bv8, repeat: bool, bits: FlagBits)
    ensures FrameFlags(held, true, true, repeat, bits) == if repeat then held | bits.isRepeat else held
  {
    if repeat {
    } else {
    }
  }

  /** The vendor nibble ORed in above bit 11 leaves bits 0-11 alone. */
  lemma VendorAboveAddress(address: bv16, vendor: bv16, withVendor: bool)
    ensures (if withVendor then (address & 0xFFF) | (vendor << 12) else address & 0xFFF) & 0xFFF == address & 0xFFF
  {
    if withVendor {
    } else {
    }
  }

  /** The address read back from a word the sender built is the sent address to 12 bits. */
  lemma SentAddress(address: bv16, command: bv8, vendor: bv16, withVendor: bool)
    ensures FrameAddress(LowWord(SendWord(address, command, vendor)), vendor, withVendor) ==
      if withVendor then (address & 0xFFF) | (vendor << 12) else address & 0xFFF
  {
    PackAddress(address, command, VendorParity(vendor));
    AddressOfBits(LowWord(SendWord(address, command, vendor)), address, vendor, withVendor);
  }

  /** The address field of a decoded frame, for any word. */
  lemma FrameAddressField(d: IRData, protocol: Protocol, vendor: bv16, value: bv32, repeat: bool, bits: FlagBits)
    ensures DecodedFrame(d, protocol, vendor, value, repeat, bits).address == FrameAddress(LowWord(value), vendor, protocol == KASEIKYO)
  {
  }

  /** A vendor id read back as a 32-bit value has the id as its low word. */
  lemma VendorWord(vendor: bv16)
    ensures LowWord(vendor as bv32) == vendor
  {
  }

  /**
   * What the decoder should report for a frame the sender built: the address masked to 12
   * bits (with the vendor's low nibble above for generic KASEIKYO), the command unchanged,
   * the flags held before with IS_REPEAT ORed in for a repeat gap.
   */
  function SentFrame(d: IRData, protocol: Protocol, address: bv16, command: bv8, vendor: bv16, repeat: bool, bits: FlagBits): IRData
  {
    d.(address := if protocol == KASEIKYO then (address & 0xFFF) | (vendor << 12) else address & 0xFFF,
       command := command as bv16,
       flags := if repeat then d.flags | bits.isRepeat else d.flags,
       protocol := protocol,
       numberOfBits := Bits)
  }

  /** Unpacking the sender's word gives SentFrame: neither parity check fires. */
  lemma UnpackSent(d: IRData, protocol: Protocol, address: bv16, command: bv8, vendor: bv16, repeat: bool, bits: FlagBits)
    ensures DecodedFrame(d, protocol, vendor, SendWord(address, command, vendor), repeat, bits) ==
      SentFrame(d, protocol, address, command, vendor, repeat, bits)
  {
    SentChecksPass(address, command, vendor);
    SentAddress(address, command, vendor, protocol == KASEIKYO);
    FrameAddressField(d, protocol, vendor, SendWord(address, command, vendor), repeat, bits);
    PackCommand(address, command, VendorParity(vendor));
    FlagsWhenChecksPass(d.flags, repeat, bits);
  }

  /**
   * Round trip: when the reads return the vendor id and the word the sender built, the
   * decoder accepts, leaves the word in results.value and reports SentFrame for the
   * vendor's protocol.
   */
  lemma RoundTrip(st: RecvState, m: Matchers, c: Config, address: bv16, command: bv8, vendor: bv16)
    requires c.microsPerTick > 0
    requires |st.rawbuf| == RawLength && m.matchMark(st.rawbuf[1], HeaderMark) && m.matchMark(st.rawbuf[2], HeaderSpace)
    requires m.pulseDistance(st.rawbuf, VendorQuery) == Some(vendor as bv32)
    requires m.pulseDistance(st.rawbuf, WordQuery) == Some(SendWord(address, command, vendor))
    ensures var r := DecodeKaseikyoSpec(st, m, c);
      r.0 && r.1.value == SendWord(address, command, vendor) &&
      r.1.decoded == SentFrame(st.decoded, VendorProtocol(vendor as bv32, c.vendors), address, command, vendor,
                               RepeatGap(st.rawbuf[0], c), c.flags)
  {
    FrameState(st, m, c);
    VendorWord(vendor);
    UnpackSent(st.decoded, VendorProtocol(vendor as bv32, c.vendors), address, command, vendor, RepeatGap(st.rawbuf[0], c), c.flags);
  }

  /** Whatever the protocol, bits 0-11 of the round-tripped address are those sent. */
  lemma RoundTripAddress(address: bv16, vendor: bv16, codes: VendorCodes)
    ensures var protocol := VendorProtocol(vendor as bv32, codes);
      (if protocol == KASEIKYO then (address & 0xFFF) | (vendor << 12) else address & 0xFFF) & 0xFFF == address & 0xFFF
  {
    VendorAboveAddress(address, vendor, VendorProtocol(vendor as bv32, codes) == KASEIKYO);
  }
}
