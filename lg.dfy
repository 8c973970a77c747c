/**
 * The LG protocol: NEC-like timing with 28 data bits sent most significant bit first, an
 * 8-bit address, a 16-bit command and a 4-bit checksum field, followed by a stop mark.
 * Repeats are a short header-only frame in a 110 ms raster.
 */
module LG {
  import opened CTypes
  import opened Wrappers
  import opened IRSend
  import opened IRRecv

  const AddressBits: nat := 8
  const CommandBits: nat := 16
  const ChecksumBits: nat := 4
  /** LG_BITS. */
  const Bits: nat := 28

  const Unit: nat := 560
  const HeaderMark: nat := 8960
  const HeaderSpace: nat := 4480
  const BitMark: nat := 560
  const OneSpace: nat := 1680
  const ZeroSpace: nat := 560
  const RepeatHeaderSpace: nat := 2240
  const AverageDuration: nat := 58000
  /** LG_REPEAT_DURATION: header mark, repeat header space and bit mark. */
  const RepeatDuration: nat := 11760
  const RepeatPeriod: nat := 110000
  /** The delay before the first repeat frame, in milliseconds. */
  const FirstRepeatDelay: nat := 52
  /** The delay before every later repeat frame, in milliseconds. */
  const NextRepeatDelay: nat := 98
  const CarrierKHz: nat := 38

  /** results.rawlen of a data frame: the gap, the header mark and space, 28 bit cells and the stop mark. */
  const RawLength: nat := 60
  /** results.rawlen of a repeat frame: the gap, the header mark, the repeat space and the bit mark. */
  const RepeatRawLength: nat := 4
  /** Where the stop mark of a data frame lies in rawbuf. */
  const StopIndex: nat := 59

  /** The literals above are the source's expressions evaluated. */
  lemma FrameShape()
    ensures Bits == AddressBits + CommandBits + ChecksumBits
    ensures HeaderMark == 16 * Unit && HeaderSpace == 8 * Unit && RepeatHeaderSpace == 4 * Unit
    ensures BitMark == Unit && OneSpace == 3 * Unit && ZeroSpace == Unit
    ensures RepeatDuration == HeaderMark + RepeatHeaderSpace + BitMark
    ensures FirstRepeatDelay == (RepeatPeriod - AverageDuration) / 1000
    ensures NextRepeatDelay == (RepeatPeriod - RepeatDuration) / 1000
    ensures RawLength == 2 * Bits + 4 && StopIndex == 3 + 2 * Bits
  {
  }

  /** The sender's bit timing, in sendPulseDistanceWidthData's argument order. */
  const Timing: PulseDistanceWidth := PulseDistanceWidth(BitMark, OneSpace, BitMark, ZeroSpace)

  /** The decodePulseDistanceData call of the decoder: 28 bits from rawbuf[3], most significant first. */
  const Query: DistanceQuery := DistanceQuery(Bits, 3, BitMark, OneSpace, ZeroSpace, true)

  // ---------------------------------------------------------------------------
  // The checksum
  // ---------------------------------------------------------------------------

  /** The sum of the `k` lowest nibbles of `x`, with x & 0xF as x % 16 and x >> 4 as x / 16. */
  function NibbleSum(x: nat, k: nat): nat
    decreases k
  {
    if k == 0 then 0 else x % 16 + NibbleSum(x / 16, k - 1)
  }

  /** Each nibble adds at most 15. */
  lemma {:induction false} NibbleSumBound(x: nat, k: nat)
    ensures NibbleSum(x, k) <= 15 * k
    decreases k
  {
    if k > 0 {
      NibbleSumBound(x / 16, k - 1);
    }
  }

  /** The checksum both sides compute: the sum of the four nibbles of the command, not masked to 4 bits. */
  function Checksum(command: bv16): (sum: nat)
    ensures sum <= 60
  {
    NibbleSumBound(command as nat, 4);
    NibbleSum(command as nat, 4)
  }

  /** tChecksum, the uint8_t holding the checksum: at most 60, so the sum never wraps. */
  function ChecksumByte(command: bv16): bv8
  {
    Checksum(command) as bv8
  }

  /** The byte fits a 4-bit field exactly when the nibble sum is at most 15. */
  lemma ChecksumByteFits(command: bv16)
    ensures ChecksumByte(command) <= 0xF <==> Checksum(command) <= 15
  {
    var n := Checksum(command);
    assert n <= 60;
  }

  /**
   * The loop both sides run over tTempForChecksum, the uint16_t copy of the command (here its
   * value): add its low nibble into the uint8_t sum, shift it right by a nibble, four times.
   */
  method NibbleLoop(command: nat) returns (checksum: nat)
    ensures checksum == NibbleSum(command, 4)
    ensures checksum <= 60
  {
    checksum := 0;
    var temp := command;
    var i := 0;
    while i < 4
      invariant 0 <= i <= 4
      invariant checksum <= 15 * i
      invariant checksum + NibbleSum(temp, 4 - i) == NibbleSum(command, 4)
    {
      checksum := (checksum + temp % 16) % U8;
      temp := temp / 16;
      i := i + 1;
    }
  }

  /** The checksum computation of the sender and the decoder, from the uint16_t command to the uint8_t sum. */
  method ComputeChecksum(command: bv16) returns (checksum: bv8)
    ensures checksum == ChecksumByte(command)
  {
    var sum := NibbleLoop(command as nat);
    checksum := sum as bv8;
  }

  // ---------------------------------------------------------------------------
  // The 28-bit word
  // ---------------------------------------------------------------------------

  /** tData: the address in bits 20-27, the command in bits 4-19 and the checksum ORed in from bit 0. */
  function PackWord(address: bv8, command: bv16, checksum: bv8): bv32
  {
    ((address as bv32) << 20) | ((command as bv32) << 4) | (checksum as bv32)
  }

  /** The word sendLGStandard sends. */
  function SendWord(address: bv8, command: bv16): bv32
  {
    PackWord(address, command, ChecksumByte(command))
  }

  /** decodedIRData.command: bits 4-19 of the value, kept as a uint16_t. */
  function WordCommand(value: bv32): bv16
  {
    LowWord(value >> 4)
  }

  /** decodedIRData.address: the value shifted right by 20, kept as a uint16_t. */
  function WordAddress(value: bv32): bv16
  {
    LowWord(value >> 20)
  }

  // One bit-vector fact per lemma: the solver handles each alone quickly, not all at once.

  /** The checksum never reaches the address bits. */
  lemma PackAddress(address: bv8, command: bv16, checksum: bv8)
    ensures WordAddress(PackWord(address, command, checksum)) == address as bv16
  {
  }

  /** A checksum of at most 4 bits leaves the command bits alone. */
  lemma PackCommand(address: bv8, command: bv16, checksum: bv8)
    requires checksum <= 0xF
    ensures WordCommand(PackWord(address, command, checksum)) == command
  {
  }

  /** A checksum of at most 4 bits is the low nibble of the word. */
  lemma PackChecksum(address: bv8, command: bv16, checksum: bv8)
    requires checksum <= 0xF
    ensures PackWord(address, command, checksum) & 0xF == checksum as bv32
  {
  }

  /** A wider checksum spills its bits 4-7 into the command's lowest nibble. */
  lemma PackSpill(address: bv8, command: bv16, checksum: bv8)
    ensures WordCommand(PackWord(address, command, checksum)) == command | (checksum >> 4) as bv16
  {
  }

  /** Whatever the checksum, the low nibble of the word is its low nibble. */
  lemma PackLowNibble(address: bv8, command: bv16, checksum: bv8)
    ensures PackWord(address, command, checksum) & 0xF == (checksum & 0xF) as bv32
  {
  }

  // ---------------------------------------------------------------------------
  // The sender
  // ---------------------------------------------------------------------------

  /** The data frame, with interrupts masked: the header, then the 28 bits and the stop bit. */
  function DataFrame(address: bv8, command: bv16): (frame: seq<Act>)
    ensures |frame| == 5
  {
    [NoInterrupts, Mark(HeaderMark), Space(HeaderSpace),
     PulseDistanceData(Timing, SendWord(address, command) as nat, Bits, true, true), Interrupts]
  }

  /** sendLGRepeat(): the carrier, then the header mark, the short space and a bit mark with interrupts masked. */
  function RepeatFrame(): (frame: seq<Act>)
    ensures |frame| == 7
  {
    [EnableIROut(CarrierKHz), NoInterrupts, Mark(HeaderMark), Space(RepeatHeaderSpace), Mark(BitMark), Space(0), Interrupts]
  }

  /** The trace of sendLGStandard: the carrier, the data frame, then the repeats in the 110 ms raster. */
  function LGTrace(address: bv8, command: bv16, repeats: nat): seq<Act>
  {
    [EnableIROut(CarrierKHz)] + DataFrame(address, command) + Raster(RepeatFrame(), FirstRepeatDelay, NextRepeatDelay, repeats)
  }

  /** sendLGStandard(): the checksum loop, the data frame, then one repeat frame per loop round. */
  method SendLGStandard(address: bv8, command: bv16, repeats: nat) returns (trace: seq<Act>)
    requires repeats < U8
    ensures trace == LGTrace(address, command, repeats)
  {
    var checksum := ComputeChecksum(command);
    var data := PackWord(address, command, checksum);
    trace := [EnableIROut(CarrierKHz), NoInterrupts, Mark(HeaderMark), Space(HeaderSpace),
      PulseDistanceData(Timing, data as nat, Bits, true, true), Interrupts];
    ghost var pre := [EnableIROut(CarrierKHz)] + DataFrame(address, command);
    assert trace == pre;
    var i: nat := 0;
    while i < repeats
      invariant i <= repeats
      invariant trace == pre + Raster(RepeatFrame(), FirstRepeatDelay, NextRepeatDelay, i)
    {
      if i == 0 {
        trace := trace + [Delay(FirstRepeatDelay)];
      } else {
        trace := trace + [Delay(NextRepeatDelay)];
      }
      trace := trace + RepeatFrame();
      RasterStep(RepeatFrame(), FirstRepeatDelay, NextRepeatDelay, i);
      i := i + 1;
    }
  }

  /**
   * The repeat schedule: `repeats` repeat frames, the first 52 ms after the data frame and
   * each later one 98 ms after the one before, and no delay after the last.
   */
  lemma RepeatSchedule(repeats: nat)
    requires repeats >= 1
    ensures var raster := Raster(RepeatFrame(), FirstRepeatDelay, NextRepeatDelay, repeats);
      raster[0] == Delay(FirstRepeatDelay) &&
      multiset(raster)[Delay(FirstRepeatDelay)] == 1 &&
      multiset(raster)[Delay(NextRepeatDelay)] == repeats - 1 &&
      multiset(raster)[Space(RepeatHeaderSpace)] == repeats &&
      EndsWith(raster, RepeatFrame())
  {
    var frame := RepeatFrame();
    RepeatFrameNoDelay();
    RepeatFrameHeader();
    RasterDelays(frame, FirstRepeatDelay, NextRepeatDelay, repeats);
    RasterCount(frame, FirstRepeatDelay, NextRepeatDelay, repeats, Space(RepeatHeaderSpace));
    RasterEnds(frame, FirstRepeatDelay, NextRepeatDelay, repeats);
  }

  /** The repeat frame holds no delay. */
  lemma RepeatFrameNoDelay()
    ensures forall a :: a in RepeatFrame() ==> !a.Delay?
  {
  }

  /** The repeat frame holds one short header space. */
  lemma RepeatFrameHeader()
    ensures multiset(RepeatFrame())[Space(RepeatHeaderSpace)] == 1
  {
  }

  /** Without repeats only the carrier and the data frame are sent. */
  lemma SendNoRepeats(address: bv8, command: bv16)
    ensures LGTrace(address, command, 0) == [EnableIROut(CarrierKHz)] + DataFrame(address, command)
  {
  }

  /** The data frame masks interrupts around its header and data. */
  lemma DataFrameBalanced(address: bv8, command: bv16)
    ensures Balanced(DataFrame(address, command))
  {
    var data := DataFrame(address, command);
    assert data == [NoInterrupts] + data[1..4] + [Interrupts];
    MaskedRegionBalanced(data[1..4]);
  }

  /** The repeat frame sets up the carrier, then masks interrupts around its marks and spaces. */
  lemma RepeatFrameBalanced()
    ensures Balanced(RepeatFrame())
  {
    var repeat := RepeatFrame();
    assert repeat[1..] == [NoInterrupts] + repeat[2..6] + [Interrupts];
    MaskedRegionBalanced(repeat[2..6]);
    SingleBalanced(EnableIROut(CarrierKHz));
    assert repeat == [EnableIROut(CarrierKHz)] + repeat[1..];
    BalancedAppend([EnableIROut(CarrierKHz)], repeat[1..]);
  }

  /** The sender masks interrupts only around each frame and leaves them enabled. */
  lemma SendBalanced(address: bv8, command: bv16, repeats: nat)
    ensures Balanced(LGTrace(address, command, repeats))
  {
    DataFrameBalanced(address, command);
    RepeatFrameBalanced();
    SingleBalanced(EnableIROut(CarrierKHz));
    RasterBalanced(RepeatFrame(), FirstRepeatDelay, NextRepeatDelay, repeats);
    BalancedAppend3([EnableIROut(CarrierKHz)], DataFrame(address, command), Raster(RepeatFrame(), FirstRepeatDelay, NextRepeatDelay, repeats));
  }

  // ---------------------------------------------------------------------------
  // The decoder
  // ---------------------------------------------------------------------------

  /** The parity check: the checksum of the decoded command equals the low nibble of the value. */
  predicate ChecksumOk(command: bv16, value: bv32)
  {
    ChecksumByte(command) as bv32 == value & 0xF
  }

  /** A failed checksum ORs PARITY_FAILED into the flags held before. */
  function CheckedFlags(held: bv8, ok: bool, bits: FlagBits): bv8
  {
    if ok then held else held | bits.parityFailed
  }

  /** decodedIRData after a data frame whose read returned `value` and whose stop mark matched. */
  function DecodedFrame(d: IRData, value: bv32, bits: FlagBits): (d': IRData)
    ensures d'.protocol == LG && d'.numberOfBits == Bits
  {
    d.(command := WordCommand(value),
       address := WordAddress(value),
       flags := CheckedFlags(d.flags, ChecksumOk(WordCommand(value), value), bits),
       protocol := LG,
       numberOfBits := Bits)
  }

  /** decodedIRData after a repeat frame: IS_REPEAT alone, and the last decoded address and command. */
  function RepeatDecoded(st: RecvState, bits: FlagBits): IRData
  {
    st.decoded.(flags := bits.isRepeat, address := st.lastDecodedAddress, command := st.lastDecodedCommand)
  }

  /**
   * decodeLG(): the verdict and the new receiver state. A 4-entry capture is a repeat frame,
   * a 60-entry one a data frame; every other length, and each gate that fails, returns false.
   */
  function DecodeLGSpec(st: RecvState, m: Matchers, c: Config): (r: (bool, RecvState))
    ensures r.1.rawbuf == st.rawbuf && r.1.lastDecodedAddress == st.lastDecodedAddress
    ensures r.1.lastDecodedCommand == st.lastDecodedCommand && r.1.magnitude == st.magnitude
  {
    var raw := st.rawbuf;
    if |raw| != RawLength && |raw| != RepeatRawLength then (false, st)
    else if !m.matchMark(raw[1], HeaderMark) then (false, st)
    else if |raw| == RepeatRawLength then
      if m.matchSpace(raw[2], RepeatHeaderSpace) && m.matchMark(raw[3], BitMark) then
        (true, st.(decoded := RepeatDecoded(st, c.flags)))
      else (false, st)
    else if !m.matchSpace(raw[2], HeaderSpace) then (false, st)
    else match m.pulseDistance(raw, Query)
      case None => (false, st)
      case Some(value) =>
        if !m.matchMark(raw[StopIndex], BitMark) then (false, st.(value := value))
        else (true, st.(value := value, decoded := DecodedFrame(st.decoded, value, c.flags)))
  }

  /** The writes of decodedIRData after a data frame, with the checksum loop run on the decoded command. */
  method FillDecoded(d: IRData, value: bv32, bits: FlagBits) returns (d': IRData)
    ensures d' == DecodedFrame(d, value, bits)
  {
    d' := d.(command := WordCommand(value));
    d' := d'.(address := WordAddress(value));
    var checksum := ComputeChecksum(d'.command);
    if checksum as bv32 != value & 0xF {
      d' := d'.(flags := d'.flags | bits.parityFailed);
    }
    d' := d'.(protocol := LG);
    d' := d'.(numberOfBits := Bits);
  }

  /** decodeLG(): the length gate, the header mark, then the repeat frame or the data frame. */
  method DecodeLG(r: Receiver, m: Matchers, c: Config) returns (ok: bool)
    modifies r
    ensures (ok, r.State()) == DecodeLGSpec(old(r.State()), m, c)
  {
    if |r.rawbuf| != RawLength && |r.rawbuf| != RepeatRawLength {
      return false;
    }
    if !m.matchMark(r.rawbuf[1], HeaderMark) {
      return false;
    }
    if |r.rawbuf| == RepeatRawLength {
      if m.matchSpace(r.rawbuf[2], RepeatHeaderSpace) && m.matchMark(r.rawbuf[3], BitMark) {
        r.decoded := r.decoded.(flags := c.flags.isRepeat);
        r.decoded := r.decoded.(address := r.lastDecodedAddress);
        r.decoded := r.decoded.(command := r.lastDecodedCommand);
        return true;
      }
      return false;
    }
    if !m.matchSpace(r.rawbuf[2], HeaderSpace) {
      return false;
    }
    var read := m.pulseDistance(r.rawbuf, Query);
    if read.None? {
      return false;
    }
    r.value := read.value;
    if !m.matchMark(r.rawbuf[StopIndex], BitMark) {
      return false;
    }
    r.decoded := FillDecoded(r.decoded, r.value, c.flags);
    return true;
  }

  // ---------------------------------------------------------------------------
  // Properties of the decoder
  // ---------------------------------------------------------------------------

  /**
   * The decoder accepts exactly a matching repeat frame of 4 entries or a matching data
   * frame of 60 entries whose read succeeds; when it refuses, decodedIRData is untouched.
   */
  lemma DecodeAccepts(st: RecvState, m: Matchers, c: Config)
    ensures var raw := st.rawbuf;
      var r := DecodeLGSpec(st, m, c);
      (r.0 <==>
        (|raw| == RepeatRawLength && m.matchMark(raw[1], HeaderMark) &&
         m.matchSpace(raw[2], RepeatHeaderSpace) && m.matchMark(raw[3], BitMark)) ||
        (|raw| == RawLength && m.matchMark(raw[1], HeaderMark) && m.matchSpace(raw[2], HeaderSpace) &&
         m.pulseDistance(raw, Query).Some? && m.matchMark(raw[StopIndex], BitMark))) &&
      (!r.0 ==> r.1.decoded == st.decoded)
  {
  }

  /**
   * An accepted repeat frame sets the flags to IS_REPEAT alone and restores the last decoded
   * address and command; protocol and numberOfBits keep what they held.
   */
  lemma RepeatRestores(st: RecvState, m: Matchers, c: Config)
    requires |st.rawbuf| == RepeatRawLength && DecodeLGSpec(st, m, c).0
    ensures var d := DecodeLGSpec(st, m, c).1.decoded;
      d.flags == c.flags.isRepeat && d.address == st.lastDecodedAddress && d.command == st.lastDecodedCommand &&
      d.protocol == st.decoded.protocol && d.numberOfBits == st.decoded.numberOfBits
  {
  }

  /** With the checksum passed the flags are kept; a failure ORs PARITY_FAILED in and the frame is still accepted. */
  lemma CheckedFlagsCases(held: bv8, ok: bool, bits: FlagBits)
    ensures CheckedFlags(held, ok, bits) == held | (if ok then 0 else bits.parityFailed)
  {
    if ok {
    } else {
    }
  }

  /**
   * An accepted data frame: the command is bits 4-19 of the value, the address the bits from
   * 20 on, and a checksum mismatch ORs PARITY_FAILED into the flags held before.
   */
  lemma DataFrameState(st: RecvState, m: Matchers, c: Config)
    requires |st.rawbuf| == RawLength && DecodeLGSpec(st, m, c).0
    ensures m.pulseDistance(st.rawbuf, Query).Some?
    ensures var value := m.pulseDistance(st.rawbuf, Query).value;
      DecodeLGSpec(st, m, c).1 == st.(value := value, decoded := DecodedFrame(st.decoded, value, c.flags))
  {
  }

  lemma DataFrameFields(st: RecvState, m: Matchers, c: Config)
    requires |st.rawbuf| == RawLength && DecodeLGSpec(st, m, c).0
    ensures var r := DecodeLGSpec(st, m, c);
      var value := m.pulseDistance(st.rawbuf, Query).value;
      r.1.value == value &&
      r.1.decoded.command == LowWord(value >> 4) &&
      r.1.decoded.address == LowWord(value >> 20) &&
      r.1.decoded.flags == st.decoded.flags | (if ChecksumOk(LowWord(value >> 4), value) then 0 else c.flags.parityFailed) &&
      r.1.decoded.protocol == LG && r.1.decoded.numberOfBits == Bits
  {
    DataFrameState(st, m, c);
    var value := m.pulseDistance(st.rawbuf, Query).value;
    CheckedFlagsCases(st.decoded.flags, ChecksumOk(WordCommand(value), value), c.flags);
  }

  /** The checksum of a sent word whose nibble sum fits in 4 bits passes, and the command comes back unchanged. */
  lemma SentChecksumPasses(address: bv8, command: bv16)
    requires Checksum(command) <= 15
    ensures WordCommand(SendWord(address, command)) == command
    ensures ChecksumOk(WordCommand(SendWord(address, command)), SendWord(address, command))
  {
    ChecksumByteFits(command);
    PackCommand(address, command, ChecksumByte(command));
    PackChecksum(address, command, ChecksumByte(command));
  }

  /** A checksum wider than 4 bits is never the low nibble of the word it was ORed into. */
  lemma WideChecksumLost(address: bv8, command: bv16, checksum: bv8)
    requires checksum > 0xF
    ensures PackWord(address, command, checksum) & 0xF != checksum as bv32
  {
    PackLowNibble(address, command, checksum);
  }

  /**
   * When the nibble sum exceeds 15 the decoder never reports the sent command with a passing
   * checksum: either the spilled bits changed the command, or the recomputed checksum
   * differs from the word's low nibble.
   */
  lemma SentChecksumFails(address: bv8, command: bv16)
    requires Checksum(command) > 15
    ensures WordCommand(SendWord(address, command)) != command ||
      !ChecksumOk(WordCommand(SendWord(address, command)), SendWord(address, command))
  {
    ChecksumByteFits(command);
    WideChecksumLost(address, command, ChecksumByte(command));
  }

  /** The decoder reports the sent command with a passing checksum exactly when the nibble sum fits in 4 bits. */
  lemma SentChecksumIff(address: bv8, command: bv16)
    ensures (WordCommand(SendWord(address, command)) == command &&
      ChecksumOk(WordCommand(SendWord(address, command)), SendWord(address, command))) <==> Checksum(command) <= 15
  {
    if Checksum(command) <= 15 {
      SentChecksumPasses(address, command);
    } else {
      SentChecksumFails(address, command);
    }
  }

  /** The nibble sums of the two commands of the spill below. */
  lemma SpillSums()
    ensures ChecksumByte(0x0088) == 0x10
    ensures ChecksumByte(0x0089) == 0x11
  {
    assert (0x0088 as bv16) as nat == 0x88;
    assert (0x0089 as bv16) as nat == 0x89;
    assert NibbleSum(0x88, 4) == 16;
    assert NibbleSum(0x89, 4) == 17;
  }

  /**
   * A concrete spill: command 0x0088 has nibble sum 16; its bit 4 lands in bit 4 of the word, the command's bit 0,
   * so the command comes back as 0x0089 and its checksum, 17, fails.
   */
  lemma ChecksumSpills()
    ensures WordCommand(SendWord(0, 0x0088)) == 0x0089
    ensures !ChecksumOk(WordCommand(SendWord(0, 0x0088)), SendWord(0, 0x0088))
  {
    SpillSums();
    PackSpill(0, 0x0088, 0x10);
    PackLowNibble(0, 0x0088, 0x10);
  }

  /** Decoding the sender's word: address and command come back, and the flags held before are kept. */
  lemma UnpackSent(d: IRData, address: bv8, command: bv16, bits: FlagBits)
    requires Checksum(command) <= 15
    ensures DecodedFrame(d, SendWord(address, command), bits) ==
      d.(command := command, address := address as bv16, protocol := LG, numberOfBits := Bits)
  {
    SentChecksumPasses(address, command);
    PackAddress(address, command, ChecksumByte(command));
  }

  /**
   * Round trip: when the read returns the word the sender built for a command whose nibble
   * sum fits in 4 bits, the decoder accepts and reports the sent address and command, LG and
   * 28 bits, with the flags unchanged.
   */
  lemma RoundTrip(st: RecvState, m: Matchers, c: Config, address: bv8, command: bv16)
    requires Checksum(command) <= 15
    requires |st.rawbuf| == RawLength && m.matchMark(st.rawbuf[1], HeaderMark) && m.matchSpace(st.rawbuf[2], HeaderSpace)
    requires m.pulseDistance(st.rawbuf, Query) == Some(SendWord(address, command))
    requires m.matchMark(st.rawbuf[StopIndex], BitMark)
    ensures var r := DecodeLGSpec(st, m, c);
      r.0 && r.1.value == SendWord(address, command) &&
      r.1.decoded == st.decoded.(command := command, address := address as bv16, protocol := LG, numberOfBits := Bits)
  {
    UnpackSent(st.decoded, address, command, c.flags);
  }
}
