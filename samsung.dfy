/**
 * The Samsung protocol: a 4400/4400 us header, a 16-bit address and a 16-bit command sent
 * least significant bit first with a stop mark; a 48-bit variant carries a 32-bit command.
 * Repeats are a header, one zero cell and a bit mark, in a 110 ms raster.
 */
module Samsung {
  import opened CTypes
  import opened Wrappers
  import opened IRSend
  import opened IRRecv

  const AddressBits: nat := 16
  const Command16Bits: nat := 16
  const Command32Bits: nat := 32
  /** SAMSUNG_BITS. */
  const Bits: nat := 32
  /** SAMSUNG48_BITS. */
  const Bits48: nat := 48

  const Unit: nat := 550
  const HeaderMark: nat := 4400
  const HeaderSpace: nat := 4400
  const BitMark: nat := 550
  const OneSpace: nat := 1650
  const ZeroSpace: nat := 550
  const AverageDuration: nat := 55000
  /** SAMSUNG_REPEAT_DURATION: the header, a bit mark, a zero space and the closing bit mark. */
  const RepeatDuration: nat := 10450
  const RepeatPeriod: nat := 110000
  /** The delay before the first repeat frame, in milliseconds. */
  const FirstRepeatDelay: nat := 55
  /** The delay before every later repeat frame, in milliseconds. */
  const NextRepeatDelay: nat := 99
  const CarrierKHz: nat := 38

  /** results.rawlen of a 32-bit frame: the gap, the header mark and space, 32 bit cells and the stop mark. */
  const RawLength: nat := 68
  /** results.rawlen of a 48-bit frame. */
  const RawLength48: nat := 100
  /** results.rawlen of a repeat frame. */
  const RepeatRawLength: nat := 6

  /** The literals above are the source's expressions evaluated. */
  lemma FrameShape()
    ensures Bits == AddressBits + Command16Bits && Bits48 == AddressBits + Command32Bits
    ensures HeaderMark == 8 * Unit && HeaderSpace == 8 * Unit
    ensures BitMark == Unit && OneSpace == 3 * Unit && ZeroSpace == Unit
    ensures RepeatDuration == HeaderMark + HeaderSpace + BitMark + ZeroSpace + BitMark
    ensures FirstRepeatDelay == (RepeatPeriod - AverageDuration) / 1000
    ensures NextRepeatDelay == (RepeatPeriod - RepeatDuration) / 1000
    ensures RawLength == 2 * Bits + 4 && RawLength48 == 2 * Bits48 + 4
  {
  }

  /** The sender's bit timing, in sendPulseDistanceWidthData's argument order. */
  const Timing: PulseDistanceWidth := PulseDistanceWidth(BitMark, OneSpace, BitMark, ZeroSpace)

  /** The decodePulseDistanceData call of a 32-bit frame: 32 bits from rawbuf[3], least significant first. */
  const Query: DistanceQuery := DistanceQuery(Bits, 3, BitMark, OneSpace, ZeroSpace, false)
  /** The first call of a 48-bit frame: the 16 address bits from rawbuf[3]. */
  const AddressQuery: DistanceQuery := DistanceQuery(AddressBits, 3, BitMark, OneSpace, ZeroSpace, false)
  /** The second call of a 48-bit frame: 32 command bits, also from rawbuf[3]. */
  const CommandQuery: DistanceQuery := DistanceQuery(Command32Bits, 3, BitMark, OneSpace, ZeroSpace, false)

  /**
   * Both reads of a 48-bit frame start at the address cells, and the command read is the very
   * read of a 32-bit frame: it yields the address and the first 16 command bits.
   */
  lemma Frame48Reads()
    ensures AddressQuery.startOffset == CommandQuery.startOffset
    ensures CommandQuery == Query
  {
  }

  // ---------------------------------------------------------------------------
  // The sender
  // ---------------------------------------------------------------------------

  /**
   * aCommand = ((~aCommand) << 8) | aCommand, with the inversion and the shift done in int
   * and the result stored back into the uint8_t parameter: only the command's own byte is left.
   */
  lemma InvertedByteLost(command: bv8)
    ensures (((((!(command as bv32)) << 8) | command as bv32) & 0xFF) as bv8) == command
  {
  }

  /** Lines 104-105 on the uint8_t parameter: the command is stored back unchanged. */
  method StoreCommand(command: bv8) returns (sent: bv8)
    ensures sent == command
  {
    sent := command & 0xFF;
    sent := ((((!(sent as bv32)) << 8) | sent as bv32) & 0xFF) as bv8;
  }

  /** sendSamsungRepeat(): the carrier, then header, one zero cell and the closing bit mark, interrupts masked. */
  function RepeatFrame(): (frame: seq<Act>)
    ensures |frame| == 9
  {
    [EnableIROut(CarrierKHz), NoInterrupts, Mark(HeaderMark), Space(HeaderSpace),
     Mark(BitMark), Space(ZeroSpace), Mark(BitMark), Space(0), Interrupts]
  }

  /**
   * The data frame, with interrupts masked: the header, the 16 address bits, then 16 command
   * bits holding the command zero-extended, and the stop bit.
   */
  function DataFrame(address: bv16, command: bv8): (frame: seq<Act>)
    ensures |frame| == 6
  {
    [NoInterrupts, Mark(HeaderMark), Space(HeaderSpace),
     PulseDistanceData(Timing, address as nat, AddressBits, false, false),
     PulseDistanceData(Timing, command as nat, Command16Bits, false, true),
     Interrupts]
  }

  /**
   * The trace of sendSamsungStandard: a repeat request sends the repeat frame alone; otherwise
   * the carrier, the data frame, then the repeats in the 110 ms raster.
   */
  function SamsungTrace(address: bv16, command: bv8, repeats: nat, isRepeat: bool): seq<Act>
  {
    if isRepeat then RepeatFrame()
    else [EnableIROut(CarrierKHz)] + DataFrame(address, command) + Raster(RepeatFrame(), FirstRepeatDelay, NextRepeatDelay, repeats)
  }

  /** sendSamsungStandard(): the early return for a repeat, the command reassignment and the repeat loop. */
  method SendSamsungStandard(address: bv16, command: bv8, repeats: nat, isRepeat: bool) returns (trace: seq<Act>)
    requires repeats < U8
    ensures trace == SamsungTrace(address, command, repeats, isRepeat)
  {
    if isRepeat {
      trace := RepeatFrame();
      return;
    }
    var sent := StoreCommand(command);
    trace := [EnableIROut(CarrierKHz), NoInterrupts, Mark(HeaderMark), Space(HeaderSpace),
      PulseDistanceData(Timing, address as nat, AddressBits, false, false),
      PulseDistanceData(Timing, sent as nat, Command16Bits, false, true),
      Interrupts];
    ghost var pre := [EnableIROut(CarrierKHz)] + DataFrame(address, command);
    assert trace == pre;
    var i: nat := 0;
    while i < repeats
      invariant i <= repeats
      invariant trace == pre + Raster(RepeatFrame(), FirstRepeatDelay, NextRepeatDelay, i)
    {
      if i == 0 {
        trace := trace + [Delay(FirstRepeatDelay)];
      } else {
        trace := trace + [Delay(NextRepeatDelay)];
      }
      trace := trace + RepeatFrame();
      RasterStep(RepeatFrame(), FirstRepeatDelay, NextRepeatDelay, i);
      i := i + 1;
    }
  }

  /**
   * A repeat request sends one repeat frame: header mark, header space, bit mark, zero space,
   * bit mark and a closing space(0), and no data frame.
   */
  lemma RepeatRequest(address: bv16, command: bv8, repeats: nat)
    ensures var t := SamsungTrace(address, command, repeats, true);
      t[2..8] == [Mark(HeaderMark), Space(HeaderSpace), Mark(BitMark), Space(ZeroSpace), Mark(BitMark), Space(0)] &&
      forall a :: a in t ==> !a.PulseDistanceData?
  {
  }

  /** The repeat frame holds no delay. */
  lemma RepeatFrameNoDelay()
    ensures forall a :: a in RepeatFrame() ==> !a.Delay?
  {
  }

  /** The repeat frame holds one space(0), the closing one. */
  lemma RepeatFrameCloses()
    ensures multiset(RepeatFrame())[Space(0)] == 1
  {
  }

  /**
   * The repeat schedule: `repeats` repeat frames, the first 55 ms after the data frame and
   * each later one 99 ms after the one before, and no delay after the last.
   */
  lemma RepeatSchedule(repeats: nat)
    requires repeats >= 1
    ensures var raster := Raster(RepeatFrame(), FirstRepeatDelay, NextRepeatDelay, repeats);
      raster[0] == Delay(FirstRepeatDelay) &&
      multiset(raster)[Delay(FirstRepeatDelay)] == 1 &&
      multiset(raster)[Delay(NextRepeatDelay)] == repeats - 1 &&
      multiset(raster)[Space(0)] == repeats &&
      EndsWith(raster, RepeatFrame())
  {
    var frame := RepeatFrame();
    RepeatFrameNoDelay();
    RepeatFrameCloses();
    RasterDelays(frame, FirstRepeatDelay, NextRepeatDelay, repeats);
    RasterCount(frame, FirstRepeatDelay, NextRepeatDelay, repeats, Space(0));
    RasterEnds(frame, FirstRepeatDelay, NextRepeatDelay, repeats);
  }

  /** Without repeats only the carrier and the data frame are sent. */
  lemma SendNoRepeats(address: bv16, command: bv8)
    ensures SamsungTrace(address, command, 0, false) == [EnableIROut(CarrierKHz)] + DataFrame(address, command)
  {
  }

  /** The data frame masks interrupts around its header and data. */
  lemma DataFrameBalanced(address: bv16, command: bv8)
    ensures Balanced(DataFrame(address, command))
  {
    var data := DataFrame(address, command);
    assert data == [NoInterrupts] + data[1..5] + [Interrupts];
    MaskedRegionBalanced(data[1..5]);
  }

  /** The repeat frame sets up the carrier, then masks interrupts around its marks and spaces. */
  lemma RepeatFrameBalanced()
    ensures Balanced(RepeatFrame())
  {
    var repeat := RepeatFrame();
    assert repeat[1..] == [NoInterrupts] + repeat[2..8] + [Interrupts];
    MaskedRegionBalanced(repeat[2..8]);
    SingleBalanced(EnableIROut(CarrierKHz));
    assert repeat == [EnableIROut(CarrierKHz)] + repeat[1..];
    BalancedAppend([EnableIROut(CarrierKHz)], repeat[1..]);
  }

  /** The sender masks interrupts only around each frame and leaves them enabled. */
  lemma SendBalanced(address: bv16, command: bv8, repeats: nat, isRepeat: bool)
    ensures Balanced(SamsungTrace(address, command, repeats, isRepeat))
  {
    RepeatFrameBalanced();
    if !isRepeat {
      DataFrameBalanced(address, command);
      SingleBalanced(EnableIROut(CarrierKHz));
      RasterBalanced(RepeatFrame(), FirstRepeatDelay, NextRepeatDelay, repeats);
      BalancedAppend3([EnableIROut(CarrierKHz)], DataFrame(address, command), Raster(RepeatFrame(), FirstRepeatDelay, NextRepeatDelay, repeats));
    }
  }

  // ---------------------------------------------------------------------------
  // The decoder
  // ---------------------------------------------------------------------------

  /** The 8-bit command form of a 32-bit frame: the third byte is followed by its inverse. */
  predicate InvertedCommand(value: bv32)
  {
    MidHighByte(value) == !HighByte(value)
  }

  /** decodedIRData.command of a 32-bit frame: the third byte in the 8-bit form, else the high word. */
  function Command32(value: bv32): bv16
  {
    if InvertedCommand(value) then MidHighByte(value) as bv16 else HighWord(value)
  }

  /** The parity check of a 48-bit frame fails only when neither byte pair holds a byte and its inverse. */
  predicate ParityFails48(value: bv32)
  {
    HighByte(value) != !MidHighByte(value) && MidLowByte(value) != !LowByte(value)
  }

  /** decodedIRData.command of a 48-bit frame: the fourth byte of the read above the second. */
  function Command48(value: bv32): bv16
  {
    (HighByte(value) as bv16 << 8) | MidLowByte(value) as bv16
  }

  /** A failed check ORs PARITY_FAILED into the flags held before. */
  function CheckedFlags(held: bv8, fails: bool, bits: FlagBits): bv8
  {
    if fails then held | bits.parityFailed else held
  }

  /** The writes of the 32-bit branch: address, command and numberOfBits. */
  function Decoded32(d: IRData, value: bv32): IRData
  {
    d.(address := LowWord(value), command := Command32(value), numberOfBits := Bits)
  }

  /** The writes of the 48-bit branch after the address: flags, command and numberOfBits. */
  function Decoded48(d: IRData, value: bv32, bits: FlagBits): IRData
  {
    d.(flags := CheckedFlags(d.flags, ParityFails48(value), bits), command := Command48(value), numberOfBits := Bits48)
  }

  /** decodedIRData after a repeat frame: IS_REPEAT alone, and the last decoded address and command. */
  function RepeatDecoded(st: RecvState, bits: FlagBits): IRData
  {
    st.decoded.(flags := bits.isRepeat, address := st.lastDecodedAddress, command := st.lastDecodedCommand)
  }

  /**
   * decodeSamsung(): the verdict and the new receiver state. A 6-entry capture is a repeat
   * frame, 68 entries a 32-bit frame and 100 entries a 48-bit frame; every other length, and
   * each gate that fails, returns false. A 48-bit frame whose command read fails has already
   * had its address written.
   */
  function DecodeSamsungSpec(st: RecvState, m: Matchers, c: Config): (r: (bool, RecvState))
    ensures r.1.rawbuf == st.rawbuf && r.1.lastDecodedAddress == st.lastDecodedAddress
    ensures r.1.lastDecodedCommand == st.lastDecodedCommand && r.1.magnitude == st.magnitude
  {
    var raw := st.rawbuf;
    if |raw| != RawLength && |raw| != RawLength48 && |raw| != RepeatRawLength then (false, st)
    else if !m.matchMark(raw[1], HeaderMark) || !m.matchSpace(raw[2], HeaderSpace) then (false, st)
    else if |raw| == RepeatRawLength then (true, st.(decoded := RepeatDecoded(st, c.flags)))
    else if |raw| == RawLength48 then
      match m.pulseDistance(raw, AddressQuery)
      case None => (false, st)
      case Some(addressValue) =>
        var d := st.decoded.(address := LowWord(addressValue));
        match m.pulseDistance(raw, CommandQuery)
        case None => (false, st.(value := addressValue, decoded := d))
        case Some(value) => (true, st.(value := value, decoded := Decoded48(d, value, c.flags).(protocol := SAMSUNG)))
    else
      match m.pulseDistance(raw, Query)
      case None => (false, st)
      case Some(value) => (true, st.(value := value, decoded := Decoded32(st.decoded, value).(protocol := SAMSUNG)))
  }

  /** The writes of decodedIRData in the 32-bit branch. */
  method FillDecoded32(d: IRData, value: bv32) returns (d': IRData)
    ensures d' == Decoded32(d, value)
  {
    d' := d.(address := LowWord(value));
    if MidHighByte(value) == !HighByte(value) {
      d' := d'.(command := MidHighByte(value) as bv16);
    } else {
      d' := d'.(command := HighWord(value));
    }
    d' := d'.(numberOfBits := Bits);
  }

  /** The writes of decodedIRData in the 48-bit branch after the address. */
  method FillDecoded48(d: IRData, value: bv32, bits: FlagBits) returns (d': IRData)
    ensures d' == Decoded48(d, value, bits)
  {
    d' := d;
    if HighByte(value) != !MidHighByte(value) && MidLowByte(value) != !LowByte(value) {
      d' := d'.(flags := d'.flags | bits.parityFailed);
    }
    d' := d'.(command := (HighByte(value) as bv16 << 8) | MidLowByte(value) as bv16);
    d' := d'.(numberOfBits := Bits48);
  }

  /** decodeSamsung(): the length gate, the header, then the repeat, 48-bit or 32-bit frame. */
  method DecodeSamsung(r: Receiver, m: Matchers, c: Config) returns (ok: bool)
    modifies r
    ensures (ok, r.State()) == DecodeSamsungSpec(old(r.State()), m, c)
  {
    if |r.rawbuf| != RawLength && |r.rawbuf| != RawLength48 && |r.rawbuf| != RepeatRawLength {
      return false;
    }
    if !m.matchMark(r.rawbuf[1], HeaderMark) || !m.matchSpace(r.rawbuf[2], HeaderSpace) {
      return false;
    }
    if |r.rawbuf| == RepeatRawLength {
      r.decoded := r.decoded.(flags := c.flags.isRepeat);
      r.decoded := r.decoded.(address := r.lastDecodedAddress);
      r.decoded := r.decoded.(command := r.lastDecodedCommand);
      return true;
    }
    if |r.rawbuf| == RawLength48 {
      var addressRead := m.pulseDistance(r.rawbuf, AddressQuery);
      if addressRead.None? {
        return false;
      }
      r.value := addressRead.value;
      r.decoded := r.decoded.(address := LowWord(r.value));
      var commandRead := m.pulseDistance(r.rawbuf, CommandQuery);
      if commandRead.None? {
        return false;
      }
      r.value := commandRead.value;
      r.decoded := FillDecoded48(r.decoded, r.value, c.flags);
    } else {
      var read := m.pulseDistance(r.rawbuf, Query);
      if read.None? {
        return false;
      }
      r.value := read.value;
      r.decoded := FillDecoded32(r.decoded, r.value);
    }
    r.decoded := r.decoded.(protocol := SAMSUNG);
    return true;
  }

  // ---------------------------------------------------------------------------
  // Properties of the decoder
  // ---------------------------------------------------------------------------

  /**
   * The decoder accepts exactly a 6-entry repeat frame, a 68-entry frame whose read succeeds
   * or a 100-entry frame whose two reads succeed, each after a matching header.
   */
  lemma DecodeAccepts(st: RecvState, m: Matchers, c: Config)
    ensures var raw := st.rawbuf;
      DecodeSamsungSpec(st, m, c).0 <==>
        (|raw| == RepeatRawLength || |raw| == RawLength || |raw| == RawLength48) &&
        m.matchMark(raw[1], HeaderMark) && m.matchSpace(raw[2], HeaderSpace) &&
        (|raw| == RawLength ==> m.pulseDistance(raw, Query).Some?) &&
        (|raw| == RawLength48 ==> m.pulseDistance(raw, AddressQuery).Some? && m.pulseDistance(raw, CommandQuery).Some?)
  {
  }

  /**
   * A refusal leaves the receiver as it was, except for a 48-bit frame whose address read
   * succeeded and whose command read failed: its address and results.value are already written.
   */
  lemma RefusalState(st: RecvState, m: Matchers, c: Config)
    requires !DecodeSamsungSpec(st, m, c).0
    ensures var raw := st.rawbuf;
      var r := DecodeSamsungSpec(st, m, c);
      if |raw| == RawLength48 && m.matchMark(raw[1], HeaderMark) && m.matchSpace(raw[2], HeaderSpace) &&
        m.pulseDistance(raw, AddressQuery).Some?
      then
        var addressValue := m.pulseDistance(raw, AddressQuery).value;
        r.1 == st.(value := addressValue, decoded := st.decoded.(address := LowWord(addressValue)))
      else r.1 == st
  {
  }

  /**
   * An accepted repeat frame sets the flags to IS_REPEAT alone and restores the last decoded
   * address and command; protocol and numberOfBits keep what they held.
   */
  lemma RepeatRestores(st: RecvState, m: Matchers, c: Config)
    requires |st.rawbuf| == RepeatRawLength && DecodeSamsungSpec(st, m, c).0
    ensures var d := DecodeSamsungSpec(st, m, c).1.decoded;
      d.flags == c.flags.isRepeat && d.address == st.lastDecodedAddress && d.command == st.lastDecodedCommand &&
      d.protocol == st.decoded.protocol && d.numberOfBits == st.decoded.numberOfBits
  {
  }

  /** An accepted 32-bit frame: the state is the read value and the 32-bit branch's writes, with SAMSUNG. */
  lemma Frame32State(st: RecvState, m: Matchers, c: Config)
    requires |st.rawbuf| == RawLength && DecodeSamsungSpec(st, m, c).0
    ensures m.pulseDistance(st.rawbuf, Query).Some?
    ensures var value := m.pulseDistance(st.rawbuf, Query).value;
      DecodeSamsungSpec(st, m, c).1 == st.(value := value, decoded := Decoded32(st.decoded, value).(protocol := SAMSUNG))
  {
  }

  /** The command of a 32-bit frame in its 8-bit form is the third byte, in the 16-bit form the high word. */
  lemma Command32Forms(value: bv32)
    ensures InvertedCommand(value) ==> Command32(value) == MidHighByte(value) as bv16 && Command32(value) <= 0xFF
    ensures !InvertedCommand(value) ==> Command32(value) == HighWord(value)
  {
    if InvertedCommand(value) {
    } else {
    }
  }

  /**
   * An accepted 32-bit frame: the address is the low word of the value, the command is
   * the third byte when the fourth is its inverse and the high word otherwise, 32 bits,
   * SAMSUNG, and the flags are untouched.
   */
  lemma Frame32Fields(st: RecvState, m: Matchers, c: Config)
    requires |st.rawbuf| == RawLength && DecodeSamsungSpec(st, m, c).0
    ensures var d := DecodeSamsungSpec(st, m, c).1.decoded;
      var value := m.pulseDistance(st.rawbuf, Query).value;
      d.address == LowWord(value) &&
      (MidHighByte(value) == !HighByte(value) ==> d.command == MidHighByte(value) as bv16) &&
      (MidHighByte(value) != !HighByte(value) ==> d.command == HighWord(value)) &&
      d.numberOfBits == Bits && d.protocol == SAMSUNG && d.flags == st.decoded.flags
  {
    Frame32State(st, m, c);
    Command32Forms(m.pulseDistance(st.rawbuf, Query).value);
  }

  /** An accepted 48-bit frame: the state is the command read and the 48-bit branch's writes, with SAMSUNG. */
  lemma Frame48State(st: RecvState, m: Matchers, c: Config)
    requires |st.rawbuf| == RawLength48 && DecodeSamsungSpec(st, m, c).0
    ensures m.pulseDistance(st.rawbuf, AddressQuery).Some? && m.pulseDistance(st.rawbuf, CommandQuery).Some?
    ensures var addressValue := m.pulseDistance(st.rawbuf, AddressQuery).value;
      var value := m.pulseDistance(st.rawbuf, CommandQuery).value;
      DecodeSamsungSpec(st, m, c).1 ==
        st.(value := value, decoded := Decoded48(st.decoded.(address := LowWord(addressValue)), value, c.flags).(protocol := SAMSUNG))
  {
  }

  /** A failed 48-bit check ORs PARITY_FAILED in; a passed one keeps the flags. */
  lemma CheckedFlagsCases(held: bv8, fails: bool, bits: FlagBits)
    ensures CheckedFlags(held, fails, bits) == held | (if fails then bits.parityFailed else 0)
  {
    if fails {
    } else {
    }
  }

  /**
   * An accepted 48-bit frame: the address is the low word of the 16-bit read, the command
   * the fourth byte of the 32-bit read above its second, 48 bits, SAMSUNG, and PARITY_FAILED
   * is ORed in only when both byte pairs fail their inverse check.
   */
  lemma Frame48Fields(st: RecvState, m: Matchers, c: Config)
    requires |st.rawbuf| == RawLength48 && DecodeSamsungSpec(st, m, c).0
    ensures var d := DecodeSamsungSpec(st, m, c).1.decoded;
      var addressValue := m.pulseDistance(st.rawbuf, AddressQuery).value;
      var value := m.pulseDistance(st.rawbuf, CommandQuery).value;
      d.address == LowWord(addressValue) &&
      d.command == (HighByte(value) as bv16 << 8) | MidLowByte(value) as bv16 &&
      d.flags == st.decoded.flags |
        (if HighByte(value) != !MidHighByte(value) && MidLowByte(value) != !LowByte(value) then c.flags.parityFailed else 0) &&
      d.numberOfBits == Bits48 && d.protocol == SAMSUNG
  {
    Frame48State(st, m, c);
    var value := m.pulseDistance(st.rawbuf, CommandQuery).value;
    CheckedFlagsCases(st.decoded.flags, ParityFails48(value), c.flags);
  }

  /** One byte followed by its inverse is enough for a 48-bit frame's check to pass. */
  lemma OnePairPasses(b0: bv8, b1: bv8, b2: bv8, b3: bv8)
    requires b1 == !b0 || b3 == !b2
    ensures !ParityFails48(FromBytes(b0, b1, b2, b3))
  {
  }

  // ---------------------------------------------------------------------------
  // The round trip of a 32-bit frame
  // ---------------------------------------------------------------------------

  /**
   * The value a 32-bit read yields for the standard sender's frame: the address bits, then the
   * command bits, least significant first; the inverted byte is not on the wire.
   */
  function SentValue(address: bv16, command: bv8): bv32
  {
    (address as bv32) | ((command as bv32) << 16)
  }

  // One bit-vector fact per lemma: the solver handles each alone quickly, not all at once.

  lemma SentLowWord(address: bv16, command: bv8)
    ensures LowWord(SentValue(address, command)) == address
  {
  }

  lemma SentThirdByte(address: bv16, command: bv8)
    ensures MidHighByte(SentValue(address, command)) == command
  {
  }

  lemma SentFourthByte(address: bv16, command: bv8)
    ensures HighByte(SentValue(address, command)) == 0
  {
  }

  lemma SentHighWord(address: bv16, command: bv8)
    ensures HighWord(SentValue(address, command)) == command as bv16
  {
  }

  /**
   * The sent command comes back whichever form the decoder picks: for 0xFF the fourth byte, 0, is
   * its inverse, so the 8-bit form applies; every other command takes the 16-bit form, whose high
   * word is the command zero-extended.
   */
  lemma SentCommand(address: bv16, command: bv8)
    ensures Command32(SentValue(address, command)) == command as bv16
    ensures InvertedCommand(SentValue(address, command)) <==> command == 0xFF
  {
    SentThirdByte(address, command);
    SentFourthByte(address, command);
    if command == 0xFF {
      assert InvertedCommand(SentValue(address, command));
    } else {
      SentHighWord(address, command);
    }
  }

  /** Decoding the standard sender's 32-bit value: the address and the command, whichever form applies. */
  lemma UnpackSent(d: IRData, address: bv16, command: bv8)
    ensures Decoded32(d, SentValue(address, command)) == d.(address := address, command := command as bv16, numberOfBits := Bits)
  {
    SentLowWord(address, command);
    SentCommand(address, command);
  }

  /**
   * Round trip: when the 32-bit read returns the value of the standard sender's frame, the
   * decoder accepts and reports the sent address and command, SAMSUNG and 32 bits, with the
   * flags unchanged.
   */
  lemma RoundTrip(st: RecvState, m: Matchers, c: Config, address: bv16, command: bv8)
    requires |st.rawbuf| == RawLength && m.matchMark(st.rawbuf[1], HeaderMark) && m.matchSpace(st.rawbuf[2], HeaderSpace)
    requires m.pulseDistance(st.rawbuf, Query) == Some(SentValue(address, command))
    ensures var r := DecodeSamsungSpec(st, m, c);
      r.0 && r.1.value == SentValue(address, command) &&
      r.1.decoded == st.decoded.(address := address, command := command as bv16, numberOfBits := Bits, protocol := SAMSUNG)
  {
    UnpackSent(st.decoded, address, command);
  }
}
