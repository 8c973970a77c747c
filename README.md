# IRremote protocol cores in Dafny

This project models the encode and decode logic of five Arduino-IRremote protocol files:

- **Pronto Hex codec** (`src/irPronto.cpp`):
  - frequency and timebase arithmetic;
  - the `sendPronto` interpreter of "learned" data (format token, frequency code, intro and repeat pair counts, then durations in carrier periods);
  - the `strtol` tokenizer of Pronto text;
  - the `dumpPronto` serialiser that writes a capture as text.
- **MagiQuest wand protocol** (`src/ir_MagiQuest.cpp`):
  - the 50-cell sender;
  - the 102-entry decoder loop;
  - the byte-packed `magiquest_t` union.
- **Kaseikyo, LG and Samsung** (`src/ir_Kaseikyo.cpp`, `src/ir_LG.cpp`, `src/ir_Samsung.cpp`):
  - frame packing with its parity, checksum or inverted byte;
  - the repeat schedules;
  - the standard (`USE_STANDARD_DECODE`) decoders.

How the model is built:

- **Senders return a trace.** A sender's result is the sequence of hardware calls it makes (`IRSend.Act`: enableIROut, noInterrupts, interrupts, mark, space, sendRaw, delay, sendPulseDistanceWidthData). A sender with a loop is a `method` proved equal to a trace function; the straight-line MagiQuest.SendMagiQuest is that function itself. The lemmas are stated about the trace functions.
- **Decoders update a `Receiver` object.** `IRRecv.Receiver` holds `results.rawbuf`, `results.value`, `results.magnitude`, `decodedIRData` and the last decoded address and command. Each decoder is a method that modifies the receiver. Its contract says that the verdict and the new state equal a specification function of the old state.
- **Unseen helpers are parameters.** The matchers and the bit decoder whose bodies live elsewhere (`MATCH_MARK`, `MATCH_SPACE`, `decodePulseDistanceData`) are the function-valued fields of `IRRecv.Matchers`. Every decoder property holds for all of them.
- **Header constants are parameters.** `MICROS_PER_TICK`, `MARK_EXCESS_MICROS`, the `IRDATA_FLAGS_*` masks and the vendor codes are fields of `IRRecv.Config`.
- **C integer widths are explicit.** The target has a 32-bit `int` and `unsigned int`. Arithmetic is written out where it wraps on that target: `uint16_t` stores, `uint32_t` products, and the `uint8_t` frame counter.

Files, by module:

- `c_types.dfy`: powers of two and division facts.
- `wrappers.dfy`: `Option`.
- `ir_send.dfy`: trace events, interrupt balance, separated repeats and repeat rasters, bit cells.
- `ir_recv.dfy`: receiver state and the `LongUnion` views.
- `pronto_math.dfy`, `pronto_send.dfy`, `pronto_text.dfy`, `pronto_dump.dfy` and `pronto_roundtrip.dfy`: the Pronto codec.
- `magiquest.dfy`, `kaseikyo.dfy`, `lg.dfy` and `samsung.dfy`: the other protocols.

## Model

| member | source | states |
|---|---|---|
| ProntoMath.FrequencyRounds | src/irPronto.cpp:50-52 | the carrier in kHz is 4145146 / code rounded half up to a multiple of 1000 |
| ProntoMath.CommonCodeIs38KHz | src/irPronto.cpp:50-52 | frequency code 0x006D gives 38 kHz |
| ProntoMath.SendTimebase | src/irPronto.cpp:58 | the uint32_t timebase of any 16-bit frequency code is at most 1036 us |
| ProntoMath.TimebaseRounds | src/irPronto.cpp:58 | up to code 4292 nothing wraps and the timebase is 1000000 * code / 4145146 rounded half up |
| ProntoMath.SendTimebaseWraps | src/irPronto.cpp:58 | for code 4293 the uint32_t sum wraps and the timebase is 0 |
| ProntoMath.EffectiveFrequency | src/irPronto.cpp:155-157 | frequency 0 becomes 64767, any other frequency is kept |
| ProntoMath.ToTimebase | src/irPronto.cpp:159-161 | the timebase is 1000000 / frequency, truncated, stored in 16 bits |
| ProntoMath.ToFrequencyCode | src/irPronto.cpp:163-165 | the code is 4145146 / frequency, truncated, and fits 16 bits |
| ProntoMath.TimebasePositive | src/irPronto.cpp:159-161 | the timebase is never 0, so the dumper's division is defined |
| ProntoMath.FallbackValues | src/irPronto.cpp:155-165 | frequency 0 gives timebase 15 and code 64, the values of 64767 Hz |
| ProntoMath.TruncatingExamples | src/irPronto.cpp:159-165 | both helpers truncate: 36 kHz gives 27 us and 40 kHz gives code 103 |
| ProntoSend.Clamp | src/irPronto.cpp:87 | the result is the duration or 0xFFFF, whichever is smaller |
| ProntoSend.Duration | src/irPronto.cpp:86-87 | every duration is at most 0xFFFF |
| ProntoSend.DurationClamped | src/irPronto.cpp:86-87 | a duration is min(periods * timebase, 0xFFFF); the uint32_t product never wraps |
| ProntoSend.ProductFits | src/irPronto.cpp:86 | a 16-bit number times a timebase of at most 1036 fits 32 bits |
| ProntoSend.ComputeDurations | src/irPronto.cpp:84-88 | the loop fills the durations array with Durations: entry i is data[i + 4] times the timebase, clamped to 0xFFFF (DurationClamped) |
| ProntoSend.SendRepeats | src/irPronto.cpp:107-112 | n repeat sends, each but the last followed by the repeat gap |
| ProntoSend.SendSchedule | src/irPronto.cpp:94-112 | the intro without its trailing gap, then, when repeats are asked for, the intro's gap and the repeats |
| ProntoSend.SendPronto | src/irPronto.cpp:57-113 | the emitted trace is ProntoTrace, including the early returns |
| ProntoSend.TraceSchedule | src/irPronto.cpp:60-88 | with a known token and consistent sizes, the trace is the schedule of the clamped durations |
| ProntoSend.ProntoRejects | src/irPronto.cpp:60-78 | an unknown token or inconsistent sizes send and delay nothing; otherwise an intro or a repeat sends something |
| ProntoSend.ProntoCarrier | src/irPronto.cpp:59-69 | every raw send uses (4145146 / data[1] + 500) / 1000 kHz for token 0x0000 and 0 for 0x0100 |
| ProntoSend.ScheduleCarrier | src/irPronto.cpp:94-112 | every send of a schedule uses its one carrier |
| ProntoSend.ProntoIntro | src/irPronto.cpp:94-96 | with an intro, the first send is durations[0 .. intros - 1) |
| ProntoSend.ProntoOnce | src/irPronto.cpp:98-101 | without repeat durations, or with 0 repeats, at most the intro is sent |
| ProntoSend.ProntoRepeats | src/irPronto.cpp:105-112 | the intro's gap, then n repeat sends alternating with n - 1 repeat gaps, none after the last |
| ProntoSend.ScheduleRepeats | src/irPronto.cpp:105-112 | the positions of sends and delays in a schedule with repeats |
| ProntoSend.ProntoExample | src/irPronto.cpp:57-113 | one concrete 38 kHz code sent twice gives three sends separated by 0 ms delays |
| ProntoSend.SendProntoText | src/irPronto.cpp:115-131 | the text overload sends the trace of the tokenized numbers, with their count as size |
| ProntoText.SkipSpace | src/irPronto.cpp:121 | strtol's white-space skip stops at the first other character or at the end |
| ProntoText.SkipSpaceSkips | src/irPronto.cpp:121 | everything skipped is white space |
| ProntoText.DigitsEnd | src/irPronto.cpp:121 | the digit run ends at the first character that is not a hex digit, or at the end |
| ProntoText.DigitsEndReads | src/irPronto.cpp:121 | every character of the run is a hex digit |
| ProntoText.StrToL | src/irPronto.cpp:121 | a call without a digit returns 0 and leaves the end pointer where it started; values are saturated at LONG_MAX |
| ProntoText.Kept | src/irPronto.cpp:127 | every number kept is below 2^16 |
| ProntoText.KeptCount | src/irPronto.cpp:120-126 | the count stops at the first zero at index 4 or more; zeros in the preamble are kept |
| ProntoText.ParseProntoText | src/irPronto.cpp:115-129 | at most strlen / 5 + 1 numbers, each the 16-bit truncation of its strtol value, stopping at the first zero at index 4 or more |
| ProntoText.TokenStep | src/irPronto.cpp:120-129 | one loop round reads where it stands, keeps the value or stops at a zero after the preamble |
| ProntoText.ParsePronto | src/irPronto.cpp:115-129 | the buffer loop yields ParseProntoText |
| ProntoDump.HexDigit | src/irPronto.cpp:167-169 | 0..9 map to '0'..'9' and 10..15 to 'A'..'F' |
| ProntoDump.HexDigitValue | src/irPronto.cpp:167-169 | the tokenizer reads each written digit back as its value |
| ProntoDump.NumberTextDigits | src/irPronto.cpp:175-181 | a group is four upper-case hex digits |
| ProntoDump.NumberTextAt | src/irPronto.cpp:243-246 | digit k of a group is (number >> 4 * (3 - k)) & 0xF |
| ProntoDump.NumberTextValue | src/irPronto.cpp:239-250 | the four digits of a group read back as the number written |
| ProntoDump.DumpNumber | src/irPronto.cpp:239-250 | appends the four digits, most significant first, and a space; returns 5 |
| ProntoDump.DurationCode | src/irPronto.cpp:255-257 | the number written for a duration fits 16 bits |
| ProntoDump.DurationRounds | src/irPronto.cpp:183-185 | without wrapping, the number is the duration in timebase units rounded half up |
| ProntoDump.DumpDuration | src/irPronto.cpp:255-257 | appends the group of (duration + timebase / 2) / timebase; returns 5 |
| ProntoDump.Compensated | src/irPronto.cpp:264-270 | MARK_EXCESS_MICROS is added at even slice positions and subtracted at odd ones, in uint32_t |
| ProntoDump.DumpPreamble | src/irPronto.cpp:289-292 | appends the four preamble groups; returns 20 |
| ProntoDump.DumpIntervals | src/irPronto.cpp:263-272 | the uint8_t loop appends one group per interval; returns 5 per group |
| ProntoDump.DumpSequence | src/irPronto.cpp:259-278 | appends the interval groups, then the 45000 us gap group |
| ProntoDump.DumpGroups | src/irPronto.cpp:284-296 | rawlen + 4 numbers, each below 2^16 |
| ProntoDump.DumpPronto | src/irPronto.cpp:284-296 | appends the text of DumpGroups and returns its length, 5 * (rawlen + 4) |
| ProntoDump.DumpLayout | src/irPronto.cpp:210-217 | token 0000 or 0100, frequency code, (rawlen + 1) / 2, 0, then rawbuf[1..] compensated, then the gap |
| ProntoDump.RenderLength | src/irPronto.cpp:281-282 | the text has five characters per number |
| ProntoRoundTrip.GroupRead | src/irPronto.cpp:120-128 | the k-th strtol call on dumped text reads group k and stops at its space |
| ProntoRoundTrip.ValuesOfGroups | src/irPronto.cpp:120-128 | the calls return the dumped numbers in order, then 0 |
| ProntoRoundTrip.RoundTrip | src/irPronto.cpp:115-131 | dumped text of four or more groups reads back as its groups up to the first zero after the preamble |
| ProntoRoundTrip.RoundTripExact | src/irPronto.cpp:115-131 | without a zero after the preamble, the numbers read back exactly |
| ProntoRoundTrip.ShortTextGainsZero | src/irPronto.cpp:116-129 | text of fewer than four groups reads back with a 0 appended |
| ProntoRoundTrip.DumpReadsBack | src/irPronto.cpp:284-296 | parsing dumpPronto's text gives back its groups, all of them when no interval group is 0 |
| MagiQuest.CaptureShape | src/ir_MagiQuest.cpp:25-28 | a capture has 2 * 48 + 6 = 102 entries and the loop reads 50 cells |
| MagiQuest.Magnitude | src/ir_MagiQuest.cpp:15-23 | the magnitude field is the low 16 bits of the word |
| MagiQuest.WandId | src/ir_MagiQuest.cpp:15-23 | the wand id field is the next 32 bits |
| MagiQuest.UnpackPack | src/ir_MagiQuest.cpp:15-23 | reading the union back gives the two fields written into it |
| MagiQuest.HighBitsIgnored | src/ir_MagiQuest.cpp:15-23 | bits 48 and up (padding and scrap) reach neither field |
| MagiQuest.SendMagiQuest | src/ir_MagiQuest.cpp:49-81 | the sender's trace has six events and opens with the 38 kHz carrier |
| MagiQuest.SendBalanced | src/ir_MagiQuest.cpp:59-80 | interrupts are masked once and enabled again at the end |
| MagiQuest.SentBits | src/ir_MagiQuest.cpp:61-68 | 50 bits are on the wire |
| MagiQuest.SendCells | src/ir_MagiQuest.cpp:61-68 | one cell per bit: two 0 start bits, 32 wand id bits and 16 magnitude bits, most significant first |
| MagiQuest.SentBitsValue | src/ir_MagiQuest.cpp:61-68 | read most significant first, the bits sent are the packed word; the start bits add nothing |
| MagiQuest.FromMsbBits | src/ir_MagiQuest.cpp:62-68 | n bits sent most significant first read back as x mod 2^n |
| MagiQuest.CellTimings | src/ir_MagiQuest.cpp:38-43 | both cells last 1152 us; their space / mark ratios are 1 and 3 |
| MagiQuest.ReachesAll | src/ir_MagiQuest.cpp:105-135 | the loop reads cell i exactly when every cell before it passes the period match |
| MagiQuest.Accumulate | src/ir_MagiQuest.cpp:105-135 | the loop gets through k cells exactly when each of them matches the period |
| MagiQuest.WordFits | src/ir_MagiQuest.cpp:121-127 | 50 shifted bits never wrap the uint64_t accumulator |
| MagiQuest.AccumulateValue | src/ir_MagiQuest.cpp:104-131 | the accumulated word is the cell bits read most significant first |
| MagiQuest.AccumulateStep | src/ir_MagiQuest.cpp:106-131 | one round: the period match decides, then a 0 is shifted in when space / mark > 1 and a 1 otherwise |
| MagiQuest.FailureStays | src/ir_MagiQuest.cpp:132-135 | a failed cell makes the whole loop fail |
| MagiQuest.ReadCells | src/ir_MagiQuest.cpp:104-136 | the while loop succeeds exactly when Accumulate does, with its word, and stops at offset 101 |
| MagiQuest.Decoded | src/ir_MagiQuest.cpp:142-146 | a successful decode leaves the capture as it was |
| MagiQuest.DecodeMagiQuest | src/ir_MagiQuest.cpp:85-149 | verdict and new state are DecodeMagiQuestSpec of the old state |
| MagiQuest.DecodeAccepts | src/ir_MagiQuest.cpp:98-136 | accepts exactly the 102-entry captures whose 50 cells all match; a refusal changes nothing |
| MagiQuest.EarlyFailure | src/ir_MagiQuest.cpp:105-135 | a capture whose first cell fails the period match is refused, whatever the marks after it, zero ones included |
| MagiQuest.DecodeResult | src/ir_MagiQuest.cpp:141-146 | on success numberOfBits is 50, flags IS_OLD_DECODER, value the wand id bits and magnitude the last 16 bits |
| MagiQuest.FieldsOfWord | src/ir_MagiQuest.cpp:144-145 | of 50 shifted bits, bits 2-33 are the wand id and 34-49 the magnitude |
| MagiQuest.EndsNotRead | src/ir_MagiQuest.cpp:105-107 | rawbuf[0] and rawbuf[101] do not affect the result |
| MagiQuest.CellTicks | src/ir_MagiQuest.cpp:108-131 | counted in ticks of at most 288 us, both marks are nonzero and the space / mark rule reads a 1 cell as 1 and a 0 cell as 0 |
| MagiQuest.CapturedBits | src/ir_MagiQuest.cpp:108-131 | a capture, in ticks, of cells sent with the MagiQuest timings reads back bit for bit |
| MagiQuest.CapturedMatch | src/ir_MagiQuest.cpp:118 | each such cell passes the period match when MATCH_MARK accepts the tick sums of a 1 cell and a 0 cell for 1150 us |
| MagiQuest.RoundTrip | src/ir_MagiQuest.cpp:49-149 | the sender's cells, captured in ticks of MICROS_PER_TICK between any gap and trailing entry, decode to the wand id and magnitude sent |
| Kaseikyo.FrameShape | src/ir_Kaseikyo.cpp:57-74 | the timing constants and the 48-bit frame size are the source's expressions |
| Kaseikyo.VendorParity | src/ir_Kaseikyo.cpp:101-102 | the vendor parity is a 4-bit value |
| Kaseikyo.VendorParityNibbles | src/ir_Kaseikyo.cpp:175-176 | the vendor parity is the XOR of the four nibbles of the vendor id |
| Kaseikyo.PackLayout | src/ir_Kaseikyo.cpp:104-108 | parity in bits 0-3, (address << 4) mod 2^16 in bits 4-15, command in 16-23, XOR of the lower bytes in 24-31 |
| Kaseikyo.Frame | src/ir_Kaseikyo.cpp:91-114 | a frame is six events: masking, header, vendor id, word, unmasking |
| Kaseikyo.FrameCount | src/ir_Kaseikyo.cpp:88 | the frame count fits a uint8_t |
| Kaseikyo.SendKaseikyoStandard | src/ir_Kaseikyo.cpp:84-123 | the countdown loop emits KaseikyoTrace |
| Kaseikyo.SendPanasonicStandard | src/ir_Kaseikyo.cpp:125-127 | the Kaseikyo frames with the Panasonic vendor code |
| Kaseikyo.FrameCountWraps | src/ir_Kaseikyo.cpp:88 | repeats + 1 frames, except that 255 repeats wrap to none |
| Kaseikyo.SendNothing | src/ir_Kaseikyo.cpp:86-89 | with 255 repeats only the carrier is set up |
| Kaseikyo.SendSchedule | src/ir_Kaseikyo.cpp:116-121 | the trace opens with the carrier and ends with a frame, not a delay |
| Kaseikyo.SendCounts | src/ir_Kaseikyo.cpp:88-122 | FrameCount headers and one fewer 74 ms delays |
| Kaseikyo.SendBalanced | src/ir_Kaseikyo.cpp:91-114 | interrupts are masked around each frame only |
| Kaseikyo.IsCodePromoted | src/ir_Kaseikyo.cpp:160-168 | a match is the 32-bit results.value equal to the promoted 16-bit code |
| Kaseikyo.VendorMapping | src/ir_Kaseikyo.cpp:159-172 | each known code selects its protocol, the first listed winning; anything else, or a value above 16 bits, is KASEIKYO |
| Kaseikyo.DecodedFrame | src/ir_Kaseikyo.cpp:186-228 | command is bits 16-23 of the word, 48 bits, the vendor's protocol |
| Kaseikyo.ComposeAddress | src/ir_Kaseikyo.cpp:188-206 | the two address writes give FrameAddress |
| Kaseikyo.CheckFrame | src/ir_Kaseikyo.cpp:192-224 | the two parity checks and the repeat test give FrameFlags |
| Kaseikyo.FillDecoded | src/ir_Kaseikyo.cpp:186-228 | the writes give DecodedFrame |
| Kaseikyo.DecodeKaseikyo | src/ir_Kaseikyo.cpp:132-231 | verdict and new state are DecodeKaseikyoSpec of the old state |
| Kaseikyo.DecodeAccepts | src/ir_Kaseikyo.cpp:136-185 | accepts exactly a 100-entry capture with a matching header and two successful reads; a refusal leaves decodedIRData |
| Kaseikyo.FrameState | src/ir_Kaseikyo.cpp:186-231 | an accepted capture leaves the word in results.value and the decoded frame in decodedIRData |
| Kaseikyo.DecodedAddress | src/ir_Kaseikyo.cpp:188-206 | address bits 0-11 are word bits 4-15; bits 12-15 hold the vendor's low nibble only for KASEIKYO |
| Kaseikyo.DecodedAddressLow | src/ir_Kaseikyo.cpp:188 | address bits 0-11 are word bits 4-15 |
| Kaseikyo.DecodedAddressHigh | src/ir_Kaseikyo.cpp:203-206 | address bits 12-15 are the vendor's low nibble for KASEIKYO, else 0 |
| Kaseikyo.DecodedFlags | src/ir_Kaseikyo.cpp:192-224 | a failed check assigns PARITY_FAILED alone, a pass keeps the flags; IS_REPEAT is ORed in for a short gap |
| Kaseikyo.AddressFields | src/ir_Kaseikyo.cpp:188-206 | the fields of FrameAddress |
| Kaseikyo.FlagsWhenChecksPass | src/ir_Kaseikyo.cpp:192-224 | with both checks passed the held flags are kept |
| Kaseikyo.SentChecksPass | src/ir_Kaseikyo.cpp:101-108 | neither parity check fires on a word the sender built |
| Kaseikyo.SentAddress | src/ir_Kaseikyo.cpp:105 | the address read back from a sent word is the sent address to 12 bits |
| Kaseikyo.UnpackSent | src/ir_Kaseikyo.cpp:186-219 | decoding the sender's word gives the 12-bit address, the command and the held flags |
| Kaseikyo.RoundTrip | src/ir_Kaseikyo.cpp:84-231 | when the reads return the sent vendor id and word, the decoder accepts and reports SentFrame |
| Kaseikyo.RoundTripAddress | src/ir_Kaseikyo.cpp:203-206 | whatever the protocol, address bits 0-11 come back |
| LG.FrameShape | src/ir_LG.cpp:43-60 | the timing constants, 28 bits, rawlen 60 and the 52/98 ms repeat delays are the source's expressions |
| LG.Checksum | src/ir_LG.cpp:95-100 | the nibble sum is at most 60 |
| LG.NibbleSumBound | src/ir_LG.cpp:97-100 | each nibble adds at most 15 |
| LG.ChecksumByteFits | src/ir_LG.cpp:95-101 | the checksum fits 4 bits exactly when the nibble sum is at most 15 |
| LG.NibbleLoop | src/ir_LG.cpp:95-100 | the loop computes the sum of the four nibbles, never wrapping the uint8_t |
| LG.ComputeChecksum | src/ir_LG.cpp:181-186 | the decoder's loop computes the same checksum |
| LG.PackAddress | src/ir_LG.cpp:90 | value >> 20 is the address |
| LG.PackCommand | src/ir_LG.cpp:175 | with a 4-bit checksum, (value >> 4) & 0xFFFF is the command |
| LG.PackChecksum | src/ir_LG.cpp:101 | a 4-bit checksum is the low nibble of the word |
| LG.PackSpill | src/ir_LG.cpp:90-101 | bits 4-7 of a wider checksum are ORed into the command's low nibble |
| LG.PackLowNibble | src/ir_LG.cpp:101 | the low nibble of the word is the checksum's low nibble |
| LG.DataFrame | src/ir_LG.cpp:85-106 | the data frame is five events |
| LG.RepeatFrame | src/ir_LG.cpp:67-75 | the repeat frame is seven events |
| LG.SendLGStandard | src/ir_LG.cpp:81-118 | the checksum loop and the repeat loop emit LGTrace |
| LG.RepeatSchedule | src/ir_LG.cpp:108-117 | n repeat frames, the first after 52 ms and the rest after 98 ms, no delay after the last |
| LG.RepeatFrameNoDelay | src/ir_LG.cpp:67-75 | the repeat frame holds no delay |
| LG.RepeatFrameHeader | src/ir_LG.cpp:71 | the repeat frame holds one 2240 us header space |
| LG.SendNoRepeats | src/ir_LG.cpp:81-106 | without repeats only the carrier and the data frame are sent |
| LG.DataFrameBalanced | src/ir_LG.cpp:85-106 | the data frame masks interrupts around header and data |
| LG.RepeatFrameBalanced | src/ir_LG.cpp:68-74 | the repeat frame masks interrupts around its marks and spaces |
| LG.SendBalanced | src/ir_LG.cpp:81-118 | the sender leaves interrupts enabled |
| LG.DecodedFrame | src/ir_LG.cpp:199-200 | an accepted data frame sets protocol LG and 28 bits |
| LG.DecodeLGSpec | src/ir_LG.cpp:130-203 | no decoder path touches the capture or the last decoded values |
| LG.FillDecoded | src/ir_LG.cpp:174-200 | the writes after a data frame give DecodedFrame |
| LG.DecodeLG | src/ir_LG.cpp:130-203 | verdict and new state are DecodeLGSpec of the old state |
| LG.DecodeAccepts | src/ir_LG.cpp:133-172 | accepts exactly a matching 4-entry repeat frame or a matching 60-entry data frame; a refusal leaves decodedIRData |
| LG.RepeatRestores | src/ir_LG.cpp:144-152 | a repeat sets flags to IS_REPEAT and restores the last address and command |
| LG.CheckedFlagsCases | src/ir_LG.cpp:188-197 | a checksum failure ORs PARITY_FAILED in, a pass keeps the flags |
| LG.DataFrameState | src/ir_LG.cpp:161-200 | an accepted data frame leaves the read value and the decoded frame |
| LG.DataFrameFields | src/ir_LG.cpp:174-200 | command is (value >> 4) & 0xFFFF, address value >> 20, and a mismatch ORs PARITY_FAILED in, still returning true |
| LG.SentChecksumPasses | src/ir_LG.cpp:175-188 | a sent word whose nibble sum fits 4 bits passes and returns the command |
| LG.WideChecksumLost | src/ir_LG.cpp:101 | a checksum above 15 is never the word's low nibble |
| LG.SentChecksumFails | src/ir_LG.cpp:90-101 | when the nibble sum exceeds 15 the decoder does not report the sent command with a passing checksum |
| LG.SentChecksumIff | src/ir_LG.cpp:90-188 | the sent command returns with a passing checksum exactly when the nibble sum is at most 15 |
| LG.SpillSums | src/ir_LG.cpp:95-100 | the nibble sums of 0x0088 and 0x0089 are 16 and 17 |
| LG.ChecksumSpills | src/ir_LG.cpp:90-101 | command 0x0088 comes back as 0x0089 with a failing checksum |
| LG.UnpackSent | src/ir_LG.cpp:174-200 | decoding the sent word gives the address, the command, LG and 28 bits, with the flags kept |
| LG.RoundTrip | src/ir_LG.cpp:81-203 | when the read returns the sent word, the decoder accepts and reports the sent address and command |
| Samsung.FrameShape | src/ir_Samsung.cpp:48-63 | the timing constants, 32/48 bits, rawlen 68/100 and the 55/99 ms repeat delays are the source's expressions |
| Samsung.Frame48Reads | src/ir_Samsung.cpp:152-160 | both 48-bit reads start at offset 3; the command read is the 32-bit read |
| Samsung.InvertedByteLost | src/ir_Samsung.cpp:104-105 | storing ((~c) << 8) \| c into the uint8_t leaves c |
| Samsung.StoreCommand | src/ir_Samsung.cpp:104-105 | the reassigned command is the command |
| Samsung.RepeatFrame | src/ir_Samsung.cpp:70-80 | the repeat frame is nine events |
| Samsung.DataFrame | src/ir_Samsung.cpp:91-110 | the data frame is six events |
| Samsung.SendSamsungStandard | src/ir_Samsung.cpp:82-122 | the early return, the command store and the repeat loop emit SamsungTrace |
| Samsung.RepeatRequest | src/ir_Samsung.cpp:83-86 | aIsRepeat sends only the repeat frame's marks and spaces, no data |
| Samsung.RepeatFrameNoDelay | src/ir_Samsung.cpp:70-80 | the repeat frame holds no delay |
| Samsung.RepeatFrameCloses | src/ir_Samsung.cpp:78 | the repeat frame holds one space(0) |
| Samsung.RepeatSchedule | src/ir_Samsung.cpp:112-121 | n repeat frames, the first after 55 ms and the rest after 99 ms, no delay after the last |
| Samsung.SendNoRepeats | src/ir_Samsung.cpp:88-110 | without repeats only the carrier and the data frame are sent |
| Samsung.DataFrameBalanced | src/ir_Samsung.cpp:91-110 | the data frame masks interrupts around header and data |
| Samsung.RepeatFrameBalanced | src/ir_Samsung.cpp:71-79 | the repeat frame masks interrupts around its marks and spaces |
| Samsung.SendBalanced | src/ir_Samsung.cpp:82-122 | the sender leaves interrupts enabled |
| Samsung.DecodeSamsungSpec | src/ir_Samsung.cpp:127-198 | no decoder path touches the capture or the last decoded values |
| Samsung.FillDecoded32 | src/ir_Samsung.cpp:181-192 | the 32-bit writes give Decoded32 |
| Samsung.FillDecoded48 | src/ir_Samsung.cpp:165-173 | the 48-bit writes give Decoded48 |
| Samsung.DecodeSamsung | src/ir_Samsung.cpp:127-198 | verdict and new state are DecodeSamsungSpec of the old state |
| Samsung.DecodeAccepts | src/ir_Samsung.cpp:130-180 | accepts exactly a 6-entry repeat, a 68-entry frame read in full or a 100-entry frame with both reads, after a matching header |
| Samsung.RefusalState | src/ir_Samsung.cpp:150-164 | a refusal changes nothing, except that a 48-bit frame whose command read fails keeps the address written |
| Samsung.RepeatRestores | src/ir_Samsung.cpp:143-148 | a repeat sets flags to IS_REPEAT and restores the last address and command |
| Samsung.Frame32State | src/ir_Samsung.cpp:176-195 | an accepted 32-bit frame leaves the read value and the 32-bit writes |
| Samsung.Command32Forms | src/ir_Samsung.cpp:185-191 | the command is byte 2 when byte 2 is ~byte 3, else the high word |
| Samsung.Frame32Fields | src/ir_Samsung.cpp:176-195 | address the low word, command by its form, 32 bits, SAMSUNG, flags untouched |
| Samsung.Frame48State | src/ir_Samsung.cpp:150-195 | an accepted 48-bit frame leaves the command read and the 48-bit writes |
| Samsung.CheckedFlagsCases | src/ir_Samsung.cpp:168-171 | a failed check ORs PARITY_FAILED in, a pass keeps the flags |
| Samsung.Frame48Fields | src/ir_Samsung.cpp:150-195 | command is byte 3 << 8 \| byte 1, PARITY_FAILED only when both byte pairs fail, 48 bits |
| Samsung.OnePairPasses | src/ir_Samsung.cpp:168-169 | one byte pair holding a byte and its inverse passes the 48-bit check |
| Samsung.SentCommand | src/ir_Samsung.cpp:183-191 | the sent command comes back in both forms; the 8-bit form applies exactly for 0xFF |
| Samsung.UnpackSent | src/ir_Samsung.cpp:98-108 | decoding address \| command << 16 gives the address and the command |
| Samsung.RoundTrip | src/ir_Samsung.cpp:82-198 | when the 32-bit read returns the sent value, the decoder accepts and reports the sent address and command |

## Left out

- Hardware primitives are trace events. The model does not capture timing, carrier generation or interrupt state beyond the order of the calls.
- sendPulseDistanceWidthData is outside this model. Its cells are derived only for MagiQuest (`IRSend.TracePairs`), from the argument order of its call sites.
- MATCH_MARK, MATCH_SPACE and decodePulseDistanceData are outside this model, so their tolerances and bit reading are abstract.
  - The LG, Samsung and Kaseikyo round trips therefore assume that the read returns the word that was sent.
  - A failed read is assumed to leave results.value unchanged.
- The header constants (MICROS_PER_TICK, MARK_EXCESS_MICROS, IRDATA_FLAGS_*, the vendor codes) are parameters, because the header is not part of this model.
- decodedIRData.address and decodedIRData.command are taken as uint16_t. The Kaseikyo vendor OR therefore keeps only the vendor's low nibble.
- The Print variants of dumpDigit, dumpNumber, dumpDuration, dumpSequence and dumpPronto (src/irPronto.cpp:171-217) are not modelled separately. They write the same characters as the String variants, which are modelled as text appended to a string. The String::concat count is taken as always successful.
- printIRResultAsPronto and its banner text are left out: they are console output.
- The AVR flash-string wrappers of sendPronto (src/irPronto.cpp:133-153) are left out: they only copy the text into RAM.
- All debug output is left out, including the MagiQuest bit string.
- decodeMagiQuest(decode_results *) is left out: it only copies results into the caller's record.
- The legacy (`#else`) decoders and the raw sendLG, sendSamsung and sendPanasonic senders are left out. They are thin calls into helpers outside this model.
- ProntoText.StrToL: a sign or a "0x" prefix is read as a non-digit, not as strtol reads it. LONG_MAX is a parameter.
- ProntoSend.SendPronto: requires a nonzero frequency code for token 0x0000 (toFrequencyKHz divides by it). It also requires an intro whenever repeats are sent, because durations[intros - 1] is otherwise out of bounds. The repeat count is a uint8_t.
- ProntoSend.SendProntoText: requires at least 15 characters, so that four numbers can be read, and the same conditions on the numbers read.
- ProntoDump.DumpPronto: requires 1 <= rawlen <= 256. rawlen 0 underflows, and the uint8_t loop counter of dumpSequence never ends for 256 or more intervals.
- MagiQuest.DecodeMagiQuest: requires the mark of every cell the loop reads to be nonzero, because space / mark comes before the period match and is undefined for a zero mark. Marks after the first failing cell may be anything. So that the specification functions are total, MagiQuest.CellBit reads a cell with a zero mark as a 1; the decoder method never reaches such a cell.
- magiquest_t is taken with AVR's layout, without padding: magnitude in bytes 0-1 and wand_id in bytes 2-5. This is the one place where the model departs from the 32-bit target, on which the compiler would align wand_id to bytes 4-7.
- MagiQuest.RoundTrip: the capture stores each mark and space as the whole ticks it spans, duration / MICROS_PER_TICK rounded down. Interrupt jitter is not modelled. The lemma holds for a MICROS_PER_TICK of at most 288 us (the library's is 50), provided MATCH_MARK accepts the tick sums of a 1 cell and a 0 cell for the 1150 us period.
- MagiQuest.SendMagiQuest, Kaseikyo.Frame and Samsung.DataFrame: the start-bit and wand-id calls of sendMagiQuest (src/ir_MagiQuest.cpp:62, 65-66), the vendor-id call of sendKaseikyo (src/ir_Kaseikyo.cpp:97-98) and the address call of sendSamsung (src/ir_Samsung.cpp:98-99) omit the stopBit argument. Its default is in the library header, which is not part of this model, and is taken as false. A true default would add two extra marks inside the 102-entry MagiQuest capture, and one each inside the 100-entry Kaseikyo capture and the 68-entry Samsung capture.
- LG.SendLGStandard: `aCommand << 4` is computed in a 32-bit int. On AVR the 16-bit int would drop the command's top nibble.
- LG.RoundTrip: holds only for commands whose nibble sum is at most 15. LG.SentChecksumFails shows that no other command round trips with a passing checksum.
- Samsung.RoundTrip: stated for the 32-bit frame only. The standard sender never emits a 48-bit frame.
- Kaseikyo: a frame whose checks pass does not clear the flags held before. The header space is tested with MATCH_MARK. Both are modelled as written.
- The 48-bit Samsung frame reads the address and the command from the same offset, and the sender transmits the inverted command byte as zeros. Both are modelled as written.
