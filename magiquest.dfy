/**
 * The MagiQuest wand protocol: 48 data bits (a 32-bit wand id and a 16-bit swing
 * magnitude) after two start bits, every bit one (mark, space) cell of about 1150 us.
 * The decoder shifts the cells into a 64-bit word that it reads through the byte-packed
 * little-endian union magiquest_t: magnitude in bits 0-15, wand_id in bits 16-47.
 */
module MagiQuest {
  import opened CTypes
  import opened Wrappers
  import opened IRSend
  import opened IRRecv

  const MagnitudeBits: nat := 16
  const WandIdBits: nat := 32
  const DataBits: nat := MagnitudeBits + WandIdBits
  const Period: nat := 1150
  const Unit: nat := 288
  const OneMark: nat := 2 * Unit
  const OneSpace: nat := 2 * Unit
  const ZeroMark: nat := Unit
  const ZeroSpace: nat := 3 * Unit
  const CarrierKHz: nat := 38

  /** results.rawlen of a MagiQuest capture: 2 * 48 + 6, the gap, 50 cells and a trailing mark. */
  const RawLength: nat := 102

  /** The (mark, space) cells the decoder reads, rawbuf[1 .. 100]: the 48 data bits and 2 start bits. */
  const Cells: nat := 50

  /** The literals above are the source's expressions evaluated. */
  lemma CaptureShape()
    ensures RawLength == 2 * DataBits + 6 && Cells == (RawLength - 1) / 2 && Cells == DataBits + 2
  {
  }

  const Timing: PulseDistanceWidth := PulseDistanceWidth(OneMark, OneSpace, ZeroMark, ZeroSpace)

  // ---------------------------------------------------------------------------
  // The magiquest_t union
  // ---------------------------------------------------------------------------

  /** data.cmd.magnitude: the low two bytes of the 64-bit word. */
  function Magnitude(llword: nat): (magnitude: nat)
    ensures magnitude < U16
  {
    llword % U16
  }

  /** data.cmd.wand_id: the four bytes after the magnitude. */
  function WandId(llword: nat): (wandId: nat)
    ensures wandId < U32
  {
    llword / U16 % U32
  }

  /** The 48-bit word wand_id:magnitude, as the union would hold it with zero padding. */
  function Pack(wandId: nat, magnitude: nat): (llword: nat)
    requires wandId < U32 && magnitude < U16
    ensures llword < U16 * U32
  {
    wandId * U16 + magnitude
  }

  /** Reading the union back gives the two fields written into it. */
  lemma UnpackPack(wandId: nat, magnitude: nat)
    requires wandId < U32 && magnitude < U16
    ensures WandId(Pack(wandId, magnitude)) == wandId
    ensures Magnitude(Pack(wandId, magnitude)) == magnitude
  {
    DivModUnique(Pack(wandId, magnitude), U16, wandId, magnitude);
  }

  /** Only bits 0-47 reach a field: bits 48 and up, where the start bits land, are padding and scrap. */
  lemma HighBitsIgnored(high: nat, low: nat)
    requires low < U16 * U32
    ensures WandId(high * (U16 * U32) + low) == WandId(low)
    ensures Magnitude(high * (U16 * U32) + low) == Magnitude(low)
  {
    var x := high * (U16 * U32) + low;
    assert x == (high * U32 * U16) + low;
    DivModUnique(x, U16, high * U32 + low / U16, low % U16);
    DivModUnique(low, U16, low / U16, low % U16);
    assert low / U16 < U32;
    DivModUnique(high * U32 + low / U16, U32, high, low / U16);
  }

  // ---------------------------------------------------------------------------
  // Bits as numbers
  // ---------------------------------------------------------------------------

  /** The number whose binary digits, most significant first, are `bits`. */
  function FromMsb(bits: seq<bool>): (x: nat)
    decreases |bits|
  {
    if bits == [] then 0 else 2 * FromMsb(bits[..|bits| - 1]) + (if bits[|bits| - 1] then 1 else 0)
  }

  lemma {:induction false} FromMsbBound(bits: seq<bool>)
    ensures FromMsb(bits) < Pow2(|bits|)
    decreases |bits|
  {
    if bits != [] {
      FromMsbBound(bits[..|bits| - 1]);
    }
  }

  /** Shifting `b` in after `a`. */
  lemma {:induction false} FromMsbAppend(a: seq<bool>, b: seq<bool>)
    ensures FromMsb(a + b) == FromMsb(a) * Pow2(|b|) + FromMsb(b)
    decreases |b|
  {
    if b == [] {
      assert a + b == a;
    } else {
      var b' := b[..|b| - 1];
      assert (a + b)[..|a + b| - 1] == a + b';
      assert (a + b)[|a + b| - 1] == b[|b| - 1];
      FromMsbAppend(a, b');
      var bit := if b[|b| - 1] then 1 else 0;
      ShiftIn(FromMsb(a), FromMsb(b'), Pow2(|b'|), bit);
    }
  }

  lemma ShiftIn(high: nat, low: nat, p: nat, bit: nat)
    ensures 2 * (high * p + low) + bit == high * (2 * p) + (2 * low + bit)
  {
  }

  /** Reading back the low `n` bits of `x` sent most significant first. */
  lemma {:induction false} FromMsbBits(x: nat, n: nat)
    ensures FromMsb(MsbBits(x, n)) == x % Pow2(n)
  {
    if n > 0 {
      var bits := MsbBits(x, n);
      assert bits[..n - 1] == MsbBits(x / 2, n - 1);
      FromMsbBits(x / 2, n - 1);
      assert bits[n - 1] == (x % 2 == 1);
      HalveRemainder(x, Pow2(n - 1));
    }
  }

  /** The remainder by 2p is twice the remainder of the half by p, plus the low bit. */
  lemma HalveRemainder(x: nat, p: nat)
    requires p > 0
    ensures x % (2 * p) == 2 * ((x / 2) % p) + x % 2
  {
    var q, r := (x / 2) / p, (x / 2) % p;
    assert x / 2 == q * p + r;
    assert x == q * (2 * p) + (2 * r + x % 2);
    DivModUnique(x, 2 * p, q, 2 * r + x % 2);
  }

  // ---------------------------------------------------------------------------
  // sendMagiQuest
  // ---------------------------------------------------------------------------

  /**
   * sendMagiQuest(wand_id, magnitude): at 38 kHz with interrupts masked, two 0 start bits,
   * the 32 bits of the wand id and the 16 bits of the magnitude, most significant first;
   * only the last call adds the stop bit.
   */
  function SendMagiQuest(wandId: nat, magnitude: nat): (trace: seq<Act>)
    requires wandId < U32 && magnitude < U16
    ensures |trace| == 6 && trace[0] == EnableIROut(CarrierKHz)
  {
    [EnableIROut(CarrierKHz),
     NoInterrupts,
     PulseDistanceData(Timing, 0, 2, true, false),
     PulseDistanceData(Timing, wandId, WandIdBits, true, false),
     PulseDistanceData(Timing, magnitude, MagnitudeBits, true, true),
     Interrupts]
  }

  /** The sender masks interrupts once and enables them again at the end. */
  lemma SendBalanced(wandId: nat, magnitude: nat)
    requires wandId < U32 && magnitude < U16
    ensures Balanced(SendMagiQuest(wandId, magnitude))
  {
    var t := SendMagiQuest(wandId, magnitude);
    assert t[1..][1..] == t[2..] && t[2..][1..] == t[3..] && t[3..][1..] == t[4..];
    assert t[4..][1..] == t[5..] && t[5..][1..] == [];
    assert WellNested(t[5..], true) && !MaskAfter(t[5..], true);
    assert WellNested(t[4..], true) && !MaskAfter(t[4..], true);
    assert WellNested(t[3..], true) && !MaskAfter(t[3..], true);
    assert WellNested(t[2..], true) && !MaskAfter(t[2..], true);
    assert WellNested(t[1..], false) && !MaskAfter(t[1..], false);
  }

  /** The bits on the wire: two 0 start bits, then the 48-bit word wand_id:magnitude. */
  function SentBits(wandId: nat, magnitude: nat): (bits: seq<bool>)
    requires wandId < U32 && magnitude < U16
    ensures |bits| == Cells
  {
    MsbBits(0, 2) + MsbBits(wandId, WandIdBits) + MsbBits(magnitude, MagnitudeBits)
  }

  /** The sender emits one cell per bit of SentBits, in order. */
  lemma SendCells(wandId: nat, magnitude: nat)
    requires wandId < U32 && magnitude < U16
    ensures TracePairs(SendMagiQuest(wandId, magnitude)) == Pairs(Timing, SentBits(wandId, magnitude))
  {
    var t := SendMagiQuest(wandId, magnitude);
    var a := MsbBits(0, 2);
    var w := MsbBits(wandId, WandIdBits);
    var g := MsbBits(magnitude, MagnitudeBits);
    var pa, pw, pg := Pairs(Timing, a), Pairs(Timing, w), Pairs(Timing, g);
    assert TracePairs(t[4..]) == pg by {
      assert t[4..][1..] == t[5..] && t[5..][1..] == [];
      assert TracePairs(t[5..]) == [];
    }
    assert TracePairs(t[3..]) == pw + pg by {
      assert t[3..][1..] == t[4..];
    }
    assert TracePairs(t[2..]) == pa + (pw + pg) by {
      assert t[2..][1..] == t[3..];
    }
    assert TracePairs(t) == TracePairs(t[2..]) by {
      assert t[1..][1..] == t[2..];
    }
    assert pa + (pw + pg) == Pairs(Timing, a + w + g);
  }

  /** Read most significant first, the bits sent are the packed word: the start bits add nothing. */
  lemma SentBitsValue(wandId: nat, magnitude: nat)
    requires wandId < U32 && magnitude < U16
    ensures FromMsb(SentBits(wandId, magnitude)) == Pack(wandId, magnitude)
  {
    Pow2Of32();
    Pow2Of16();
    FieldBits(0, 2);
    FieldBits(wandId, WandIdBits);
    FieldBits(magnitude, MagnitudeBits);
    FromMsbThree(MsbBits(0, 2), MsbBits(wandId, WandIdBits), MsbBits(magnitude, MagnitudeBits), U32, U16);
  }

  /** Three fields shifted in one after the other. */
  lemma FromMsbThree(start: seq<bool>, wand: seq<bool>, mag: seq<bool>, p: nat, q: nat)
    requires Pow2(|wand|) == p && Pow2(|mag|) == q
    ensures FromMsb(start + wand + mag) == (FromMsb(start) * p + FromMsb(wand)) * q + FromMsb(mag)
  {
    FromMsbAppend(start + wand, mag);
    FromMsbAppend(start, wand);
  }

  /** A field narrower than its width reads back unchanged. */
  lemma FieldBits(x: nat, n: nat)
    requires x < Pow2(n)
    ensures FromMsb(MsbBits(x, n)) == x
  {
    FromMsbBits(x, n);
  }

  // ---------------------------------------------------------------------------
  // decodeMagiQuest
  // ---------------------------------------------------------------------------

  /** Whether the cells before cell `i` pass the period match one after the other, so that the loop reads cell `i`. */
  predicate Reaches(rawbuf: seq<nat>, m: Matchers, i: nat)
    requires |rawbuf| == RawLength && i <= Cells
    decreases i
  {
    i == 0 || (Reaches(rawbuf, m, i - 1) && CellMatches(rawbuf, m, i - 1))
  }

  /** The loop reads cell `i` exactly when every cell before it passes the period match. */
  lemma {:induction false} ReachesAll(rawbuf: seq<nat>, m: Matchers, i: nat)
    requires |rawbuf| == RawLength && i <= Cells
    ensures Reaches(rawbuf, m, i) <==> forall j :: 0 <= j < i ==> CellMatches(rawbuf, m, j)
    decreases i
  {
    if i > 0 {
      ReachesAll(rawbuf, m, i - 1);
    }
  }

  /**
   * Every mark the decoder divides by is nonzero: the mark of each cell the loop reads,
   * including the one that fails the period match, since space_ / mark_ comes first
   * (the quotient is undefined for a zero mark). Marks after a failing cell are never read.
   */
  predicate ReadableMarks(rawbuf: seq<nat>, m: Matchers)
  {
    |rawbuf| == RawLength ==> forall i :: 0 <= i < Cells && Reaches(rawbuf, m, i) ==> rawbuf[2 * i + 1] > 0
  }

  /**
   * The bit of cell `i`: a space more than twice the mark is a 0, anything else a 1. The
   * decoder divides only by the marks ReadableMarks makes nonzero; for the zero marks it
   * never divides by, this reading is total and gives a 1.
   */
  function CellBit(rawbuf: seq<nat>, i: nat): bool
    requires |rawbuf| == RawLength && i < Cells
  {
    rawbuf[2 * i + 1] == 0 || !(rawbuf[2 * i + 2] / rawbuf[2 * i + 1] > 1)
  }

  /** Whether cell `i` passes MATCH_MARK(space_ + mark_, MAGIQUEST_PERIOD). */
  predicate CellMatches(rawbuf: seq<nat>, m: Matchers, i: nat)
    requires |rawbuf| == RawLength && i < Cells
  {
    m.matchMark(rawbuf[2 * i + 2] + rawbuf[2 * i + 1], Period)
  }

  /**
   * data.llword after the first `k` cells, shifting each bit in at the right in uint64_t;
   * None once a cell failed the period match. The loop gets through `k` cells exactly when
   * each of them matched.
   */
  function Accumulate(rawbuf: seq<nat>, m: Matchers, k: nat): (acc: Option<nat>)
    requires |rawbuf| == RawLength && k <= Cells
    ensures acc.Some? <==> Reaches(rawbuf, m, k)
    decreases k
  {
    if k == 0 then Some(0)
    else match Accumulate(rawbuf, m, k - 1)
      case None => None
      case Some(llword) =>
        if CellMatches(rawbuf, m, k - 1) then
          Some((2 * llword + (if CellBit(rawbuf, k - 1) then 1 else 0)) % U64)
        else None
  }

  /** The bits of the first `k` cells. */
  function CellBits(rawbuf: seq<nat>, k: nat): (bits: seq<bool>)
    requires |rawbuf| == RawLength && k <= Cells
    ensures |bits| == k
  {
    if k == 0 then [] else CellBits(rawbuf, k - 1) + [CellBit(rawbuf, k - 1)]
  }

  /** At most 50 bits never wrap the uint64_t accumulator. */
  lemma WordFits(bits: seq<bool>)
    requires |bits| <= Cells
    ensures FromMsb(bits) < U64
  {
    FromMsbBound(bits);
    Pow2Monotone(|bits|, 64);
    Pow2Of64();
  }

  /** The word after `k` cells is the cell bits read most significant first. */
  lemma {:induction false} AccumulateValue(rawbuf: seq<nat>, m: Matchers, k: nat)
    requires |rawbuf| == RawLength && k <= Cells
    requires Accumulate(rawbuf, m, k).Some?
    ensures Accumulate(rawbuf, m, k).value == FromMsb(CellBits(rawbuf, k))
  {
    if k > 0 {
      assert Accumulate(rawbuf, m, k - 1).Some?;
      AccumulateValue(rawbuf, m, k - 1);
      var bits, bit := CellBits(rawbuf, k - 1), CellBit(rawbuf, k - 1);
      WordFits(bits + [bit]);
      ShiftInBit(Accumulate(rawbuf, m, k - 1).value, bits, bit);
    }
  }

  /** Shifting one more bit into a word that does not wrap. */
  lemma ShiftInBit(llword: nat, bits: seq<bool>, bit: bool)
    requires llword == FromMsb(bits) && FromMsb(bits + [bit]) < U64
    ensures (2 * llword + (if bit then 1 else 0)) % U64 == FromMsb(bits + [bit])
  {
    assert (bits + [bit])[..|bits|] == bits;
  }

  /** The state after a successful decode of the word `llword`. */
  function Decoded(st: RecvState, llword: nat, c: Config): (st': RecvState)
    ensures st'.rawbuf == st.rawbuf
  {
    st.(decoded := st.decoded.(protocol := MAGIQUEST, numberOfBits := Cells, flags := c.flags.isOldDecoder),
        value := WandId(llword) as bv32,
        magnitude := Magnitude(llword) as bv16)
  }

  /**
   * decodeMagiQuest(): the verdict and the new receiver state. A capture of any other
   * length, or one with a cell failing the period match, leaves everything as it was.
   */
  function DecodeMagiQuestSpec(st: RecvState, m: Matchers, c: Config): (r: (bool, RecvState))
  {
    if |st.rawbuf| != RawLength then (false, st)
    else match Accumulate(st.rawbuf, m, Cells)
      case None => (false, st)
      case Some(llword) => (true, Decoded(st, llword, c))
  }

  /** One more cell: its mark is nonzero, its period match decides, and its bit is shifted in. */
  lemma AccumulateStep(rawbuf: seq<nat>, m: Matchers, k: nat, llword: nat)
    requires |rawbuf| == RawLength && ReadableMarks(rawbuf, m) && k < Cells
    requires Accumulate(rawbuf, m, k) == Some(llword)
    ensures rawbuf[2 * k + 1] > 0
    ensures Accumulate(rawbuf, m, k + 1) ==
      if m.matchMark(rawbuf[2 * k + 2] + rawbuf[2 * k + 1], Period) then
        Some((2 * llword + (if rawbuf[2 * k + 2] / rawbuf[2 * k + 1] > 1 then 0 else 1)) % U64)
      else None
  {
  }

  /** A failed cell stays failed: the loop returns at once. */
  lemma {:induction false} FailureStays(rawbuf: seq<nat>, m: Matchers, k: nat, n: nat)
    requires |rawbuf| == RawLength && k <= n <= Cells
    requires Accumulate(rawbuf, m, k).None?
    ensures Accumulate(rawbuf, m, n).None?
    decreases n - k
  {
    if k < n {
      FailureStays(rawbuf, m, k + 1, n);
    }
  }

  /**
   * The loop of decodeMagiQuest(): two entries per cell from offset 1 while offset + 1 < rawlen,
   * returning at the first cell that fails the period match. On success `offset` is where
   * the loop stopped, 101.
   */
  method ReadCells(rawbuf: seq<nat>, m: Matchers) returns (ok: bool, llword: nat, offset: nat)
    requires |rawbuf| == RawLength && ReadableMarks(rawbuf, m)
    ensures ok <==> Accumulate(rawbuf, m, Cells).Some?
    ensures ok ==> Accumulate(rawbuf, m, Cells) == Some(llword) && offset / 2 == Cells
  {
    offset := 1;
    llword := 0;
    ghost var k := 0;
    while offset + 1 < |rawbuf|
      invariant offset == 2 * k + 1 && k <= Cells
      invariant Accumulate(rawbuf, m, k) == Some(llword)
    {
      var mark := rawbuf[offset];
      offset := offset + 1;
      var space := rawbuf[offset];
      offset := offset + 1;
      assert mark == rawbuf[2 * k + 1] && space == rawbuf[2 * k + 2];
      AccumulateStep(rawbuf, m, k, llword);
      var ratio := space / mark;
      if m.matchMark(space + mark, Period) {
        if ratio > 1 {
          llword := (llword * 2) % U64;
        } else {
          llword := (llword * 2 + 1) % U64;
        }
      } else {
        FailureStays(rawbuf, m, k + 1, Cells);
        return false, llword, offset;
      }
      k := k + 1;
    }
    return true, llword, offset;
  }

  /** decodeMagiQuest(): the length gate, the cell loop, then the fields of the union. */
  method DecodeMagiQuest(r: Receiver, m: Matchers, c: Config) returns (ok: bool)
    requires ReadableMarks(r.rawbuf, m)
    modifies r
    ensures (ok, r.State()) == DecodeMagiQuestSpec(old(r.State()), m, c)
  {
    if |r.rawbuf| != RawLength {
      return false;
    }
    var llword, offset;
    ok, llword, offset := ReadCells(r.rawbuf, m);
    if !ok {
      return false;
    }
    r.decoded := r.decoded.(protocol := MAGIQUEST, numberOfBits := offset / 2, flags := c.flags.isOldDecoder);
    r.value := WandId(llword) as bv32;
    r.magnitude := Magnitude(llword) as bv16;
  }

  // ---------------------------------------------------------------------------
  // Properties of the decoder
  // ---------------------------------------------------------------------------

  /** The decoder accepts exactly the 102-entry captures whose 50 cells all match the period. */
  lemma DecodeAccepts(st: RecvState, m: Matchers, c: Config)
    ensures DecodeMagiQuestSpec(st, m, c).0 <==>
      |st.rawbuf| == RawLength && forall i :: 0 <= i < Cells ==> CellMatches(st.rawbuf, m, i)
    ensures !DecodeMagiQuestSpec(st, m, c).0 ==> DecodeMagiQuestSpec(st, m, c).1 == st
  {
    if |st.rawbuf| == RawLength {
      ReachesAll(st.rawbuf, m, Cells);
    }
  }

  /**
   * A capture whose cell 0 fails the period match is refused, whatever the marks after it,
   * zero ones included: the loop returns before reading them.
   */
  lemma EarlyFailure(st: RecvState, m: Matchers, c: Config)
    requires |st.rawbuf| == RawLength && st.rawbuf[1] > 0 && !CellMatches(st.rawbuf, m, 0)
    ensures ReadableMarks(st.rawbuf, m)
    ensures DecodeMagiQuestSpec(st, m, c) == (false, st)
  {
    forall i | 0 < i <= Cells
      ensures !Reaches(st.rawbuf, m, i)
    {
      ReachesAll(st.rawbuf, m, i);
    }
  }

  /**
   * On success numberOfBits is 50, the flags are IS_OLD_DECODER, and the two fields are
   * the last 48 cell bits read most significant first: the wand id, then the magnitude.
   * Address, command and the last decoded values are untouched.
   */
  lemma DecodeResult(st: RecvState, m: Matchers, c: Config)
    requires DecodeMagiQuestSpec(st, m, c).0
    ensures |st.rawbuf| == RawLength
    ensures var st' := DecodeMagiQuestSpec(st, m, c).1;
      var bits := CellBits(st.rawbuf, Cells);
      st'.decoded == st.decoded.(protocol := MAGIQUEST, numberOfBits := 50, flags := c.flags.isOldDecoder) &&
      FromMsb(bits[2..2 + WandIdBits]) < U32 && FromMsb(bits[2 + WandIdBits..]) < U16 &&
      st'.value == FromMsb(bits[2..2 + WandIdBits]) as bv32 &&
      st'.magnitude == FromMsb(bits[2 + WandIdBits..]) as bv16 &&
      st'.rawbuf == st.rawbuf && st'.lastDecodedAddress == st.lastDecodedAddress &&
      st'.lastDecodedCommand == st.lastDecodedCommand
  {
    AccumulateValue(st.rawbuf, m, Cells);
    FieldsOfWord(CellBits(st.rawbuf, Cells));
  }

  /** The fields of a word of 50 bits shifted in: bits 2 to 33 are the wand id, 34 to 49 the magnitude. */
  lemma FieldsOfWord(bits: seq<bool>)
    requires |bits| == Cells
    ensures FromMsb(bits[2..2 + WandIdBits]) < U32 && FromMsb(bits[2 + WandIdBits..]) < U16
    ensures WandId(FromMsb(bits)) == FromMsb(bits[2..2 + WandIdBits])
    ensures Magnitude(FromMsb(bits)) == FromMsb(bits[2 + WandIdBits..])
  {
    var start, wand, mag := bits[..2], bits[2..2 + WandIdBits], bits[2 + WandIdBits..];
    assert bits == start + wand + mag;
    var fs, fw, fm := FromMsb(start), FromMsb(wand), FromMsb(mag);
    assert fw < U32 by {
      FromMsbBound(wand);
      Pow2Of32();
    }
    assert fm < U16 by {
      FromMsbBound(mag);
      Pow2Of16();
    }
    assert FromMsb(bits) == (fs * U32 + fw) * U16 + fm by {
      Pow2Of32();
      Pow2Of16();
      FromMsbThree(start, wand, mag, U32, U16);
    }
    var llword := FromMsb(bits);
    assert llword == fs * (U16 * U32) + Pack(fw, fm) by {
      Regroup(fs, fw, fm);
    }
    assert WandId(llword) == fw && Magnitude(llword) == fm by {
      HighBitsIgnored(fs, Pack(fw, fm));
      UnpackPack(fw, fm);
    }
  }

  lemma Regroup(high: nat, wandId: nat, magnitude: nat)
    ensures (high * U32 + wandId) * U16 + magnitude == high * (U16 * U32) + (wandId * U16 + magnitude)
  {
  }

  /** rawbuf[0], the gap before the signal, and rawbuf[101], the trailing mark, are never read. */
  lemma EndsNotRead(st: RecvState, gap: nat, last: nat, m: Matchers, c: Config)
    requires ReadableMarks(st.rawbuf, m) && |st.rawbuf| == RawLength
    ensures ReadableMarks(st.rawbuf[0 := gap][RawLength - 1 := last], m)
    ensures DecodeMagiQuestSpec(st.(rawbuf := st.rawbuf[0 := gap][RawLength - 1 := last]), m, c) ==
      (DecodeMagiQuestSpec(st, m, c).0,
       DecodeMagiQuestSpec(st, m, c).1.(rawbuf := st.rawbuf[0 := gap][RawLength - 1 := last]))
  {
    var other := st.rawbuf[0 := gap][RawLength - 1 := last];
    SameMarksReadable(st.rawbuf, other, m);
    SameCellsSameWord(st.rawbuf, other, m, Cells);
  }

  /** Two captures that agree on rawbuf[1 .. 100] reach the same cells, with the same marks. */
  lemma SameMarksReadable(a: seq<nat>, b: seq<nat>, m: Matchers)
    requires |a| == |b| == RawLength && ReadableMarks(a, m)
    requires forall i :: 1 <= i < RawLength - 1 ==> a[i] == b[i]
    ensures ReadableMarks(b, m)
  {
    forall i | 0 <= i < Cells && Reaches(b, m, i)
      ensures b[2 * i + 1] > 0
    {
      assert Reaches(a, m, i) by {
        ReachesAll(a, m, i);
        ReachesAll(b, m, i);
        forall j | 0 <= j < i
          ensures CellMatches(a, m, j)
        {
          assert CellMatches(b, m, j);
          assert a[2 * j + 1] == b[2 * j + 1] && a[2 * j + 2] == b[2 * j + 2];
        }
      }
      assert a[2 * i + 1] == b[2 * i + 1];
    }
  }

  /** Two captures that agree on rawbuf[1 .. 2k] accumulate the same word over k cells. */
  lemma {:induction false} SameCellsSameWord(a: seq<nat>, b: seq<nat>, m: Matchers, k: nat)
    requires |a| == |b| == RawLength && k <= Cells
    requires forall i :: 1 <= i < RawLength - 1 ==> a[i] == b[i]
    ensures Accumulate(a, m, k) == Accumulate(b, m, k)
  {
    if k > 0 {
      var i := k - 1;
      SameCellsSameWord(a, b, m, i);
      assert a[2 * i + 1] == b[2 * i + 1] && a[2 * i + 2] == b[2 * i + 2];
      assert CellMatches(a, m, i) == CellMatches(b, m, i);
      assert CellBit(a, i) == CellBit(b, i);
    }
  }

  /** The two cells the sender uses both last 1152 us; the space/mark rule reads them as 1 and 0. */
  lemma CellTimings()
    ensures OneMark + OneSpace == 1152 && ZeroMark + ZeroSpace == 1152
    ensures OneSpace / OneMark == 1 && ZeroSpace / ZeroMark == 3
    ensures PairOf(Timing, true) == (576, 576) && PairOf(Timing, false) == (288, 864)
  {
  }

  /**
   * Counted in ticks of at most 288 us, both marks stay nonzero and the space/mark rule still
   * reads a 1 cell as 1 (ratio 1) and a 0 cell as 0 (ratio at least 3).
   */
  lemma CellTicks(microsPerTick: nat)
    requires 0 < microsPerTick <= Unit
    ensures OneMark / microsPerTick > 0 && ZeroMark / microsPerTick > 0
    ensures (OneSpace / microsPerTick) / (OneMark / microsPerTick) == 1
    ensures (ZeroSpace / microsPerTick) / (ZeroMark / microsPerTick) >= 3
  {
    var t := microsPerTick;
    QuotientAtLeast(OneMark, t, 1);
    QuotientAtLeast(ZeroMark, t, 1);
    var one := OneMark / t;
    DivModUnique(one, one, 1, 0);
    var a := ZeroMark / t;
    DivBounds(ZeroMark, t);
    assert (3 * a) * t == 3 * (a * t);
    QuotientAtLeast(ZeroSpace, t, 3 * a);
    QuotientAtLeast(ZeroSpace / t, a, 3);
  }

  // ---------------------------------------------------------------------------
  // Round trip
  // ---------------------------------------------------------------------------

  /** The marks and spaces of a sequence of cells, in order. */
  function Flatten(cells: seq<(nat, nat)>): (durations: seq<nat>)
    ensures |durations| == 2 * |cells|
    decreases |cells|
  {
    if cells == [] then [] else Flatten(cells[..|cells| - 1]) + [cells[|cells| - 1].0, cells[|cells| - 1].1]
  }

  lemma {:induction false} FlattenAt(cells: seq<(nat, nat)>, i: nat)
    requires i < |cells|
    ensures Flatten(cells)[2 * i] == cells[i].0 && Flatten(cells)[2 * i + 1] == cells[i].1
    decreases |cells|
  {
    if i < |cells| - 1 {
      FlattenAt(cells[..|cells| - 1], i);
    }
  }

  /** Microsecond cells as the whole MICROS_PER_TICK ticks each mark and space spans. */
  function InTicks(cells: seq<(nat, nat)>, microsPerTick: nat): seq<(nat, nat)>
    requires microsPerTick > 0
  {
    seq(|cells|, i requires 0 <= i < |cells| => (cells[i].0 / microsPerTick, cells[i].1 / microsPerTick))
  }

  /** A capture of microsecond cells in ticks: the gap before them, their durations, and a trailing entry. */
  function Capture(gap: nat, cells: seq<(nat, nat)>, last: nat, microsPerTick: nat): (rawbuf: seq<nat>)
    requires microsPerTick > 0
    ensures |rawbuf| == 2 * |cells| + 2
  {
    [gap] + Flatten(InTicks(cells, microsPerTick)) + [last]
  }

  /** Cell `i` of a capture is cell `i` of the durations captured, in ticks. */
  lemma CaptureAt(gap: nat, cells: seq<(nat, nat)>, last: nat, microsPerTick: nat, i: nat)
    requires microsPerTick > 0 && i < |cells|
    ensures Capture(gap, cells, last, microsPerTick)[2 * i + 1] == cells[i].0 / microsPerTick
    ensures Capture(gap, cells, last, microsPerTick)[2 * i + 2] == cells[i].1 / microsPerTick
  {
    FlattenAt(InTicks(cells, microsPerTick), i);
  }

  /** Every mark of a capture of cells sent with the MagiQuest timings is nonzero, in ticks of at most 288 us. */
  lemma CaptureReadable(gap: nat, bits: seq<bool>, last: nat, microsPerTick: nat, m: Matchers)
    requires |bits| == Cells && 0 < microsPerTick <= Unit
    ensures ReadableMarks(Capture(gap, Pairs(Timing, bits), last, microsPerTick), m)
  {
    var raw := Capture(gap, Pairs(Timing, bits), last, microsPerTick);
    CellTicks(microsPerTick);
    forall i | 0 <= i < Cells
      ensures raw[2 * i + 1] > 0
    {
      CaptureAt(gap, Pairs(Timing, bits), last, microsPerTick, i);
    }
  }

  /** A capture of cells sent with the MagiQuest timings reads back bit for bit. */
  lemma {:induction false} CapturedBits(gap: nat, bits: seq<bool>, last: nat, microsPerTick: nat, k: nat)
    requires |bits| == Cells && k <= Cells && 0 < microsPerTick <= Unit
    ensures CellBits(Capture(gap, Pairs(Timing, bits), last, microsPerTick), k) == bits[..k]
  {
    if k > 0 {
      CapturedBits(gap, bits, last, microsPerTick, k - 1);
      CaptureAt(gap, Pairs(Timing, bits), last, microsPerTick, k - 1);
      CellTicks(microsPerTick);
      assert bits[..k] == bits[..k - 1] + [bits[k - 1]];
    }
  }

  /** MATCH_MARK accepts, for the 1150 us period, the tick sums of a 1 cell and of a 0 cell. */
  predicate MatchesCellTicks(m: Matchers, microsPerTick: nat)
    requires microsPerTick > 0
  {
    m.matchMark(TickSum(PairOf(Timing, true), microsPerTick), Period) &&
    m.matchMark(TickSum(PairOf(Timing, false), microsPerTick), Period)
  }

  /** space_ + mark_ of a microsecond cell captured in ticks. */
  function TickSum(cell: (nat, nat), microsPerTick: nat): nat
    requires microsPerTick > 0
  {
    cell.1 / microsPerTick + cell.0 / microsPerTick
  }

  /** Each of those cells passes whenever MATCH_MARK accepts the tick sums of the two cells. */
  lemma CapturedMatch(gap: nat, bits: seq<bool>, last: nat, microsPerTick: nat, m: Matchers, i: nat)
    requires |bits| == Cells && i < Cells && microsPerTick > 0 && MatchesCellTicks(m, microsPerTick)
    ensures CellMatches(Capture(gap, Pairs(Timing, bits), last, microsPerTick), m, i)
  {
    var raw := Capture(gap, Pairs(Timing, bits), last, microsPerTick);
    CaptureAt(gap, Pairs(Timing, bits), last, microsPerTick, i);
    var cell := PairOf(Timing, bits[i]);
    assert raw[2 * i + 1] == cell.0 / microsPerTick && raw[2 * i + 2] == cell.1 / microsPerTick;
    if bits[i] {
      assert cell == (OneMark, OneSpace);
    } else {
      assert cell == (ZeroMark, ZeroSpace);
    }
  }

  /**
   * What sendMagiQuest emits, captured cell for cell in ticks of MICROS_PER_TICK (at most
   * 288 us) between any gap and any trailing entry, decodes back to the wand id and
   * magnitude sent, provided MATCH_MARK accepts the tick sums of a 1 cell and a 0 cell for
   * the 1150 us period.
   */
  lemma RoundTrip(wandId: nat, magnitude: nat, gap: nat, last: nat, st: RecvState, m: Matchers, c: Config)
    requires wandId < U32 && magnitude < U16
    requires 0 < c.microsPerTick <= Unit && MatchesCellTicks(m, c.microsPerTick)
    ensures var raw := Capture(gap, TracePairs(SendMagiQuest(wandId, magnitude)), last, c.microsPerTick);
      ReadableMarks(raw, m) &&
      DecodeMagiQuestSpec(st.(rawbuf := raw), m, c) ==
        (true, st.(rawbuf := raw,
                   value := wandId as bv32,
                   magnitude := magnitude as bv16,
                   decoded := st.decoded.(protocol := MAGIQUEST, numberOfBits := 50, flags := c.flags.isOldDecoder)))
  {
    var t := c.microsPerTick;
    var bits := SentBits(wandId, magnitude);
    SendCells(wandId, magnitude);
    SentBitsValue(wandId, magnitude);
    var raw := Capture(gap, Pairs(Timing, bits), last, t);
    CaptureReadable(gap, bits, last, t, m);
    CapturedBits(gap, bits, last, t, Cells);
    forall i | 0 <= i < Cells
      ensures CellMatches(raw, m, i)
    {
      CapturedMatch(gap, bits, last, t, m, i);
    }
    ReachesAll(raw, m, Cells);
    assert bits[..Cells] == bits;
    AccumulateValue(raw, m, Cells);
    UnpackPack(wandId, magnitude);
  }
}
