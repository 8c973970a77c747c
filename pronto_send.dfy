/**
 * sendPronto: interpreting Pronto Hex "learned" data as raw sends and delays. The data is
 * the preamble (format token, frequency code, intro pair count, repeat pair count) followed
 * by the intro and repeat durations, in carrier periods.
 */
module ProntoSend {
  import opened CTypes
  import opened ProntoMath
  import opened IRSend
  import ProntoText

  /** The two learned formats: modulated (0x0000) and non-modulated (0x0100). */
  predicate ValidToken(token: nat)
  {
    token == LearnedToken || token == LearnedNonModulatedToken
  }

  /** The preamble's pair counts account for exactly `size` numbers. */
  predicate Consistent(data: seq<nat>, size: nat)
    requires |data| >= NumbersInPreamble
  {
    NumbersInPreamble + 2 * data[2] + 2 * data[3] == size
  }

  /**
   * What the array overload demands of its caller: a full preamble of 16-bit numbers, a
   * uint8_t repeat count, a nonzero frequency code when the carrier is computed from it, the
   * durations present when the sizes agree, and an intro whenever repeats are sent (the gap
   * before the first repeat is the intro's last duration).
   */
  predicate Sendable(data: seq<nat>, size: nat, n: nat)
  {
    |data| >= NumbersInPreamble &&
    (forall i :: 0 <= i < |data| ==> data[i] < U16) &&
    n < 256 &&
    (data[0] == LearnedToken ==> data[1] > 0) &&
    (ValidToken(data[0]) && Consistent(data, size) ==>
      size <= |data| && (data[3] > 0 && n > 0 ==> data[2] > 0))
  }

  /** The carrier in kHz: from the frequency code for modulated data, 0 for non-modulated. */
  function Carrier(data: seq<nat>): nat
    requires |data| >= 2 && ValidToken(data[0]) && (data[0] == LearnedToken ==> data[1] > 0)
  {
    if data[0] == LearnedToken then ToFrequencyKHz(data[1]) else 0
  }

  /** A duration cut to the 16-bit maximum: the minimum of the two. */
  function Clamp(d: nat): (c: nat)
    ensures c <= d && c <= MicrosecondsMax
    ensures c == d || c == MicrosecondsMax
  {
    if d <= MicrosecondsMax then d else MicrosecondsMax
  }

  /** One microsecond duration: a number of carrier periods times the timebase, in uint32_t, clamped. */
  function Duration(periods: nat, timebase: nat): (d: nat)
    ensures d <= MicrosecondsMax
  {
    Clamp((periods * timebase) % U32)
  }

  /** The durations of the numbers after the preamble. */
  function Durations(data: seq<nat>, count: nat, timebase: nat): (durs: seq<nat>)
    requires NumbersInPreamble + count <= |data|
    ensures |durs| == count
    ensures forall i :: 0 <= i < count ==> durs[i] == Duration(data[i + NumbersInPreamble], timebase)
  {
    var periods := data[NumbersInPreamble..];
    seq(count, i requires 0 <= i < count => Duration(periods[i], timebase))
  }

  /**
   * The sends of `durs`, the intro's `intros` durations then the repeat's `repeats`: the
   * intro without its trailing gap, and, when repeats are asked for, the intro's gap as a
   * delay followed by `n` repeat blocks separated by the repeat's gap.
   */
  function Schedule(durs: seq<nat>, intros: nat, repeats: nat, khz: nat, n: nat): seq<Act>
    requires |durs| == intros + repeats && (repeats > 0 && n > 0 ==> intros > 0)
  {
    var intro := if intros >= 2 then [SendRaw(durs[..intros - 1], khz)] else [];
    if repeats == 0 || n == 0 then intro
    else
      intro + [Delay(durs[intros - 1] / 1000)] +
      Separated([SendRaw(durs[intros..intros + repeats - 1], khz)], Delay(durs[intros + repeats - 1] / 1000), n)
  }

  /**
   * The trace of sendPronto(data, size, n): nothing for an unknown token or inconsistent
   * sizes; otherwise the schedule of the durations after the preamble.
   */
  function ProntoTrace(data: seq<nat>, size: nat, n: nat): seq<Act>
    requires Sendable(data, size, n)
  {
    if !ValidToken(data[0]) || !Consistent(data, size) then []
    else
      Schedule(Durations(data, 2 * data[2] + 2 * data[3], SendTimebase(data[1])),
        2 * data[2], 2 * data[3], Carrier(data), n)
  }

  /** A known token and consistent sizes: the trace is the schedule of the durations. */
  lemma TraceSchedule(data: seq<nat>, size: nat, n: nat)
    requires Sendable(data, size, n) && ValidToken(data[0]) && Consistent(data, size)
    ensures ProntoTrace(data, size, n) ==
      Schedule(Durations(data, 2 * data[2] + 2 * data[3], SendTimebase(data[1])), 2 * data[2], 2 * data[3], Carrier(data), n)
  {
  }

  /** The durations array of sendPronto: each number after the preamble times the timebase, clamped. */
  method ComputeDurations(data: seq<nat>, count: nat, timebase: nat) returns (durs: seq<nat>)
    requires NumbersInPreamble + count <= |data|
    ensures durs == Durations(data, count, timebase)
  {
    var durations := new nat[count];
    for i := 0 to count
      invariant forall k :: 0 <= k < i ==> durations[k] == Duration(data[k + NumbersInPreamble], timebase)
    {
      durations[i] := Duration(data[i + NumbersInPreamble], timebase);
    }
    durs := durations[..];
  }

  /** The repeat loop of sendPronto: `n` blocks, each but the last followed by the gap. */
  method SendRepeats(block: Act, gap: Act, n: nat) returns (acts: seq<Act>)
    ensures acts == Separated([block], gap, n)
  {
    acts := [];
    for i := 0 to n
      invariant i < n ==> acts == Rounds([block], gap, i)
      invariant i == n ==> acts == Separated([block], gap, n)
    {
      acts := acts + [block];
      if i + 1 < n {
        acts := acts + [gap];
      }
    }
  }

  /** sendPronto(const uint16_t *data, size, numberOfRepeats). */
  method SendPronto(data: seq<nat>, size: nat, n: nat) returns (acts: seq<Act>)
    requires Sendable(data, size, n)
    ensures acts == ProntoTrace(data, size, n)
  {
    var timebase := SendTimebase(data[1]);
    var khz: nat;
    if data[0] == LearnedToken {
      khz := ToFrequencyKHz(data[1]);
    } else if data[0] == LearnedNonModulatedToken {
      khz := 0;
    } else {
      return [];
    }
    var intros := 2 * data[2];
    var repeats := 2 * data[3];
    if NumbersInPreamble + intros + repeats != size {
      return [];
    }
    var durations := ComputeDurations(data, intros + repeats, timebase);
    acts := SendSchedule(durations, intros, repeats, khz, n);
    TraceSchedule(data, size, n);
  }

  /** The sends of sendPronto once the durations are known: the intro, then the repeats. */
  method SendSchedule(durations: seq<nat>, intros: nat, repeats: nat, khz: nat, n: nat) returns (acts: seq<Act>)
    requires |durations| == intros + repeats && (repeats > 0 && n > 0 ==> intros > 0)
    ensures acts == Schedule(durations, intros, repeats, khz, n)
  {
    acts := [];
    if intros >= 2 {
      acts := acts + [SendRaw(durations[..intros - 1], khz)];
    }
    if repeats == 0 || n == 0 {
      return;
    }
    acts := acts + [Delay(durations[intros - 1] / 1000)];
    var rest := SendRepeats(SendRaw(durations[intros..intros + repeats - 1], khz), Delay(durations[intros + repeats - 1] / 1000), n);
    acts := acts + rest;
  }

  /**
   * sendPronto(const char *str, numberOfRepeats): the tokenized text passed on with its
   * length as size. Text of at least 15 characters yields a full preamble.
   */
  method SendProntoText(str: string, longMax: nat, n: nat) returns (acts: seq<Act>)
    requires |str| >= 15
    requires Sendable(ProntoText.ParseProntoText(str, longMax), |ProntoText.ParseProntoText(str, longMax)|, n)
    ensures acts == ProntoTrace(ProntoText.ParseProntoText(str, longMax), |ProntoText.ParseProntoText(str, longMax)|, n)
  {
    var data := ProntoText.ParsePronto(str, longMax);
    acts := SendPronto(data, |data|, n);
  }

  // ---------------------------------------------------------------------------
  // Properties of the trace
  // ---------------------------------------------------------------------------

  /** A product of a 16-bit number and a timebase of at most 1036 fits in 32 bits. */
  lemma ProductFits(x: nat, timebase: nat)
    requires x < U16 && timebase <= 1036
    ensures x * timebase < U32
  {
    MulMonotone(x, U16 - 1, timebase);
    MulMonotone(timebase, 1036, U16 - 1);
  }

  /** A duration is min(periods * timebase, 0xFFFF): for 16-bit data the uint32_t product never wraps. */
  lemma DurationClamped(periods: nat, timebase: nat)
    requires periods < U16 && timebase <= 1036
    ensures Duration(periods, timebase) == if periods * timebase <= MicrosecondsMax then periods * timebase else MicrosecondsMax
  {
    ProductFits(periods, timebase);
  }

  /** An unknown format token or inconsistent sizes send nothing and delay nothing. */
  lemma ProntoRejects(data: seq<nat>, size: nat, n: nat)
    requires Sendable(data, size, n)
    ensures !ValidToken(data[0]) ==> ProntoTrace(data, size, n) == []
    ensures !Consistent(data, size) ==> ProntoTrace(data, size, n) == []
    ensures ValidToken(data[0]) && Consistent(data, size) && (data[2] > 0 || (data[3] > 0 && n > 0)) ==>
      ProntoTrace(data, size, n) != []
  {
  }

  /** Every raw send of the trace uses the carrier of the format token. */
  lemma ProntoCarrier(data: seq<nat>, size: nat, n: nat)
    requires Sendable(data, size, n)
    ensures forall a :: a in ProntoTrace(data, size, n) && a.SendRaw? ==>
      a.khz == (if data[0] == LearnedToken then ToFrequencyKHz(data[1]) else 0)
  {
    if ValidToken(data[0]) && Consistent(data, size) {
      var intros, repeats := 2 * data[2], 2 * data[3];
      TraceSchedule(data, size, n);
      ScheduleCarrier(Durations(data, intros + repeats, SendTimebase(data[1])), intros, repeats, Carrier(data), n);
    }
  }

  /** A schedule sends on the one carrier it is given. */
  lemma ScheduleCarrier(durs: seq<nat>, intros: nat, repeats: nat, khz: nat, n: nat)
    requires |durs| == intros + repeats && (repeats > 0 && n > 0 ==> intros > 0)
    ensures forall a :: a in Schedule(durs, intros, repeats, khz, n) && a.SendRaw? ==> a.khz == khz
  {
    if repeats > 0 && n > 0 {
      SeparatedMembers([SendRaw(durs[intros..intros + repeats - 1], khz)], Delay(durs[intros + repeats - 1] / 1000), n);
    }
  }

  /** With at least two intro durations the trace opens with the intro, without its trailing gap. */
  lemma ProntoIntro(data: seq<nat>, size: nat, n: nat)
    requires Sendable(data, size, n) && ValidToken(data[0]) && Consistent(data, size)
    requires data[2] >= 1
    ensures
      var durs := Durations(data, size - NumbersInPreamble, SendTimebase(data[1]));
      ProntoTrace(data, size, n)[0] == SendRaw(durs[..2 * data[2] - 1], Carrier(data))
  {
  }

  /** Without repeat durations, or with no repeats asked for, the intro is all that is sent. */
  lemma ProntoOnce(data: seq<nat>, size: nat, n: nat)
    requires Sendable(data, size, n) && ValidToken(data[0]) && Consistent(data, size)
    requires data[3] == 0 || n == 0
    ensures |ProntoTrace(data, size, n)| == if data[2] >= 1 then 1 else 0
  {
  }

  /**
   * With repeats: after the intro comes the intro's gap, then `n` repeat sends alternating
   * with `n - 1` repeat gaps; no gap follows the last repeat.
   */
  lemma ProntoRepeats(data: seq<nat>, size: nat, n: nat)
    requires Sendable(data, size, n) && ValidToken(data[0]) && Consistent(data, size)
    requires data[3] >= 1 && n >= 1
    ensures
      var intros := 2 * data[2];
      var repeats := 2 * data[3];
      var durs := Durations(data, intros + repeats, SendTimebase(data[1]));
      var acts := ProntoTrace(data, size, n);
      |acts| == 2 * n + 1 &&
      acts[1] == Delay(durs[intros - 1] / 1000) &&
      (forall i :: 0 <= i < n ==> acts[2 + 2 * i] == SendRaw(durs[intros..intros + repeats - 1], Carrier(data))) &&
      (forall i :: 0 <= i < n - 1 ==> acts[3 + 2 * i] == Delay(durs[intros + repeats - 1] / 1000))
  {
    var intros, repeats := 2 * data[2], 2 * data[3];
    TraceSchedule(data, size, n);
    ScheduleRepeats(Durations(data, intros + repeats, SendTimebase(data[1])), intros, repeats, Carrier(data), n);
  }

  /** The positions of a schedule with an intro and repeats. */
  lemma ScheduleRepeats(durs: seq<nat>, intros: nat, repeats: nat, khz: nat, n: nat)
    requires |durs| == intros + repeats && intros >= 2 && repeats >= 1 && n >= 1
    ensures
      var acts := Schedule(durs, intros, repeats, khz, n);
      |acts| == 2 * n + 1 &&
      acts[1] == Delay(durs[intros - 1] / 1000) &&
      (forall i :: 0 <= i < n ==> acts[2 + 2 * i] == SendRaw(durs[intros..intros + repeats - 1], khz)) &&
      (forall i :: 0 <= i < n - 1 ==> acts[3 + 2 * i] == Delay(durs[intros + repeats - 1] / 1000))
  {
    AlternationAfter([SendRaw(durs[..intros - 1], khz), Delay(durs[intros - 1] / 1000)],
      SendRaw(durs[intros..intros + repeats - 1], khz), Delay(durs[intros + repeats - 1] / 1000), n);
  }

  /**
   * A 38 kHz code with one intro pair and one repeat pair, sent twice: periods of 26 us,
   * the intro mark alone, then gaps (832 us, under one millisecond) between the repeats.
   */
  lemma ProntoExample()
    ensures ProntoTrace([0x0000, 0x006D, 0x0001, 0x0001, 0x0010, 0x0020, 0x0010, 0x0020], 8, 2) ==
      [SendRaw([416], 38), Delay(0), SendRaw([416], 38), Delay(0), SendRaw([416], 38)]
  {
    var data := [0x0000, 0x006D, 0x0001, 0x0001, 0x0010, 0x0020, 0x0010, 0x0020];
    assert SendTimebase(0x006D) == 26;
    assert Duration(0x0010, 26) == 416 && Duration(0x0020, 26) == 832;
    var durs := Durations(data, 4, 26);
    assert durs == [416, 832, 416, 832];
    assert Carrier(data) == 38;
    var block := SendRaw([416], 38);
    assert Rounds([block], Delay(0), 1) == [block, Delay(0)] by {
      assert Rounds([block], Delay(0), 0) == [];
    }
    assert Separated([block], Delay(0), 2) == [block, Delay(0), block];
    assert durs[..1] == [416] && durs[2..3] == [416];
    assert ProntoTrace(data, 8, 2) == [SendRaw(durs[..1], 38)] + [Delay(durs[1] / 1000)] + Separated([SendRaw(durs[2..3], 38)], Delay(durs[3] / 1000), 2);
  }
}
