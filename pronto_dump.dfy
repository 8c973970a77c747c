/**
 * dumpPronto: writing a captured signal as Pronto Hex text. Every number is written as a
 * group of four upper-case hex digits followed by one space; the output sink is the text
 * appended so far.
 */
module ProntoDump {
  import opened CTypes
  import opened ProntoMath
  import opened IRRecv
  import ProntoText

  const DigitsInProntoNumber: nat := 4

  /** hexDigit: 0..9 become '0'..'9' and 10..15 become 'A'..'F'. */
  function HexDigit(x: nat): (c: char)
    requires x < 16
    ensures x <= 9 ==> '0' <= c <= '9'
    ensures x >= 10 ==> 'A' <= c <= 'F'
  {
    if x <= 9 then ('0' as int + x) as char else ('A' as int + (x - 10)) as char
  }

  /** The tokenizer reads every digit hexDigit writes back as its value. */
  lemma HexDigitValue(x: nat)
    requires x < 16
    ensures ProntoText.IsHexDigit(HexDigit(x)) && ProntoText.DigitValue(HexDigit(x)) == x
  {
  }

  lemma Pow2Nibbles()
    ensures Pow2(0) == 1 && Pow2(4) == 16 && Pow2(8) == 256 && Pow2(12) == 4096
  {
  }

  /** The `i`-th hex digit of a 16-bit number, most significant first: (number >> 4 * (3 - i)) & 0xF. */
  function Nibble(number: nat, i: nat): (d: nat)
    requires i < DigitsInProntoNumber
    ensures d < 16
  {
    (number / Pow2(4 * (DigitsInProntoNumber - 1 - i))) % 16
  }

  /** The first `k` digits dumpNumber writes for `number`, most significant first. */
  function DigitsText(number: nat, k: nat): (s: string)
    requires k <= DigitsInProntoNumber
    ensures |s| == k
  {
    if k == 0 then [] else DigitsText(number, k - 1) + [HexDigit(Nibble(number, k - 1))]
  }

  /** The group dumpNumber writes: four hex digits, most significant first, then a space. */
  function NumberText(number: nat): (s: string)
    requires number < U16
    ensures |s| == DigitsInProntoNumber + 1 && s[4] == ' '
  {
    DigitsText(number, DigitsInProntoNumber) + [' ']
  }

  /** Digit `k` of a group is nibble `k` of the number. */
  lemma NumberTextAt(number: nat)
    requires number < U16
    ensures forall k :: 0 <= k < 4 ==> NumberText(number)[k] == HexDigit(Nibble(number, k))
  {
    assert DigitsText(number, 4) == DigitsText(number, 3) + [HexDigit(Nibble(number, 3))];
    assert DigitsText(number, 3) == DigitsText(number, 2) + [HexDigit(Nibble(number, 2))];
    assert DigitsText(number, 2) == DigitsText(number, 1) + [HexDigit(Nibble(number, 1))];
    assert DigitsText(number, 1) == [HexDigit(Nibble(number, 0))];
  }

  /** A group is four upper-case hex digits. */
  lemma NumberTextDigits(number: nat)
    requires number < U16
    ensures forall k :: 0 <= k < 4 ==> ('0' <= NumberText(number)[k] <= '9' || 'A' <= NumberText(number)[k] <= 'F')
  {
    NumberTextAt(number);
  }

  /** The four nibbles recompose the number. */
  lemma NibblesCompose(number: nat)
    requires number < U16
    ensures number == ((Nibble(number, 0) * 16 + Nibble(number, 1)) * 16 + Nibble(number, 2)) * 16 + Nibble(number, 3)
  {
    Pow2Nibbles();
    var m1 := number / 16;
    var m2 := m1 / 16;
    assert number / 256 == m2;
    assert number / 4096 == m2 / 16;
    assert number == m1 * 16 + number % 16;
    assert m1 == m2 * 16 + number / 16 % 16;
    assert m2 == (number / 4096 % 16) * 16 + number / 256 % 16;
  }

  /** The four digits of a group read back, by the tokenizer's digit rule, as the number written. */
  lemma NumberTextValue(number: nat)
    requires number < U16
    ensures forall k :: 0 <= k < 4 ==> ProntoText.IsHexDigit(NumberText(number)[k])
    ensures ProntoText.HexValue(NumberText(number), 0, 4) == number
  {
    var s := NumberText(number);
    var d0, d1, d2, d3 := Nibble(number, 0), Nibble(number, 1), Nibble(number, 2), Nibble(number, 3);
    NumberTextAt(number);
    HexDigitValue(d0);
    HexDigitValue(d1);
    HexDigitValue(d2);
    HexDigitValue(d3);
    NibblesCompose(number);
    assert ProntoText.HexValue(s, 0, 1) == d0;
    assert ProntoText.HexValue(s, 0, 2) == d0 * 16 + d1;
    assert ProntoText.HexValue(s, 0, 3) == (d0 * 16 + d1) * 16 + d2;
  }

  /** dumpNumber: the digit loop appends the four digits, then the space; the count is 5. */
  method DumpNumber(out: string, number: nat) returns (out': string, size: nat)
    requires number < U16
    ensures out' == out + NumberText(number)
    ensures size == 5
  {
    out' := out;
    size := 0;
    for i := 0 to DigitsInProntoNumber
      invariant out' == out + DigitsText(number, i)
      invariant size == i
    {
      var shifts := 4 * (DigitsInProntoNumber - 1 - i);
      out' := out' + [HexDigit((number / Pow2(shifts)) % 16)];
      size := size + 1;
    }
    out' := out' + [' '];
    size := size + 1;
  }

  /**
   * The number dumpDuration writes: the duration in timebase units rounded half up,
   * computed in uint32_t and stored in a uint16_t.
   */
  function DurationCode(duration: nat, timebase: nat): (code: nat)
    requires 0 < timebase
    ensures code < U16
  {
    ((duration + timebase / 2) % U32 / timebase) % U16
  }

  /**
   * When neither the uint32_t sum nor the uint16_t store wraps, the code is the duration
   * rounded to the nearest multiple of the timebase, halves rounding up.
   */
  lemma DurationRounds(duration: nat, timebase: nat)
    requires 0 < timebase
    requires duration + timebase / 2 < U32 && (duration + timebase / 2) / timebase < U16
    ensures DurationCode(duration, timebase) * timebase <= duration + timebase / 2
    ensures duration + timebase / 2 < (DurationCode(duration, timebase) + 1) * timebase
  {
    var x := duration + timebase / 2;
    assert x % U32 == x;
    assert (x / timebase) % U16 == x / timebase;
    DivBounds(x, timebase);
  }

  /** dumpDuration. */
  method DumpDuration(out: string, duration: nat, timebase: nat) returns (out': string, size: nat)
    requires 0 < timebase
    ensures out' == out + NumberText(DurationCode(duration, timebase))
    ensures size == 5
  {
    out', size := DumpNumber(out, DurationCode(duration, timebase));
  }

  /**
   * One captured interval in microseconds, as dumpSequence compensates it in uint32_t:
   * MARK_EXCESS_MICROS is added at even positions of the slice and subtracted at odd ones.
   */
  function Compensated(ticks: nat, i: nat, c: Config): (micros: nat)
    ensures micros < U32
    ensures i % 2 == 0 && (ticks * c.microsPerTick) % U32 + c.markExcessMicros < U32 ==>
      micros == (ticks * c.microsPerTick) % U32 + c.markExcessMicros
    ensures i % 2 == 1 && (ticks * c.microsPerTick) % U32 >= c.markExcessMicros ==>
      micros == (ticks * c.microsPerTick) % U32 - c.markExcessMicros
  {
    var d := (ticks * c.microsPerTick) % U32;
    if i % 2 == 1 then (d - c.markExcessMicros) % U32 else (d + c.markExcessMicros) % U32
  }

  /** The groups of the captured intervals, each converted to timebase units. */
  function IntervalCodes(data: seq<nat>, c: Config, timebase: nat): (codes: seq<nat>)
    requires 0 < timebase
    ensures |codes| == |data|
    ensures forall i :: 0 <= i < |data| ==> codes[i] == DurationCode(Compensated(data[i], i, c), timebase)
  {
    seq(|data|, i requires 0 <= i < |data| => DurationCode(Compensated(data[i], i, c), timebase))
  }

  /** The text of a sequence of 16-bit numbers, one group each. */
  function Render(codes: seq<nat>): (s: string)
    requires forall i :: 0 <= i < |codes| ==> codes[i] < U16
    decreases |codes|
  {
    if codes == [] then [] else Render(codes[..|codes| - 1]) + NumberText(codes[|codes| - 1])
  }

  lemma {:induction false} RenderLength(codes: seq<nat>)
    requires forall i :: 0 <= i < |codes| ==> codes[i] < U16
    ensures |Render(codes)| == 5 * |codes|
    decreases |codes|
  {
    if codes != [] {
      RenderLength(codes[..|codes| - 1]);
    }
  }

  lemma RenderSnoc(codes: seq<nat>, x: nat)
    requires forall i :: 0 <= i < |codes| ==> codes[i] < U16
    requires x < U16
    ensures Render(codes + [x]) == Render(codes) + NumberText(x)
  {
    assert (codes + [x])[..|codes|] == codes;
  }

  lemma {:induction false} RenderAppend(a: seq<nat>, b: seq<nat>)
    requires forall i :: 0 <= i < |a| ==> a[i] < U16
    requires forall i :: 0 <= i < |b| ==> b[i] < U16
    ensures Render(a + b) == Render(a) + Render(b)
    decreases |b|
  {
    if b == [] {
      assert a + b == a;
    } else {
      var b' := b[..|b| - 1];
      assert (a + b)[..|a + b| - 1] == a + b';
      RenderAppend(a, b');
    }
  }

  /** Four groups written one after the other. */
  lemma RenderFour(a: nat, b: nat, c: nat, d: nat)
    requires a < U16 && b < U16 && c < U16 && d < U16
    ensures Render([a, b, c, d]) == NumberText(a) + NumberText(b) + NumberText(c) + NumberText(d)
  {
    RenderSnoc([], a);
    assert [] + [a] == [a];
    RenderSnoc([a], b);
    assert [a] + [b] == [a, b];
    RenderSnoc([a, b], c);
    assert [a, b] + [c] == [a, b, c];
    RenderSnoc([a, b, c], d);
    assert [a, b, c] + [d] == [a, b, c, d];
  }

  /** The four preamble groups, written one after the other: the format token, the frequency code, the pair count, 0. */
  method DumpPreamble(out: string, token: nat, code: nat, pairs: nat) returns (out': string, size: nat)
    requires token < U16 && code < U16 && pairs < U16
    ensures out' == out + Render([token, code, pairs, 0])
    ensures size == 20
  {
    var out1, out2, out3, s1, s2, s3, s4;
    out1, s1 := DumpNumber(out, token);
    out2, s2 := DumpNumber(out1, code);
    out3, s3 := DumpNumber(out2, pairs);
    out', s4 := DumpNumber(out3, 0);
    size := s1 + s2 + s3 + s4;
    RenderFour(token, code, pairs, 0);
  }

  /** Writing the text of `pre`, then that of `rest`, writes the text of `pre + rest`. */
  lemma RenderThen(out: string, mid: string, out': string, pre: seq<nat>, rest: seq<nat>)
    requires forall i :: 0 <= i < |pre| ==> pre[i] < U16
    requires forall i :: 0 <= i < |rest| ==> rest[i] < U16
    requires mid == out + Render(pre) && out' == mid + Render(rest)
    ensures out' == out + Render(pre + rest)
  {
    RenderAppend(pre, rest);
    Associative(out, Render(pre), Render(rest));
  }

  lemma Associative<T>(a: seq<T>, b: seq<T>, c: seq<T>)
    ensures (a + b) + c == a + (b + c)
  {
  }

  /** One more group of a prefix of `codes`. */
  lemma RenderPrefixStep(codes: seq<nat>, i: nat)
    requires i < |codes| && forall k :: 0 <= k < |codes| ==> codes[k] < U16
    ensures Render(codes[..i + 1]) == Render(codes[..i]) + NumberText(codes[i])
  {
    assert codes[..i + 1] == codes[..i] + [codes[i]];
    RenderSnoc(codes[..i], codes[i]);
  }

  /**
   * The loop of dumpSequence: one group per interval. The uint8_t loop counter terminates
   * only for fewer than 256 intervals.
   */
  method DumpIntervals(out: string, data: seq<nat>, c: Config, timebase: nat) returns (out': string, size: nat)
    requires |data| < 256 && 0 < timebase
    ensures out' == out + Render(IntervalCodes(data, c, timebase))
    ensures size == 5 * |data|
  {
    ghost var codes := IntervalCodes(data, c, timebase);
    out' := out;
    size := 0;
    for i := 0 to |data|
      invariant out' == out + Render(codes[..i])
      invariant size == 5 * i
    {
      var s;
      out', s := DumpDuration(out', Compensated(data[i], i, c), timebase);
      RenderPrefixStep(codes, i);
      size := size + s;
    }
    assert codes[..|data|] == codes;
  }

  /** dumpSequence: the intervals, then the 45000 us default gap. */
  method DumpSequence(out: string, data: seq<nat>, c: Config, timebase: nat) returns (out': string, size: nat)
    requires |data| < 256 && 0 < timebase
    ensures out' == out + Render(IntervalCodes(data, c, timebase) + [DurationCode(ProntoDefaultGap, timebase)])
    ensures size == 5 * (|data| + 1)
  {
    var mid, s1, s2;
    mid, s1 := DumpIntervals(out, data, c, timebase);
    out', s2 := DumpDuration(mid, ProntoDefaultGap, timebase);
    size := s1 + s2;
    RenderSnoc(IntervalCodes(data, c, timebase), DurationCode(ProntoDefaultGap, timebase));
  }

  /** The numbers dumpPronto writes: the preamble, one group per interval after rawbuf[0], the gap. */
  function DumpGroups(rawbuf: seq<nat>, frequency: nat, c: Config): (groups: seq<nat>)
    requires 1 <= |rawbuf| <= 256
    ensures |groups| == |rawbuf| + 4
    ensures forall i :: 0 <= i < |groups| ==> groups[i] < U16
  {
    var timebase := ToTimebase(frequency % U16);
    TimebasePositive(frequency % U16);
    [if frequency > 0 then LearnedToken else LearnedNonModulatedToken,
     ToFrequencyCode(frequency % U16),
     (|rawbuf| + 1) / 2,
     0] +
    IntervalCodes(rawbuf[1..], c, timebase) + [DurationCode(ProntoDefaultGap, timebase)]
  }

  /** The text dumpPronto writes. */
  function ProntoDumpText(rawbuf: seq<nat>, frequency: nat, c: Config): string
    requires 1 <= |rawbuf| <= 256
  {
    Render(DumpGroups(rawbuf, frequency, c))
  }

  /**
   * dumpPronto(String *, frequency): rawbuf[0], the gap before the signal, is skipped;
   * results.rawlen = 0 would underflow and 257 or more would not terminate. The frequency
   * is tested for 0 as an unsigned int and passed to the helpers as a uint16_t.
   */
  method DumpPronto(out: string, r: Receiver, frequency: nat, c: Config) returns (out': string, size: nat)
    requires 1 <= |r.rawbuf| <= 256
    ensures out' == out + ProntoDumpText(r.rawbuf, frequency, c)
    ensures size == |out'| - |out| == 5 * (|r.rawbuf| + 4)
  {
    var rawbuf := r.rawbuf;
    var timebase := ToTimebase(frequency % U16);
    TimebasePositive(frequency % U16);
    var token := if frequency > 0 then LearnedToken else LearnedNonModulatedToken;
    var code := ToFrequencyCode(frequency % U16);
    var pairs := (|rawbuf| + 1) / 2;
    var out4, s4, s5;
    out4, s4 := DumpPreamble(out, token, code, pairs);
    ghost var pre := [token, code, pairs, 0];
    out', s5 := DumpSequence(out4, rawbuf[1..], c, timebase);
    size := s4 + s5;
    ghost var rest := IntervalCodes(rawbuf[1..], c, timebase) + [DurationCode(ProntoDefaultGap, timebase)];
    RenderThen(out, out4, out', pre, rest);
    Associative(pre, IntervalCodes(rawbuf[1..], c, timebase), [DurationCode(ProntoDefaultGap, timebase)]);
    RenderLength(DumpGroups(rawbuf, frequency, c));
  }

  /**
   * The layout of the dump: the format token (0000 for a known carrier, 0100 for
   * frequency 0), the frequency code, the pair count (rawlen + 1) / 2, a zero repeat count;
   * then rawlen - 1 interval groups and the gap group, in the timebase of the frequency.
   */
  lemma DumpLayout(rawbuf: seq<nat>, frequency: nat, c: Config)
    requires 1 <= |rawbuf| <= 256
    ensures
      var g := DumpGroups(rawbuf, frequency, c);
      var timebase := ToTimebase(frequency % U16);
      g[0] == (if frequency > 0 then 0x0000 else 0x0100) &&
      g[1] == ToFrequencyCode(frequency % U16) &&
      g[2] == (|rawbuf| + 1) / 2 && g[3] == 0 &&
      timebase > 0 &&
      (forall i :: 0 < i < |rawbuf| ==> g[3 + i] == DurationCode(Compensated(rawbuf[i], i - 1, c), timebase)) &&
      g[|rawbuf| + 3] == DurationCode(ProntoDefaultGap, timebase)
    ensures |ProntoDumpText(rawbuf, frequency, c)| == 5 * (|rawbuf| + 4)
  {
    TimebasePositive(frequency % U16);
    RenderLength(DumpGroups(rawbuf, frequency, c));
  }
}
