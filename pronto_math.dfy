/**
 * Frequency and timebase arithmetic of the Pronto Hex "learned" format
 * (harctoolbox.org, Glossary, "Pronto semantics"): a frequency code is a divisor of
 * the reference frequency 4145146 Hz, and durations are counted in periods of the carrier.
 * All C integer types are written out: results stored in a uint16_t are reduced modulo 2^16,
 * uint32_t arithmetic modulo 2^32.
 */
module ProntoMath {
  import opened CTypes

  const MicrosecondsMax: nat := 0xFFFF
  const LearnedToken: nat := 0x0000
  const LearnedNonModulatedToken: nat := 0x0100
  const NumbersInPreamble: nat := 4
  const ReferenceFrequency: nat := 4145146
  const FallbackFrequency: nat := 64767
  const MicrosecondsInSeconds: nat := 1000000
  const ProntoDefaultGap: nat := 45000

  /** toFrequencyKHz: the carrier of a frequency code in kHz, the quotient rounded half up. */
  function ToFrequencyKHz(code: nat): nat
    requires 0 < code
  {
    (ReferenceFrequency / code + 500) / 1000
  }

  /** The carrier in kHz is the frequency in Hz rounded half up to a multiple of 1000. */
  lemma FrequencyRounds(code: nat)
    requires 0 < code
    ensures ToFrequencyKHz(code) * 1000 <= ReferenceFrequency / code + 500 < ToFrequencyKHz(code) * 1000 + 1000
  {
    DivBounds(ReferenceFrequency / code + 500, 1000);
  }

  /** The code 0x006D (109) found in most captured remotes is a 38 kHz carrier. */
  lemma CommonCodeIs38KHz()
    ensures ToFrequencyKHz(0x006D) == 38
  {
  }

  /**
   * The timebase sendPronto computes from a frequency code, in microseconds per carrier
   * period: (1000000 * code + 4145146 / 2) / 4145146 in uint32_t arithmetic. The product
   * wraps for codes above 4294 and the sum already for 4293 and 4294; up to 4292 the
   * result is the quotient 1000000 * code / 4145146 rounded half up.
   */
  function SendTimebase(code: nat): (tb: nat)
    requires code < U16
    ensures tb <= 1036
  {
    var x := ((MicrosecondsInSeconds * code) % U32 + ReferenceFrequency / 2) % U32;
    DivBounds(x, ReferenceFrequency);
    x / ReferenceFrequency
  }

  /** Up to code 4292 nothing wraps: the timebase is 1000000 * code / 4145146 rounded half up. */
  lemma TimebaseRounds(code: nat)
    requires code <= 4292
    ensures SendTimebase(code) * ReferenceFrequency <= MicrosecondsInSeconds * code + ReferenceFrequency / 2
    ensures MicrosecondsInSeconds * code + ReferenceFrequency / 2 < (SendTimebase(code) + 1) * ReferenceFrequency
  {
    var x := MicrosecondsInSeconds * code + ReferenceFrequency / 2;
    assert x < U32;
    assert (MicrosecondsInSeconds * code) % U32 == MicrosecondsInSeconds * code;
    assert x % U32 == x;
    DivBounds(x, ReferenceFrequency);
  }

  /** Code 4293 wraps the uint32_t sum to 105277: its timebase is 0 and every duration becomes 0. */
  lemma SendTimebaseWraps()
    ensures SendTimebase(4293) == 0
  {
  }

  /** effectiveFrequency: frequency 0 (unknown) is replaced by the fallback 64767 Hz. */
  function EffectiveFrequency(frequency: nat): (f: nat)
    requires frequency < U16
    ensures 0 < f < U16
    ensures frequency > 0 ==> f == frequency
    ensures frequency == 0 ==> f == FallbackFrequency
  {
    if frequency > 0 then frequency else FallbackFrequency
  }

  /**
   * toTimebase: microseconds per carrier period, by TRUNCATING division, stored in a
   * uint16_t. It is never 0, so the dumper's division by it is always defined.
   */
  function ToTimebase(frequency: nat): (tb: nat)
    requires frequency < U16
    ensures tb < U16
    ensures tb == (MicrosecondsInSeconds / EffectiveFrequency(frequency)) % U16
    ensures EffectiveFrequency(frequency) >= 16 ==>
      tb * EffectiveFrequency(frequency) <= MicrosecondsInSeconds < (tb + 1) * EffectiveFrequency(frequency)
  {
    var f := EffectiveFrequency(frequency);
    DivBounds(MicrosecondsInSeconds, f);
    if f >= 16 then
      QuotientBelow(MicrosecondsInSeconds, f, 16, U16);
      MicrosecondsInSeconds / f
    else
      (MicrosecondsInSeconds / f) % U16
  }

  /**
   * toFrequencyCode: the frequency code for a carrier, by TRUNCATING division, stored in
   * a uint16_t.
   */
  function ToFrequencyCode(frequency: nat): (code: nat)
    requires frequency < U16
    ensures code < U16
    ensures EffectiveFrequency(frequency) >= 64 ==>
      code * EffectiveFrequency(frequency) <= ReferenceFrequency < (code + 1) * EffectiveFrequency(frequency)
  {
    var f := EffectiveFrequency(frequency);
    DivBounds(ReferenceFrequency, f);
    if f >= 64 then
      QuotientBelow(ReferenceFrequency, f, 64, U16);
      ReferenceFrequency / f
    else
      (ReferenceFrequency / f) % U16
  }

  /** The timebase the dumper divides by is positive for every 16-bit frequency. */
  lemma TimebasePositive(frequency: nat)
    requires frequency < U16
    ensures ToTimebase(frequency) > 0
  {
    var f := EffectiveFrequency(frequency);
    if f >= 16 {
      assert MicrosecondsInSeconds / f >= MicrosecondsInSeconds / 65535 by {
        assert f <= 65535;
        DivisionAntitone(MicrosecondsInSeconds, f, 65535);
      }
    } else {
      assert f in {1, 2, 3, 4, 5, 6, 7, 8, 9, 10, 11, 12, 13, 14, 15};
    }
  }

  lemma DivisionAntitone(x: nat, a: nat, b: nat)
    requires 0 < a <= b
    ensures x / a >= x / b
  {
    var q := x / b;
    DivBounds(x, b);
    MulMonotone(a, b, q);
    QuotientAtLeast(x, a, q);
  }

  /** A quotient by a divisor of at least `lo` is below `bound` when `x / lo` is. */
  lemma QuotientBelow(x: nat, d: nat, lo: nat, bound: nat)
    requires 0 < lo <= d
    requires x / lo < bound
    ensures x / d < bound
  {
    DivisionAntitone(x, lo, d);
  }

  /** Frequency 0 takes the fallback: timebase 15 us and frequency code 64. */
  lemma FallbackValues()
    ensures EffectiveFrequency(0) == FallbackFrequency
    ensures ToTimebase(0) == 15
    ensures ToFrequencyCode(0) == 64
    ensures ToTimebase(0) == ToTimebase(FallbackFrequency)
    ensures ToFrequencyCode(0) == ToFrequencyCode(FallbackFrequency)
  {
  }

  /** Truncation, not rounding: 36 kHz gives 27 us (27.8 would round to 28), 40 kHz code 103 (103.6 would round to 104). */
  lemma TruncatingExamples()
    ensures ToTimebase(36000) == 27
    ensures ToFrequencyCode(40000) == 103
  {
  }
}
