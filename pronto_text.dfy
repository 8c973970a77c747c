/**
 * The tokenizer of sendPronto(const char *, n): successive strtol(p, &end, 16) calls over
 * Pronto Hex text, kept as 16-bit numbers.
 */
module ProntoText {
  import opened CTypes
  import opened ProntoMath

  predicate IsHexDigit(c: char)
  {
    '0' <= c <= '9' || 'A' <= c <= 'F' || 'a' <= c <= 'f'
  }

  /** isspace in the C locale: blank, tab, line feed, vertical tab, form feed, carriage return. */
  predicate IsSpace(c: char)
  {
    c == ' ' || '\t' <= c <= '\r'
  }

  /** The value of a hex digit; other characters, which strtol never reads as digits, are 0. */
  function DigitValue(c: char): (v: nat)
    ensures v < 16
  {
    if '0' <= c <= '9' then c as int - '0' as int
    else if 'A' <= c <= 'F' then c as int - 'A' as int + 10
    else if 'a' <= c <= 'f' then c as int - 'a' as int + 10
    else 0
  }

  /** The value of the hex digits s[q .. e), most significant digit first. */
  function HexValue(s: string, q: nat, e: nat): nat
    requires q <= e <= |s|
    decreases e
  {
    if e == q then 0 else HexValue(s, q, e - 1) * 16 + DigitValue(s[e - 1])
  }

  /** The first position at or after `p` that does not hold white space. */
  function SkipSpace(s: string, p: nat): (q: nat)
    requires p <= |s|
    ensures p <= q <= |s|
    ensures q == |s| || !IsSpace(s[q])
    decreases |s| - p
  {
    if p < |s| && IsSpace(s[p]) then SkipSpace(s, p + 1) else p
  }

  /** Everything skipped is white space. */
  lemma {:induction false} SkipSpaceSkips(s: string, p: nat, i: nat)
    requires p <= |s| && p <= i < SkipSpace(s, p)
    ensures IsSpace(s[i])
    decreases |s| - p
  {
    if p < i {
      SkipSpaceSkips(s, p + 1, i);
    }
  }

  /** The end of the run of hex digits that starts at `q`. */
  function DigitsEnd(s: string, q: nat): (e: nat)
    requires q <= |s|
    ensures q <= e <= |s|
    ensures e == |s| || !IsHexDigit(s[e])
    decreases |s| - q
  {
    if q < |s| && IsHexDigit(s[q]) then DigitsEnd(s, q + 1) else q
  }

  /** Every character of the run is a hex digit. */
  lemma {:induction false} DigitsEndReads(s: string, q: nat, i: nat)
    requires q <= |s| && q <= i < DigitsEnd(s, q)
    ensures IsHexDigit(s[i])
    decreases |s| - q
  {
    if q < i {
      DigitsEndReads(s, q + 1, i);
    }
  }

  /** What one strtol call returns: the number and the position `*endptr` is set to. */
  datatype Parsed = Parsed(value: nat, end: nat)

  /**
   * strtol(s + p, &end, 16): white space is skipped, then the longest run of hex digits is
   * read; a value above LONG_MAX (`longMax`) saturates to it. Without any digit the result
   * is 0 and `end` stays at `p`, before the skipped white space.
   */
  function StrToL(s: string, p: nat, longMax: nat): (r: Parsed)
    requires p <= |s|
    ensures p <= r.end <= |s|
    ensures r.end == p ==> r.value == 0
    ensures r.value <= longMax || r.value == 0
  {
    var q := SkipSpace(s, p);
    var e := DigitsEnd(s, q);
    if e == q then Parsed(0, p)
    else
      var v := HexValue(s, q, e);
      Parsed(if v <= longMax then v else longMax, e)
  }

  /** The read position after `k` successive strtol calls from the start of `s`. */
  function PosAfter(s: string, k: nat, longMax: nat): (p: nat)
    ensures p <= |s|
  {
    if k == 0 then 0 else StrToL(s, PosAfter(s, k - 1, longMax), longMax).end
  }

  /** The number returned by the `k`-th strtol call, counting from 0. */
  function ValueOf(s: string, k: nat, longMax: nat): nat
  {
    StrToL(s, PosAfter(s, k, longMax), longMax).value
  }

  /** The first `n` numbers read, each truncated to uint16_t. */
  function Kept(s: string, n: nat, longMax: nat): (data: seq<nat>)
    ensures |data| == n
    ensures forall k :: 0 <= k < n ==> data[k] < U16
  {
    seq(n, k requires 0 <= k => ValueOf(s, k, longMax) % U16)
  }

  /**
   * How many numbers the tokenizer keeps of at most `n`, looking from index `i` on: up to
   * the first zero at an index of at least 4 (zeros inside the preamble are kept), or all of them.
   */
  function KeptCount(s: string, n: nat, longMax: nat, i: nat): (r: nat)
    requires i <= n
    ensures i <= r <= n
    ensures r >= 4 || r == n
    ensures forall j :: i <= j < r && 4 <= j ==> ValueOf(s, j, longMax) != 0
    ensures r < n ==> ValueOf(s, r, longMax) == 0
    decreases n - i
  {
    if i == n then n
    else if i >= 4 && ValueOf(s, i, longMax) == 0 then i
    else KeptCount(s, n, longMax, i + 1)
  }

  /**
   * The numbers sendPronto(const char *, n) passes on: strlen / 5 + 1 strtol calls, stopped
   * by the first zero at an index of at least 4, each value truncated to uint16_t.
   */
  function ParseProntoText(s: string, longMax: nat): (data: seq<nat>)
    ensures |data| <= |s| / 5 + 1
    ensures |data| >= 4 || |data| == |s| / 5 + 1
    ensures forall k :: 0 <= k < |data| ==> data[k] < U16 && data[k] == ValueOf(s, k, longMax) % U16
    ensures forall j :: 4 <= j < |data| ==> ValueOf(s, j, longMax) != 0
    ensures |data| < |s| / 5 + 1 ==> ValueOf(s, |data|, longMax) == 0
  {
    Kept(s, KeptCount(s, |s| / 5 + 1, longMax, 0), longMax)
  }

  /** One strtol call of the tokenizer: where it reads, what it keeps and whether it stops. */
  lemma TokenStep(s: string, n: nat, longMax: nat, i: nat)
    requires i < n
    ensures StrToL(s, PosAfter(s, i, longMax), longMax).end == PosAfter(s, i + 1, longMax)
    ensures StrToL(s, PosAfter(s, i, longMax), longMax).value == ValueOf(s, i, longMax)
    ensures Kept(s, i + 1, longMax) == Kept(s, i, longMax) + [ValueOf(s, i, longMax) % U16]
    ensures i >= 4 && ValueOf(s, i, longMax) == 0 ==> KeptCount(s, n, longMax, i) == i
    ensures i < 4 || ValueOf(s, i, longMax) != 0 ==> KeptCount(s, n, longMax, i) == KeptCount(s, n, longMax, i + 1)
  {
  }

  /**
   * The tokenizer loop over a uint16_t buffer of strlen / 5 + 1 entries: `p` advances to each
   * strtol end position, and the first zero read after the preamble ends the data.
   */
  method ParsePronto(str: string, longMax: nat) returns (data: seq<nat>)
    ensures data == ParseProntoText(str, longMax)
  {
    var len := |str| / 5 + 1;
    var buffer := new nat[len];
    var p := 0;
    var i := 0;
    while i < len
      invariant 0 <= i <= len == |str| / 5 + 1 == buffer.Length
      invariant p == PosAfter(str, i, longMax)
      invariant buffer[..i] == Kept(str, i, longMax)
      invariant KeptCount(str, len, longMax, i) == KeptCount(str, len, longMax, 0)
    {
      var x := StrToL(str, p, longMax);
      TokenStep(str, len, longMax, i);
      if x.value == 0 && i >= 4 {
        return buffer[..i];
      }
      buffer[i] := x.value % U16;
      assert buffer[..i + 1] == buffer[..i] + [buffer[i]];
      p := x.end;
      i := i + 1;
    }
    data := buffer[..len];
  }
}
