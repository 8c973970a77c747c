/**
 * Reading dumped text back: the tokenizer of sendPronto(const char *, n) recovers the
 * numbers dumpPronto writes, up to the first zero after the preamble.
 */
module ProntoRoundTrip {
  import opened CTypes
  import opened ProntoMath
  import opened IRRecv
  import opened ProntoText
  import opened ProntoDump

  /** Character `5 * k + j` of the text of `g` is character `j` of group `k`. */
  lemma {:induction false} RenderAt(g: seq<nat>, k: nat, j: nat)
    requires forall i :: 0 <= i < |g| ==> g[i] < U16
    requires k < |g| && j < 5
    ensures |Render(g)| == 5 * |g|
    ensures Render(g)[5 * k + j] == NumberText(g[k])[j]
    decreases |g|
  {
    var init := g[..|g| - 1];
    RenderLength(g);
    RenderLength(init);
    if k < |g| - 1 {
      RenderAt(init, k, j);
    }
  }

  /** The value of a run of digits depends only on its characters. */
  lemma {:induction false} HexValueSame(s: string, q: nat, t: string, r: nat, len: nat)
    requires q + len <= |s| && r + len <= |t|
    requires forall i :: q <= i < q + len ==> s[i] == t[r + (i - q)]
    ensures HexValue(s, q, q + len) == HexValue(t, r, r + len)
  {
    if len > 0 {
      HexValueSame(s, q, t, r, len - 1);
      assert s[q + len - 1] == t[r + (q + len - 1 - q)];
    }
  }

  /** No hex digit is white space. */
  lemma DigitNotSpace(c: char)
    requires IsHexDigit(c)
    ensures !IsSpace(c)
  {
  }

  /** Where strtol starts its `k`-th call, k <= |g|, on the text of `g`. */
  function Start(k: nat): nat
  {
    if k == 0 then 0 else 5 * k - 1
  }

  /** Group `k` of the text of `g` is the text of `g[k]`. */
  lemma GroupChars(g: seq<nat>, k: nat)
    requires forall i :: 0 <= i < |g| ==> g[i] < U16
    requires k < |g|
    ensures |Render(g)| == 5 * |g|
    ensures forall j :: 0 <= j < 5 ==> Render(g)[5 * k + j] == NumberText(g[k])[j]
  {
    RenderLength(g);
    forall j | 0 <= j < 5
      ensures Render(g)[5 * k + j] == NumberText(g[k])[j]
    {
      RenderAt(g, k, j);
    }
  }

  /**
   * strtol from `p` over at most one white space character, then four hex digits ending at
   * a character that is not one, reads those four digits.
   */
  lemma ReadFour(s: string, p: nat, q: nat, longMax: nat)
    requires q + 4 < |s|
    requires q == p || (q == p + 1 && IsSpace(s[p]))
    requires IsHexDigit(s[q]) && IsHexDigit(s[q + 1]) && IsHexDigit(s[q + 2]) && IsHexDigit(s[q + 3])
    requires !IsHexDigit(s[q + 4])
    requires HexValue(s, q, q + 4) <= longMax
    ensures StrToL(s, p, longMax) == Parsed(HexValue(s, q, q + 4), q + 4)
  {
    DigitNotSpace(s[q]);
    assert SkipSpace(s, p) == q;
    assert DigitsEnd(s, q + 3) == q + 4;
    assert DigitsEnd(s, q + 2) == q + 4;
    assert DigitsEnd(s, q + 1) == q + 4;
  }

  /** Reading a group copied into the text at 5 * k, after the space of the group before it. */
  lemma ReadCopiedGroup(s: string, k: nat, t: string, longMax: nat)
    requires 5 * k + 4 < |s| && |t| == 5
    requires forall j :: 0 <= j < 5 ==> s[5 * k + j] == t[j]
    requires forall j :: 0 <= j < 4 ==> IsHexDigit(t[j])
    requires t[4] == ' ' && (k > 0 ==> s[5 * k - 1] == ' ')
    requires HexValue(t, 0, 4) <= longMax
    ensures StrToL(s, Start(k), longMax) == Parsed(HexValue(t, 0, 4), 5 * k + 4)
  {
    HexValueSame(s, 5 * k, t, 0, 4);
    assert s[5 * k + 1] == t[1] && s[5 * k + 2] == t[2] && s[5 * k + 3] == t[3] && s[5 * k + 4] == t[4];
    ReadFour(s, Start(k), 5 * k, longMax);
  }

  /** The `k`-th call skips the space of the previous group and reads the four digits of group `k`. */
  lemma GroupRead(g: seq<nat>, k: nat, longMax: nat)
    requires forall i :: 0 <= i < |g| ==> g[i] < U16
    requires k < |g| && U16 - 1 <= longMax
    ensures Start(k) <= |Render(g)|
    ensures StrToL(Render(g), Start(k), longMax) == Parsed(g[k], 5 * k + 4)
  {
    GroupChars(g, k);
    NumberTextValue(g[k]);
    if k > 0 {
      RenderAt(g, k - 1, 4);
      assert 5 * (k - 1) + 4 == 5 * k - 1;
      assert Render(g)[5 * k - 1] == ' ';
    }
    ReadCopiedGroup(Render(g), k, NumberText(g[k]), longMax);
  }

  /** After the last group only its space is left: the call reads no digit and returns 0. */
  lemma EndRead(g: seq<nat>, longMax: nat)
    requires forall i :: 0 <= i < |g| ==> g[i] < U16
    requires 0 < |g|
    ensures Start(|g|) <= |Render(g)|
    ensures StrToL(Render(g), Start(|g|), longMax) == Parsed(0, Start(|g|))
  {
    RenderLength(g);
    RenderAt(g, |g| - 1, 4);
    assert SkipSpace(Render(g), Start(|g|)) == 5 * |g|;
  }

  /** The calls on the text of `g` start at 0, 4, 9, 14, ... */
  lemma {:induction false} PositionsOfGroups(g: seq<nat>, k: nat, longMax: nat)
    requires forall i :: 0 <= i < |g| ==> g[i] < U16
    requires k <= |g| && U16 - 1 <= longMax
    ensures PosAfter(Render(g), k, longMax) == Start(k)
  {
    if k > 0 {
      PositionsOfGroups(g, k - 1, longMax);
      GroupRead(g, k - 1, longMax);
    }
  }

  /** The `k`-th call returns group `k`, and the call after the last group returns 0. */
  lemma ValuesOfGroups(g: seq<nat>, longMax: nat)
    requires forall i :: 0 <= i < |g| ==> g[i] < U16
    requires 0 < |g| && U16 - 1 <= longMax
    ensures forall k :: 0 <= k < |g| ==> ValueOf(Render(g), k, longMax) == g[k]
    ensures ValueOf(Render(g), |g|, longMax) == 0
  {
    forall k | 0 <= k < |g|
      ensures ValueOf(Render(g), k, longMax) == g[k]
    {
      PositionsOfGroups(g, k, longMax);
      GroupRead(g, k, longMax);
    }
    PositionsOfGroups(g, |g|, longMax);
    EndRead(g, longMax);
  }

  /**
   * The tokenizer over any text of 5 * |g| characters whose calls return the numbers of
   * `g` and then 0.
   */
  lemma KeepsGroups(s: string, g: seq<nat>, longMax: nat)
    requires forall i :: 0 <= i < |g| ==> g[i] < U16
    requires |s| == 5 * |g|
    requires forall k :: 0 <= k < |g| ==> ValueOf(s, k, longMax) == g[k]
    requires ValueOf(s, |g|, longMax) == 0
    ensures var d := ParseProntoText(s, longMax);
      |d| <= |g| + 1 && (forall k :: 0 <= k < |d| && k < |g| ==> d[k] == g[k]) &&
      (|d| == |g| + 1 ==> |g| < 4 && d[|g|] == 0) &&
      (forall j :: 4 <= j < |d| && j < |g| ==> g[j] != 0) &&
      (|d| < |g| ==> g[|d|] == 0) &&
      (|d| >= 4 || |d| == |g| + 1)
  {
  }

  /**
   * Text of at least four groups reads back as its groups up to, not including, the first
   * zero after the preamble. LONG_MAX is at least 0xFFFF, so no group saturates.
   */
  lemma RoundTrip(g: seq<nat>, longMax: nat)
    requires forall i :: 0 <= i < |g| ==> g[i] < U16
    requires 4 <= |g| && U16 - 1 <= longMax
    ensures var d := ParseProntoText(Render(g), longMax);
      4 <= |d| <= |g| && d == g[..|d|] &&
      (forall j :: 4 <= j < |d| ==> g[j] != 0) &&
      (|d| < |g| ==> g[|d|] == 0)
  {
    var d := ParseProntoText(Render(g), longMax);
    RenderLength(g);
    ValuesOfGroups(g, longMax);
    KeepsGroups(Render(g), g, longMax);
    assert d == g[..|d|];
  }

  /** Without a zero after the preamble, the text reads back exactly. */
  lemma RoundTripExact(g: seq<nat>, longMax: nat)
    requires forall i :: 0 <= i < |g| ==> g[i] < U16
    requires 4 <= |g| && U16 - 1 <= longMax
    requires forall j :: 4 <= j < |g| ==> g[j] != 0
    ensures ParseProntoText(Render(g), longMax) == g
  {
    RoundTrip(g, longMax);
  }

  /**
   * Text of fewer than four groups has no zero past the preamble to stop at: all
   * strlen / 5 + 1 calls are kept, the last of them reading nothing, so a 0 is appended.
   */
  lemma ShortTextGainsZero(g: seq<nat>, longMax: nat)
    requires forall i :: 0 <= i < |g| ==> g[i] < U16
    requires 0 < |g| < 4 && U16 - 1 <= longMax
    ensures ParseProntoText(Render(g), longMax) == g + [0]
  {
    var d := ParseProntoText(Render(g), longMax);
    RenderLength(g);
    ValuesOfGroups(g, longMax);
    KeepsGroups(Render(g), g, longMax);
    ShortKept(d, g);
  }

  /** What the tokenizer keeps of fewer than four groups: all of them and the final 0. */
  lemma ShortKept(d: seq<nat>, g: seq<nat>)
    requires |g| < 4 && |d| <= |g| + 1 && (|d| >= 4 || |d| == |g| + 1)
    requires forall k :: 0 <= k < |d| && k < |g| ==> d[k] == g[k]
    requires |d| == |g| + 1 ==> d[|g|] == 0
    ensures d == g + [0]
  {
    assert |d| == |g| + 1;
  }

  /**
   * A dump reads back as its groups: the preamble always, and every interval group
   * after it when none of them rounds to 0.
   */
  lemma DumpReadsBack(rawbuf: seq<nat>, frequency: nat, c: Config, longMax: nat)
    requires 1 <= |rawbuf| <= 256 && U16 - 1 <= longMax
    ensures var d := ParseProntoText(ProntoDumpText(rawbuf, frequency, c), longMax);
      var g := DumpGroups(rawbuf, frequency, c);
      4 <= |d| <= |g| && d == g[..|d|] &&
      ((forall j :: 4 <= j < |g| ==> g[j] != 0) ==> d == g)
  {
    RoundTrip(DumpGroups(rawbuf, frequency, c), longMax);
  }
}
