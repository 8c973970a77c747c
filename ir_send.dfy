/**
 * The transmit side as seen by the protocol encoders. Every hardware primitive an
 * encoder calls (enableIROut, noInterrupts, interrupts, mark, space, sendRaw, delay and
 * sendPulseDistanceWidthData) becomes one event of a trace; an encoder is modelled by
 * the trace it emits.
 */
module IRSend {

  /** The four bit-cell timings of sendPulseDistanceWidthData, in its argument order. */
  datatype PulseDistanceWidth = PulseDistanceWidth(oneMark: nat, oneSpace: nat, zeroMark: nat, zeroSpace: nat)

  datatype Act =
    | EnableIROut(khz: nat)
    | NoInterrupts
    | Interrupts
    | Mark(micros: nat)
    | Space(micros: nat)
    | SendRaw(durations: seq<nat>, khz: nat)
    | PulseDistanceData(timing: PulseDistanceWidth, data: nat, nbits: nat, msbFirst: bool, stopBit: bool)
    | Delay(ms: nat)

  // ---------------------------------------------------------------------------
  // Interrupt masking: every noInterrupts is closed by an interrupts before the
  // next noInterrupts, and the trace ends with interrupts enabled.
  // ---------------------------------------------------------------------------

  /** Whether interrupts are masked after `acts`, starting in state `masked`. */
  function MaskAfter(acts: seq<Act>, masked: bool): (r: bool)
    decreases |acts|
  {
    if acts == [] then masked
    else
      var next := if acts[0].NoInterrupts? then true else if acts[0].Interrupts? then false else masked;
      MaskAfter(acts[1..], next)
  }

  /** Masking never nests and never unmasks what is not masked. */
  predicate WellNested(acts: seq<Act>, masked: bool)
    decreases |acts|
  {
    acts == [] ||
    (!(acts[0].NoInterrupts? && masked) && !(acts[0].Interrupts? && !masked) &&
     WellNested(acts[1..], if acts[0].NoInterrupts? then true else if acts[0].Interrupts? then false else masked))
  }

  /** A trace that masks interrupts only in properly closed regions and leaves them enabled. */
  predicate Balanced(acts: seq<Act>)
  {
    WellNested(acts, false) && !MaskAfter(acts, false)
  }

  lemma {:induction false} MaskAfterAppend(a: seq<Act>, b: seq<Act>, masked: bool)
    ensures MaskAfter(a + b, masked) == MaskAfter(b, MaskAfter(a, masked))
    ensures WellNested(a + b, masked) <==> WellNested(a, masked) && WellNested(b, MaskAfter(a, masked))
    decreases |a|
  {
    if a == [] {
      assert a + b == b;
    } else {
      assert (a + b)[1..] == a[1..] + b;
      var next := if a[0].NoInterrupts? then true else if a[0].Interrupts? then false else masked;
      MaskAfterAppend(a[1..], b, next);
    }
  }

  /** Concatenating two balanced traces gives a balanced trace. */
  lemma BalancedAppend(a: seq<Act>, b: seq<Act>)
    requires Balanced(a) && Balanced(b)
    ensures Balanced(a + b)
  {
    MaskAfterAppend(a, b, false);
  }

  /** Appending three balanced traces. */
  lemma BalancedAppend3(a: seq<Act>, b: seq<Act>, c: seq<Act>)
    requires Balanced(a) && Balanced(b) && Balanced(c)
    ensures Balanced(a + b + c)
  {
    BalancedAppend(a, b);
    BalancedAppend(a + b, c);
  }

  /** A trace with no masking events at all is balanced. */
  lemma {:induction false} NoMaskingBalanced(acts: seq<Act>, masked: bool)
    requires forall i :: 0 <= i < |acts| ==> !acts[i].NoInterrupts? && !acts[i].Interrupts?
    ensures WellNested(acts, masked) && MaskAfter(acts, masked) == masked
    decreases |acts|
  {
    if acts != [] {
      NoMaskingBalanced(acts[1..], masked);
    }
  }

  // ---------------------------------------------------------------------------
  // Repetition schedules shared by several encoders.
  // ---------------------------------------------------------------------------

  /** `k` rounds of `item`, each followed by `gap`. */
  function Rounds(item: seq<Act>, gap: Act, k: nat): seq<Act>
  {
    if k == 0 then [] else Rounds(item, gap, k - 1) + item + [gap]
  }

  /** `n` copies of `item` with one `gap` between consecutive copies and none after the last. */
  function Separated(item: seq<Act>, gap: Act, n: nat): seq<Act>
  {
    if n == 0 then [] else Rounds(item, gap, n - 1) + item
  }

  lemma {:induction false} RoundsFront(item: seq<Act>, gap: Act, k: nat)
    ensures Rounds(item, gap, k + 1) == item + [gap] + Rounds(item, gap, k)
  {
    if k > 0 {
      RoundsFront(item, gap, k - 1);
    }
  }

  /** Read from the front, a separated schedule is one copy, one gap, and the shorter schedule. */
  lemma SeparatedFront(item: seq<Act>, gap: Act, n: nat)
    requires n >= 1
    ensures Separated(item, gap, n + 1) == item + [gap] + Separated(item, gap, n)
  {
    RoundsFront(item, gap, n - 1);
  }

  /** A separated schedule ends with a whole copy of `item`: no gap follows the last copy. */
  lemma SeparatedEndsWithItem(item: seq<Act>, gap: Act, n: nat)
    requires n >= 1
    ensures |Separated(item, gap, n)| >= |item|
    ensures Separated(item, gap, n)[|Separated(item, gap, n)| - |item|..] == item
  {
  }

  lemma MulStep(k: nat, c: nat)
    requires k >= 1
    ensures (k - 1) * c + c == k * c
  {
  }

  lemma {:induction false} RoundsCount(item: seq<Act>, gap: Act, k: nat, e: Act)
    requires gap !in item
    ensures multiset(Rounds(item, gap, k))[e] == if e == gap then k else k * multiset(item)[e]
  {
    if k == 0 {
      assert Rounds(item, gap, k) == [];
    } else {
      RoundsCount(item, gap, k - 1, e);
      var r := Rounds(item, gap, k - 1);
      assert Rounds(item, gap, k) == r + item + [gap];
      assert multiset(r + item + [gap]) == multiset(r) + multiset(item) + multiset{gap};
      if e == gap {
        assert multiset(item)[e] == 0;
      } else {
        MulStep(k, multiset(item)[e]);
      }
    }
  }

  /**
   * How often `e` occurs in `n` copies of `item`: when the gap does not occur in `item`,
   * exactly `n - 1` gaps, one between each pair of copies, and `n` times the item's count
   * of anything else.
   */
  lemma SeparatedCount(item: seq<Act>, gap: Act, n: nat, e: Act)
    requires n >= 1
    requires gap !in item
    ensures multiset(Separated(item, gap, n))[e] == if e == gap then n - 1 else n * multiset(item)[e]
  {
    RoundsCount(item, gap, n - 1, e);
    var r := Rounds(item, gap, n - 1);
    assert Separated(item, gap, n) == r + item;
    assert multiset(r + item) == multiset(r) + multiset(item);
    if e == gap {
      assert multiset(item)[e] == 0;
    } else {
      MulStep(n, multiset(item)[e]);
    }
  }

  /** `acts` ends with the events of `tail`. */
  predicate EndsWith(acts: seq<Act>, tail: seq<Act>)
  {
    |acts| >= |tail| && acts[|acts| - |tail|..] == tail
  }

  /** Appending to the front keeps the end. */
  lemma EndsWithAfter(prefix: seq<Act>, acts: seq<Act>, tail: seq<Act>)
    requires EndsWith(acts, tail)
    ensures EndsWith(prefix + acts, tail)
  {
    assert (prefix + acts)[|prefix + acts| - |tail|..] == acts[|acts| - |tail|..];
  }

  /**
   * How often `e` occurs in a separated schedule after a prefix: `n - 1` more gaps than the
   * prefix holds, and `n` times the item's count of any other event.
   */
  lemma SeparatedAfterCount(prefix: seq<Act>, item: seq<Act>, gap: Act, n: nat, e: Act)
    requires n >= 1 && gap !in item
    ensures multiset(prefix + Separated(item, gap, n))[e] ==
      multiset(prefix)[e] + (if e == gap then n - 1 else n * multiset(item)[e])
  {
    SeparatedCount(item, gap, n, e);
    assert multiset(prefix + Separated(item, gap, n)) == multiset(prefix) + multiset(Separated(item, gap, n));
  }

  /** A separated schedule after a prefix ends with a whole item. */
  lemma SeparatedAfterEnds(prefix: seq<Act>, item: seq<Act>, gap: Act, n: nat)
    requires n >= 1
    ensures EndsWith(prefix + Separated(item, gap, n), item)
  {
    SeparatedEndsWithItem(item, gap, n);
    EndsWithAfter(prefix, Separated(item, gap, n), item);
  }

  /** A separated schedule holds nothing but copies of `item`'s events and the gap. */
  lemma {:induction false} RoundsMembers(item: seq<Act>, gap: Act, k: nat)
    ensures forall a :: a in Rounds(item, gap, k) ==> a in item || a == gap
  {
    if k > 0 {
      RoundsMembers(item, gap, k - 1);
    }
  }

  lemma SeparatedMembers(item: seq<Act>, gap: Act, n: nat)
    ensures forall a :: a in Separated(item, gap, n) ==> a in item || a == gap
  {
    if n > 0 {
      RoundsMembers(item, gap, n - 1);
    }
  }

  /** The alternation of a one-event item: item at even positions, gap at odd positions. */
  lemma {:induction false} SeparatedSingle(x: Act, gap: Act, n: nat)
    requires n >= 1
    ensures |Separated([x], gap, n)| == 2 * n - 1
    ensures forall i :: 0 <= i < n ==> Separated([x], gap, n)[2 * i] == x
    ensures forall i :: 0 <= i < n - 1 ==> Separated([x], gap, n)[2 * i + 1] == gap
  {
    if n > 1 {
      SeparatedSingle(x, gap, n - 1);
      SeparatedFront([x], gap, n - 1);
      var s := Separated([x], gap, n - 1);
      assert Separated([x], gap, n) == [x, gap] + s;
      forall i | 1 <= i < n ensures Separated([x], gap, n)[2 * i] == x {
        assert Separated([x], gap, n)[2 * i] == s[2 * (i - 1)];
      }
      forall i | 1 <= i < n - 1 ensures Separated([x], gap, n)[2 * i + 1] == gap {
        assert Separated([x], gap, n)[2 * i + 1] == s[2 * (i - 1) + 1];
      }
    }
  }

  /** The alternation placed after a prefix. */
  lemma AlternationAfter(prefix: seq<Act>, x: Act, gap: Act, n: nat)
    requires n >= 1
    ensures |prefix + Separated([x], gap, n)| == |prefix| + 2 * n - 1
    ensures forall i :: 0 <= i < n ==> (prefix + Separated([x], gap, n))[|prefix| + 2 * i] == x
    ensures forall i :: 0 <= i < n - 1 ==> (prefix + Separated([x], gap, n))[|prefix| + 2 * i + 1] == gap
  {
    var sep := Separated([x], gap, n);
    SeparatedSingle(x, gap, n);
    forall i | 0 <= i < n
      ensures (prefix + sep)[|prefix| + 2 * i] == x
    {
      assert (prefix + sep)[|prefix| + 2 * i] == sep[2 * i];
    }
    forall i | 0 <= i < n - 1
      ensures (prefix + sep)[|prefix| + 2 * i + 1] == gap
    {
      assert (prefix + sep)[|prefix| + 2 * i + 1] == sep[2 * i + 1];
    }
  }

  /**
   * The repeat raster of the NEC-like encoders: `n` copies of `frame`, each preceded by a
   * delay, `first` milliseconds before the first copy and `next` before every later one.
   */
  function Raster(frame: seq<Act>, first: nat, next: nat, n: nat): seq<Act>
  {
    if n == 0 then [] else [Delay(first)] + Separated(frame, Delay(next), n)
  }

  /** One more copy: the raster grows by a delay and a frame at its end. */
  lemma RasterStep(frame: seq<Act>, first: nat, next: nat, n: nat)
    ensures Raster(frame, first, next, n + 1) == Raster(frame, first, next, n) + [Delay(if n == 0 then first else next)] + frame
  {
    if n == 0 {
      assert Separated(frame, Delay(next), 1) == frame;
    } else {
      var gap := Delay(next);
      assert Rounds(frame, gap, n) == Rounds(frame, gap, n - 1) + frame + [gap];
      assert Separated(frame, gap, n + 1) == Separated(frame, gap, n) + [gap] + frame;
    }
  }

  /** One delay of `first` milliseconds and `n - 1` of `next` milliseconds. */
  lemma RasterDelays(frame: seq<Act>, first: nat, next: nat, n: nat)
    requires forall a :: a in frame ==> !a.Delay?
    requires first != next
    ensures multiset(Raster(frame, first, next, n))[Delay(first)] == (if n >= 1 then 1 else 0)
    ensures multiset(Raster(frame, first, next, n))[Delay(next)] == (if n >= 1 then n - 1 else 0)
  {
    if n >= 1 {
      assert Delay(first) !in frame && Delay(next) !in frame;
      assert multiset(frame)[Delay(first)] == 0;
      SeparatedAfterCount([Delay(first)], frame, Delay(next), n, Delay(first));
      SeparatedAfterCount([Delay(first)], frame, Delay(next), n, Delay(next));
    }
  }

  /** An event other than a delay occurs `n` times as often as in one frame. */
  lemma RasterCount(frame: seq<Act>, first: nat, next: nat, n: nat, e: Act)
    requires forall a :: a in frame ==> !a.Delay?
    requires !e.Delay?
    ensures multiset(Raster(frame, first, next, n))[e] == n * multiset(frame)[e]
  {
    if n >= 1 {
      SeparatedAfterCount([Delay(first)], frame, Delay(next), n, e);
    }
  }

  /** Every event other than a delay occurs `n` times as often as in one frame. */
  lemma RasterFrames(frame: seq<Act>, first: nat, next: nat, n: nat)
    requires forall a :: a in frame ==> !a.Delay?
    ensures forall a: Act :: !a.Delay? ==> multiset(Raster(frame, first, next, n))[a] == n * multiset(frame)[a]
  {
    forall a: Act | !a.Delay? ensures multiset(Raster(frame, first, next, n))[a] == n * multiset(frame)[a] {
      RasterCount(frame, first, next, n, a);
    }
  }

  /** The raster starts with the first delay and ends with a whole frame: no delay after the last frame. */
  lemma RasterEnds(frame: seq<Act>, first: nat, next: nat, n: nat)
    requires n >= 1
    ensures Raster(frame, first, next, n)[0] == Delay(first)
    ensures |Raster(frame, first, next, n)| >= |frame| + 1
    ensures Raster(frame, first, next, n)[|Raster(frame, first, next, n)| - |frame|..] == frame
  {
    SeparatedAfterEnds([Delay(first)], frame, Delay(next), n);
  }

  /** A frame that masks interrupts around events that do not touch the mask is balanced. */
  lemma MaskedRegionBalanced(body: seq<Act>)
    requires forall i :: 0 <= i < |body| ==> !body[i].NoInterrupts? && !body[i].Interrupts?
    ensures Balanced([NoInterrupts] + body + [Interrupts])
  {
    NoMaskingBalanced(body, true);
    MaskAfterAppend([NoInterrupts], body, false);
    MaskAfterAppend([NoInterrupts] + body, [Interrupts], false);
    assert [NoInterrupts][1..] == [] && [Interrupts][1..] == [];
  }

  /** A single event that does not touch the mask is balanced. */
  lemma SingleBalanced(a: Act)
    requires !a.NoInterrupts? && !a.Interrupts?
    ensures Balanced([a])
  {
    NoMaskingBalanced([a], false);
  }

  lemma {:induction false} RoundsBalanced(item: seq<Act>, gap: Act, k: nat)
    requires Balanced(item) && !gap.NoInterrupts? && !gap.Interrupts?
    ensures Balanced(Rounds(item, gap, k))
  {
    if k == 0 {
      NoMaskingBalanced([], false);
    } else {
      RoundsBalanced(item, gap, k - 1);
      SingleBalanced(gap);
      BalancedAppend3(Rounds(item, gap, k - 1), item, [gap]);
    }
  }

  /** Repeating a balanced frame with non-masking gaps keeps the trace balanced. */
  lemma SeparatedBalanced(item: seq<Act>, gap: Act, n: nat)
    requires Balanced(item) && !gap.NoInterrupts? && !gap.Interrupts?
    ensures Balanced(Separated(item, gap, n))
  {
    if n == 0 {
      NoMaskingBalanced([], false);
    } else {
      RoundsBalanced(item, gap, n - 1);
      BalancedAppend(Rounds(item, gap, n - 1), item);
    }
  }

  /** A raster of a balanced frame is balanced. */
  lemma RasterBalanced(frame: seq<Act>, first: nat, next: nat, n: nat)
    requires Balanced(frame)
    ensures Balanced(Raster(frame, first, next, n))
  {
    if n == 0 {
      NoMaskingBalanced([], false);
    } else {
      SingleBalanced(Delay(first));
      SeparatedBalanced(frame, Delay(next), n);
      BalancedAppend([Delay(first)], Separated(frame, Delay(next), n));
    }
  }

  // ---------------------------------------------------------------------------
  // What sendPulseDistanceWidthData puts on the wire, as (mark, space) pairs.
  // ---------------------------------------------------------------------------

  /** The low `n` bits of `x`, most significant first. */
  function MsbBits(x: nat, n: nat): (bits: seq<bool>)
    ensures |bits| == n
  {
    if n == 0 then [] else MsbBits(x / 2, n - 1) + [x % 2 == 1]
  }

  /** The low `n` bits of `x`, least significant first. */
  function LsbBits(x: nat, n: nat): (bits: seq<bool>)
    ensures |bits| == n
  {
    if n == 0 then [] else [x % 2 == 1] + LsbBits(x / 2, n - 1)
  }

  function PairOf(t: PulseDistanceWidth, bit: bool): (nat, nat)
  {
    if bit then (t.oneMark, t.oneSpace) else (t.zeroMark, t.zeroSpace)
  }

  function Pairs(t: PulseDistanceWidth, bits: seq<bool>): (ps: seq<(nat, nat)>)
    ensures |ps| == |bits|
    ensures forall i :: 0 <= i < |bits| ==> ps[i] == PairOf(t, bits[i])
  {
    seq(|bits|, i requires 0 <= i < |bits| => PairOf(t, bits[i]))
  }

  /**
   * The data cells of a trace: each PulseDistanceData event contributes one (mark, space)
   * pair per bit, in its bit order. The optional stop-bit mark is not a data cell.
   */
  function TracePairs(acts: seq<Act>): seq<(nat, nat)>
    decreases |acts|
  {
    if acts == [] then []
    else
      var head := match acts[0]
        case PulseDistanceData(t, data, nbits, msbFirst, _) =>
          Pairs(t, if msbFirst then MsbBits(data, nbits) else LsbBits(data, nbits))
        case _ => [];
      head + TracePairs(acts[1..])
  }

  lemma {:induction false} TracePairsAppend(a: seq<Act>, b: seq<Act>)
    ensures TracePairs(a + b) == TracePairs(a) + TracePairs(b)
    decreases |a|
  {
    if a == [] {
      assert a + b == b;
    } else {
      assert (a + b)[1..] == a[1..] + b;
      TracePairsAppend(a[1..], b);
    }
  }
}
