/**
 * The widths of the C integer types the library computes in. Every value stored into
 * an unsigned type of `n` bits is reduced modulo 2^n, and a left or right shift of a
 * non-negative value by `k` multiplies or divides it by 2^k.
 */
module CTypes {

  const U8: nat := 0x100
  const U16: nat := 0x1_0000
  const U32: nat := 0x1_0000_0000
  const U64: nat := 0x1_0000_0000_0000_0000

  /** 2 to the power `k`. */
  function Pow2(k: nat): (p: nat)
    ensures p >= 1
  {
    if k == 0 then 1 else 2 * Pow2(k - 1)
  }

  lemma {:induction false} Pow2Add(a: nat, b: nat)
    ensures Pow2(a + b) == Pow2(a) * Pow2(b)
    decreases b
  {
    if b > 0 {
      Pow2Add(a, b - 1);
    }
  }

  lemma Pow2Of16()
    ensures Pow2(16) == U16
  {
    assert Pow2(4) == 16;
    Pow2Add(4, 4);
    Pow2Add(8, 8);
  }

  lemma Pow2Of32()
    ensures Pow2(32) == U32
  {
    Pow2Of16();
    Pow2Add(16, 16);
  }

  lemma Pow2Of64()
    ensures Pow2(64) == U64
  {
    Pow2Of32();
    Pow2Add(32, 32);
  }

  lemma {:induction false} Pow2Monotone(a: nat, b: nat)
    requires a <= b
    ensures Pow2(a) <= Pow2(b)
  {
    Pow2Add(a, b - a);
  }

  /** Integer division brackets its dividend. */
  lemma DivBounds(x: nat, d: nat)
    requires d > 0
    ensures (x / d) * d <= x < (x / d + 1) * d
  {
  }

  lemma MulMonotone(i: nat, j: nat, a: nat)
    requires i <= j
    ensures i * a <= j * a
  {
  }

  lemma QuotientAtLeast(x: nat, a: nat, q: nat)
    requires a > 0 && q * a <= x
    ensures q <= x / a
  {
    DivBounds(x, a);
    if x / a < q {
      MulMonotone(x / a + 1, q, a);
    }
  }

  lemma QuotientAtMost(x: nat, a: nat, q: nat)
    requires a > 0 && x < (q + 1) * a
    ensures x / a <= q
  {
    DivBounds(x, a);
    if x / a > q {
      MulMonotone(q + 1, x / a, a);
    }
  }

  /** The quotient and remainder of `x` by `d` are the only such pair. */
  lemma DivModUnique(x: nat, d: nat, q: nat, r: nat)
    requires 0 < d && r < d && x == q * d + r
    ensures x / d == q && x % d == r
  {
    QuotientAtLeast(x, d, q);
    QuotientAtMost(x, d, q);
  }
}
