/** Low-order bit arithmetic, as the extendible hash table uses it: `hash & ((1 << d) - 1)`
    keeps the `d` low bits, and `(i >> d) & 1` is bit `d`. */
module Bits {

  function Pow2(n: nat): (r: nat)
    ensures r >= 1
  {
    if n == 0 then 1 else 2 * Pow2(n - 1)
  }

  /** `x & ((1 << d) - 1)` */
  function LowBits(x: nat, d: nat): (r: nat)
    ensures r < Pow2(d)
  {
    if d == 0 then 0 else x % 2 + 2 * LowBits(x / 2, d - 1)
  }

  /** `x >> d` */
  function Shr(x: nat, d: nat): nat {
    if d == 0 then x else Shr(x / 2, d - 1)
  }

  /** `(x >> d) & 1` */
  function Bit(x: nat, d: nat): (r: nat)
    ensures r <= 1
  {
    Shr(x, d) % 2
  }

  ghost predicate Agree(x: nat, y: nat, d: nat) {
    LowBits(x, d) == LowBits(y, d)
  }

  lemma Twice(p: int, s: int)
    ensures (2 * p) * s == 2 * (p * s)
  {
  }

  /** Masking and shifting split a number into its low and high part. */
  lemma {:induction false} SplitAt(x: nat, d: nat)
    ensures x == LowBits(x, d) + Pow2(d) * Shr(x, d)
  {
    if d > 0 {
      SplitAt(x / 2, d - 1);
      Twice(Pow2(d - 1), Shr(x / 2, d - 1));
    }
  }

  /** One more bit of mask adds exactly bit `d`. */
  lemma {:induction false} LowBitsStep(x: nat, d: nat)
    ensures LowBits(x, d + 1) == LowBits(x, d) + (if Bit(x, d) == 1 then Pow2(d) else 0)
  {
    if d > 0 { LowBitsStep(x / 2, d - 1); }
  }

  lemma {:induction false} LowBitsSmall(x: nat, d: nat)
    requires x < Pow2(d)
    ensures LowBits(x, d) == x
  {
    if d > 0 { LowBitsSmall(x / 2, d - 1); }
  }

  /** A wider mask does not disturb a narrower one, nor any bit below it. */
  lemma {:induction false} LowBitsNarrow(x: nat, d: nat, e: nat)
    requires d <= e
    ensures LowBits(LowBits(x, e), d) == LowBits(x, d)
    ensures d < e ==> Bit(LowBits(x, e), d) == Bit(x, d)
  {
    if d > 0 {
      LowBitsNarrow(x / 2, d - 1, e - 1);
    }
  }

  lemma {:induction false} AgreeNarrow(x: nat, y: nat, d: nat, e: nat)
    requires d <= e && Agree(x, y, e)
    ensures Agree(x, y, d)
    ensures d < e ==> Bit(x, d) == Bit(y, d)
  {
    LowBitsNarrow(x, d, e);
    LowBitsNarrow(y, d, e);
  }

  lemma AgreeStep(x: nat, y: nat, d: nat)
    ensures Agree(x, y, d + 1) <==> Agree(x, y, d) && Bit(x, d) == Bit(y, d)
  {
    LowBitsStep(x, d);
    LowBitsStep(y, d);
  }

  lemma {:induction false} Pow2Monotone(d: nat, e: nat)
    requires d <= e
    ensures Pow2(d) <= Pow2(e)
  {
    if d < e { Pow2Monotone(d, e - 1); }
  }

  /** Below `2^d` bit `d` is clear; adding `2^d` sets it and leaves the lower bits alone. */
  lemma {:induction false} TopBit(x: nat, d: nat)
    requires x < Pow2(d)
    ensures Bit(x, d) == 0 && Bit(x + Pow2(d), d) == 1
    ensures Agree(x + Pow2(d), x, d)
  {
    if d > 0 {
      TopBit(x / 2, d - 1);
      assert (x + Pow2(d)) / 2 == x / 2 + Pow2(d - 1);
    }
  }

  lemma {:induction false} Pow2Sum(a: nat, b: nat)
    ensures Pow2(a + b) == Pow2(a) * Pow2(b)
  {
    if b > 0 {
      Pow2Sum(a, b - 1);
      Twice(Pow2(b - 1), Pow2(a));
    }
  }
}
