/**
 * Exact decimal division with a fixed scale and the HALF_UP rounding mode,
 * as `BigDecimal.divide(divisor, scale, RoundingMode.HALF_UP)` computes it.
 * A decimal is an unscaled integer together with a scale: it stands for
 * `unscaled / 10^scale`.
 */
module Decimals {

  datatype Decimal = Decimal(unscaled: int, scale: nat)

  function Pow10(n: nat): (p: nat)
    ensures p >= 1
  {
    if n == 0 then 1 else 10 * Pow10(n - 1)
  }

  function Abs(x: int): nat
  {
    if x < 0 then -x else x
  }

  /**
   * Reference definition of HALF_UP: `r` is an integer nearest to the rational
   * `n / d`, and when `n / d` lies exactly half-way between two integers, `r`
   * is the one farther from zero.
   */
  predicate IsHalfUp(n: int, d: int, r: int)
  {
    d > 0 && 2 * Abs(n - r * d) <= d && (2 * Abs(n - r * d) == d ==> Abs(r * d) > Abs(n))
  }

  /**
   * `n / d` rounded to an integer, HALF_UP: the magnitude is rounded to the
   * nearest integer with halves going up, and the sign is put back.
   */
  function RoundHalfUp(n: int, d: int): int
    requires d > 0
  {
    if n >= 0 then (2 * n + d) / (2 * d) else -((2 * -n + d) / (2 * d))
  }

  /** `n / d` to `scale` fractional digits, rounded HALF_UP. */
  function Divide(n: int, d: int, scale: nat): (q: Decimal)
    requires d > 0
    ensures q.scale == scale
    ensures IsHalfUp(n * Pow10(scale), d, q.unscaled)
  {
    RoundHalfUpIsNearest(n * Pow10(scale), d);
    Decimal(RoundHalfUp(n * Pow10(scale), d), scale)
  }

  lemma MulMonotone(a: int, b: int, d: int)
    requires a <= b && d > 0
    ensures a * d <= b * d
  {
    assert b * d - a * d == (b - a) * d;
  }

  lemma HalfUpNonNegative(n: int, d: int)
    requires n >= 0 && d > 0
    ensures IsHalfUp(n, d, (2 * n + d) / (2 * d))
  {
    var q := (2 * n + d) / (2 * d);
    var m := (2 * n + d) % (2 * d);
    assert 2 * n + d == (2 * d) * q + m && 0 <= m < 2 * d;
    assert (2 * d) * q == 2 * (q * d);
    if q < 0 {
      MulMonotone(q, -1, d);
      assert false;
    }
    MulMonotone(0, q, d);
    assert 2 * (n - q * d) == m - d;
  }

  /** HALF_UP is symmetric about zero. */
  lemma HalfUpNegate(n: int, d: int, r: int)
    requires IsHalfUp(n, d, r)
    ensures IsHalfUp(-n, d, -r)
  {
    assert (-r) * d == -(r * d);
    assert -n - (-r) * d == -(n - r * d);
  }

  /** The computed rounding meets the reference definition. */
  lemma RoundHalfUpIsNearest(n: int, d: int)
    requires d > 0
    ensures IsHalfUp(n, d, RoundHalfUp(n, d))
  {
    if n >= 0 {
      HalfUpNonNegative(n, d);
    } else {
      HalfUpNonNegative(-n, d);
      HalfUpNegate(-n, d, (2 * -n + d) / (2 * d));
    }
  }

  /** Two integers meeting the reference definition, the first not above the second, are equal. */
  lemma HalfUpUniqueOrdered(n: int, d: int, lo: int, hi: int)
    requires IsHalfUp(n, d, lo) && IsHalfUp(n, d, hi) && lo <= hi
    ensures lo == hi
  {
    if lo < hi {
      var a, h := lo * d, hi * d;
      assert h >= a + d by {
        MulMonotone(lo + 1, hi, d);
        assert (lo + 1) * d == a + d;
      }
      // Both neighbours are exactly half a step away: a tie, which each of
      // them would have to win by being farther from zero than n / d.
      assert 2 * (n - a) == d && 2 * (h - n) == d;
      if lo >= 0 {
        MulMonotone(0, lo, d);
      } else {
        MulMonotone(hi, 0, d);
      }
    }
  }

  /** At most one integer meets the reference definition. */
  lemma HalfUpUnique(n: int, d: int, r1: int, r2: int)
    requires IsHalfUp(n, d, r1) && IsHalfUp(n, d, r2)
    ensures r1 == r2
  {
    if r1 <= r2 {
      HalfUpUniqueOrdered(n, d, r1, r2);
    } else {
      HalfUpUniqueOrdered(n, d, r2, r1);
    }
  }

  /** The result is the unique integer meeting the reference definition. */
  lemma RoundHalfUpCharacterized(n: int, d: int, r: int)
    requires d > 0
    ensures RoundHalfUp(n, d) == r <==> IsHalfUp(n, d, r)
  {
    RoundHalfUpIsNearest(n, d);
    if IsHalfUp(n, d, r) {
      HalfUpUnique(n, d, r, RoundHalfUp(n, d));
    }
  }

  /** Rounding an exact quotient leaves it unchanged. */
  lemma RoundHalfUpExact(k: int, d: int)
    requires d > 0
    ensures RoundHalfUp(k * d, d) == k
  {
    RoundHalfUpCharacterized(k * d, d, k);
  }

  /** Rounding commutes with negation: halves go away from zero on both sides. */
  lemma RoundHalfUpOdd(n: int, d: int)
    requires d > 0
    ensures RoundHalfUp(-n, d) == -RoundHalfUp(n, d)
  {
    RoundHalfUpIsNearest(n, d);
    HalfUpNegate(n, d, RoundHalfUp(n, d));
    RoundHalfUpCharacterized(-n, d, -RoundHalfUp(n, d));
  }

  /** A quotient between two integers rounds to a value between them. */
  lemma RoundHalfUpWithin(n: int, d: int, lo: int, hi: int)
    requires d > 0 && lo * d <= n <= hi * d
    ensures lo <= RoundHalfUp(n, d) <= hi
  {
    var r := RoundHalfUp(n, d);
    RoundHalfUpIsNearest(n, d);
    if r > hi {
      MulMonotone(hi + 1, r, d);
      assert false;
    }
    if r < lo {
      MulMonotone(r, lo - 1, d);
      assert false;
    }
  }

  /**
   * Worked cases: the mean of 0..100000 is exactly 50000.00; 1/8 = 0.125 is a
   * tie and goes up to 0.13, and -1/8 goes down to -0.13; 2/3 rounds to 0.67.
   */
  lemma DivideExamples()
    ensures Divide(5000050000, 100001, 2) == Decimal(5000000, 2)
    ensures Divide(1, 8, 2) == Decimal(13, 2) && Divide(-1, 8, 2) == Decimal(-13, 2)
    ensures Divide(2, 3, 2) == Decimal(67, 2)
  {
  }
}
