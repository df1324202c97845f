/** Rounding an exact rational half away from zero (backend/internal/dynprice/expr.go:273-291). */
module Rounding {

  /** The quotient of Go's QuoRem: truncated toward zero. */
  function TruncatedQuotient(num: int, den: int): int
    requires den > 0
  {
    if num >= 0 then num / den else -((-num) / den)
  }

  function Abs(x: int): nat {
    if x < 0 then -x else x
  }

  /** q is num/den rounded to the nearest integer, ties to the larger magnitude. */
  predicate Rounds(q: int, num: int, den: int)
    requires den > 0
  {
    && 2 * Abs(q * den - num) <= den
    && (2 * Abs(q * den - num) == den ==> Abs(q) * den > Abs(num))
  }

  /** The source's steps: truncate, then move one away from zero when twice the
      remainder reaches the denominator. */
  method RoundHalfUp(num: int, den: int) returns (q: int)
    requires den > 0
    ensures Rounds(q, num, den)
  {
    q := TruncatedQuotient(num, den);
    var rem := num - q * den;
    TruncationError(num, den);
    var twice := Abs(rem * 2);
    if twice >= den {
      if num >= 0 {
        q := q + 1;
      } else {
        q := q - 1;
      }
      RoundedUp(q, num, den, rem);
    } else {
      assert Abs(q * den - num) == Abs(rem);
    }
  }

  lemma TruncationError(num: int, den: int)
    requires den > 0
    ensures var rem := num - TruncatedQuotient(num, den) * den;
            && Abs(rem) < den && (num >= 0 ==> rem >= 0) && (num <= 0 ==> rem <= 0)
            && (num >= 0 ==> TruncatedQuotient(num, den) >= 0) && (num <= 0 ==> TruncatedQuotient(num, den) <= 0)
  {
    var m := Abs(num);
    assert m == (m / den) * den + m % den;
    if num < 0 {
      assert (-(m / den)) * den == -((m / den) * den);
    }
  }

  lemma RoundedUp(q: int, num: int, den: int, rem: int)
    requires den > 0 && 2 * Abs(rem) >= den && Abs(rem) < den
    requires num >= 0 ==> q > 0 && rem >= 0 && (q - 1) * den + rem == num
    requires num < 0 ==> q < 0 && rem <= 0 && (q + 1) * den + rem == num
    ensures Rounds(q, num, den)
  {
    if num >= 0 {
      assert q * den == (q - 1) * den + den;
      assert q * den - num == den - rem;
    } else {
      assert q * den == (q + 1) * den - den;
      assert num - q * den == rem + den;
      assert Abs(q) * den == -(q * den);
    }
  }

  lemma AbsScale(q: int, den: int)
    requires den > 0
    ensures Abs(q) * den == Abs(q * den)
  {}

  lemma Odd(q: int, den: int)
    ensures (2 * q - 1) * den == 2 * (q * den) - den
    ensures (2 * q + 1) * den == 2 * (q * den) + den
  {}

  /** The value lies within half a unit of q, and on the near side of a tie only away from zero. */
  lemma Halves(q: int, num: int, den: int)
    requires den > 0 && Rounds(q, num, den)
    ensures (2 * q - 1) * den <= 2 * num <= (2 * q + 1) * den
    ensures 2 * num == (2 * q - 1) * den ==> num > 0
    ensures 2 * num == (2 * q + 1) * den ==> num < 0
  {
    Odd(q, den);
    AbsScale(q, den);
  }

  lemma Cancel(a: int, b: int, k: int)
    requires k > 0
    ensures a <= b <==> a * k <= b * k
    ensures a == b <==> a * k == b * k
  {
    if a < b {
      assert (b - a) * k > 0;
    } else if a > b {
      assert (a - b) * k > 0;
    }
  }

  /** `Halves` with numerator and denominator multiplied by k. */
  lemma ScaledHalves(q: int, num: int, den: int, k: int, d: int, p: int)
    requires den > 0 && k > 0 && Rounds(q, num, den) && d == den * k && p == num * k
    ensures (2 * q - 1) * d <= 2 * p <= (2 * q + 1) * d
    ensures 2 * p == (2 * q - 1) * d ==> p > 0
    ensures 2 * p == (2 * q + 1) * d ==> p < 0
  {
    Halves(q, num, den);
    var lo, hi := (2 * q - 1) * den, (2 * q + 1) * den;
    Commute(2 * q - 1, den, k);
    Commute(2 * q + 1, den, k);
    assert 2 * p == (2 * num) * k;
    Cancel(lo, 2 * num, k);
    Cancel(2 * num, hi, k);
    Cancel(0, num, k);
    Cancel(num, 0, k);
  }

  /** Rounding is monotone in the rational, whatever fractions represent it. */
  lemma RoundsMonotone(q1: int, num1: int, den1: int, q2: int, num2: int, den2: int)
    requires den1 > 0 && den2 > 0 && num1 * den2 <= num2 * den1
    requires Rounds(q1, num1, den1) && Rounds(q2, num2, den2)
    ensures q1 <= q2
  {
    var d := den1 * den2;
    ScaledHalves(q1, num1, den1, den2, d, num1 * den2);
    ScaledHalves(q2, num2, den2, den1, d, num2 * den1);
    if q1 > q2 {
      // Both values lie between q2 and q1, so q1 == q2 + 1 and they meet at the tie.
      Cancel(2 * q1 - 1, 2 * q2 + 1, d);
    }
  }

  lemma Commute(x: int, a: int, b: int)
    ensures x * a * b == x * (a * b)
  {}

  /** Rounding is a function of the rational: the result is unique. */
  lemma RoundsUnique(q1: int, num1: int, den1: int, q2: int, num2: int, den2: int)
    requires den1 > 0 && den2 > 0 && num1 * den2 == num2 * den1
    requires Rounds(q1, num1, den1) && Rounds(q2, num2, den2)
    ensures q1 == q2
  {
    RoundsMonotone(q1, num1, den1, q2, num2, den2);
    RoundsMonotone(q2, num2, den2, q1, num1, den1);
  }

  /** Rounding is odd. */
  lemma RoundsOdd(q: int, num: int, den: int)
    requires den > 0
    ensures Rounds(q, num, den) <==> Rounds(-q, -num, den)
  {
    assert (-q) * den == -(q * den);
  }

  /** q is the real v rounded to the nearest integer, ties away from zero. */
  predicate RoundsReal(q: int, v: real) {
    var d := q as real - v;
    -0.5 <= d <= 0.5 && (d == 0.5 ==> v > 0.0) && (d == -0.5 ==> v < 0.0)
  }

  /** A real rounds to at most one integer. */
  lemma RoundsRealUnique(p: int, q: int, v: real)
    requires RoundsReal(p, v) && RoundsReal(q, v)
    ensures p == q
  {
    assert p as real - q as real == (p - q) as real;
  }

  /** The converse of `Halves`. */
  lemma FromHalves(q: int, num: int, den: int)
    requires den > 0 && (2 * q - 1) * den <= 2 * num <= (2 * q + 1) * den
    requires 2 * num == (2 * q - 1) * den ==> num > 0
    requires 2 * num == (2 * q + 1) * den ==> num < 0
    ensures Rounds(q, num, den)
  {
    Odd(q, den);
    AbsScale(q, den);
  }

  /** Comparing a fraction with an integer, across its denominator or as reals. */
  lemma RealCompare(a: int, num: int, den: int, v: real)
    requires den > 0 && v * den as real == num as real
    ensures a * den <= num <==> a as real <= v
    ensures a * den == num <==> a as real == v
    ensures num <= a * den <==> v <= a as real
  {
    assert (a * den) as real == a as real * den as real;
    RealScale(a as real, v, den as real);
    RealScale(v, a as real, den as real);
  }

  lemma Twice(v: real, num: int, den: int)
    requires v * den as real == num as real
    ensures (2.0 * v) * den as real == (2 * num) as real
  {
    assert (2.0 * v) * den as real == 2.0 * (v * den as real);
  }

  /** Rounding a fraction is rounding the number it denotes. */
  lemma RoundsIsReal(q: int, num: int, den: int)
    requires den > 0
    ensures Rounds(q, num, den) <==> RoundsReal(q, num as real / den as real)
  {
    var v := num as real / den as real;
    assert v * den as real == num as real;
    Twice(v, num, den);
    RealCompare(2 * q - 1, 2 * num, den, 2.0 * v);
    RealCompare(2 * q + 1, 2 * num, den, 2.0 * v);
    RealCompare(0, num, den, v);
    HalvesIff(q, num, den);
  }

  lemma HalvesIff(q: int, num: int, den: int)
    requires den > 0
    ensures Rounds(q, num, den)
       <==> && (2 * q - 1) * den <= 2 * num <= (2 * q + 1) * den
            && (2 * num == (2 * q - 1) * den ==> num > 0)
            && (2 * num == (2 * q + 1) * den ==> num < 0)
  {
    if Rounds(q, num, den) {
      Halves(q, num, den);
    } else if (2 * q - 1) * den <= 2 * num <= (2 * q + 1) * den
            && (2 * num == (2 * q - 1) * den ==> num > 0)
            && (2 * num == (2 * q + 1) * den ==> num < 0) {
      FromHalves(q, num, den);
    }
  }

  lemma RealScale(a: real, b: real, k: real)
    requires k > 0.0
    ensures a <= b <==> a * k <= b * k
    ensures a == b <==> a * k == b * k
  {
    if a < b {
      assert (b - a) * k > 0.0;
    } else if a > b {
      assert (a - b) * k > 0.0;
    }
  }
}
