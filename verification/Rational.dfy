/** Exact rationals that are overwritten in place, as `*big.Rat` is by the
    evaluator of backend/internal/dynprice/expr.go. */
module Rational {
  import opened Rounding

  /** A mutable exact rational with a positive denominator (`*big.Rat`). Each
      operation overwrites its receiver; operands may be the receiver itself. */
  class Rat {
    var num: int
    var den: int
    // The number given at creation, to state that a constant still has it.
    ghost const num0: int
    ghost const den0: int

    ghost predicate Valid()
      reads this
    {
      den > 0
    }

    ghost function Value(): real
      reads this
      requires Valid()
    {
      Fraction(num, den)
    }

    constructor (n: int, d: int)
      requires d > 0
      ensures num == num0 == n && den == den0 == d
    {
      num, den := n, d;
      num0, den0 := n, d;
    }

    method Set(x: Rat)
      requires x.Valid()
      modifies this
      ensures Valid() && Value() == old(x.Value())
    {
      num, den := x.num, x.den;
    }

    method Negate(x: Rat)
      requires x.Valid()
      modifies this
      ensures Valid() && Value() == -old(x.Value())
    {
      FractionNeg(x.num, x.den);
      num, den := -x.num, x.den;
    }

    method Add(x: Rat, y: Rat)
      requires x.Valid() && y.Valid()
      modifies this
      ensures Valid() && Value() == old(x.Value()) + old(y.Value())
    {
      hide Fraction;
      FractionAdd(x.num, x.den, y.num, y.den);
      num, den := x.num * y.den + y.num * x.den, x.den * y.den;
    }

    method Sub(x: Rat, y: Rat)
      requires x.Valid() && y.Valid()
      modifies this
      ensures Valid() && Value() == old(x.Value()) - old(y.Value())
    {
      hide Fraction;
      FractionSub(x.num, x.den, y.num, y.den);
      num, den := x.num * y.den - y.num * x.den, x.den * y.den;
    }

    method Mul(x: Rat, y: Rat)
      requires x.Valid() && y.Valid()
      modifies this
      ensures Valid() && Value() == old(x.Value()) * old(y.Value())
    {
      hide Fraction;
      FractionMul(x.num, x.den, y.num, y.den);
      num, den := x.num * y.num, x.den * y.den;
    }

    method Quo(x: Rat, y: Rat)
      requires x.Valid() && y.Valid() && y.num != 0
      modifies this
      ensures Valid() && old(y.Value()) != 0.0 && Value() == old(x.Value()) / old(y.Value())
    {
      hide Fraction;
      FractionQuo(x.num, x.den, y.num, y.den);
      if y.num > 0 {
        num, den := x.num * y.den, x.den * y.num;
      } else {
        num, den := x.num * -y.den, x.den * -y.num;
      }
    }

    /** The sign of this - y. */
    method Cmp(y: Rat) returns (c: int)
      requires Valid() && y.Valid()
      ensures c >= 0 <==> Value() >= y.Value()
      ensures c <= 0 <==> Value() <= y.Value()
    {
      FractionCompare(num, den, y.num, y.den);
      FractionCompare(y.num, y.den, num, den);
      c := num * y.den - y.num * den;
    }
  }

  function Fraction(n: int, d: int): real
    requires d > 0
  {
    n as real / d as real
  }

  lemma FractionNeg(n: int, d: int)
    requires d > 0
    ensures Fraction(-n, d) == -Fraction(n, d)
  {}

  /** A quotient is the number that times the denominator gives the numerator. */
  lemma FractionIs(v: real, n: int, d: int)
    requires d > 0 && v * d as real == n as real
    ensures v == Fraction(n, d)
  {}

  lemma FractionAdd(a: int, b: int, c: int, d: int)
    requires b > 0 && d > 0
    ensures b * d > 0 && Fraction(a * d + c * b, b * d) == Fraction(a, b) + Fraction(c, d)
  {
    var x, y := Fraction(a, b), Fraction(c, d);
    var rb, rd := b as real, d as real;
    assert x * rb == a as real && y * rd == c as real;
    assert (b * d) as real == rb * rd;
    assert (a * d + c * b) as real == a as real * rd + c as real * rb;
    assert (x + y) * (rb * rd) == (x * rb) * rd + (y * rd) * rb;
    FractionIs(x + y, a * d + c * b, b * d);
  }

  lemma FractionSub(a: int, b: int, c: int, d: int)
    requires b > 0 && d > 0
    ensures b * d > 0 && Fraction(a * d - c * b, b * d) == Fraction(a, b) - Fraction(c, d)
  {
    FractionNeg(c, d);
    FractionAdd(a, b, -c, d);
    assert a * d - c * b == a * d + (-c) * b;
  }

  lemma FractionMul(a: int, b: int, c: int, d: int)
    requires b > 0 && d > 0
    ensures b * d > 0 && Fraction(a * c, b * d) == Fraction(a, b) * Fraction(c, d)
  {
    var x, y := Fraction(a, b), Fraction(c, d);
    var rb, rd := b as real, d as real;
    assert x * rb == a as real && y * rd == c as real;
    assert (b * d) as real == rb * rd;
    assert (a * c) as real == a as real * c as real;
    assert (x * y) * (rb * rd) == (x * rb) * (y * rd);
    FractionIs(x * y, a * c, b * d);
  }

  lemma FractionZero(a: int, b: int)
    requires b > 0
    ensures Fraction(a, b) == 0.0 <==> a == 0
  {
    assert Fraction(a, b) * b as real == a as real;
  }

  lemma FractionQuo(a: int, b: int, c: int, d: int)
    requires b > 0 && d > 0 && c != 0
    ensures Fraction(c, d) != 0.0
    ensures if c > 0 then b * c > 0 && Fraction(a * d, b * c) == Fraction(a, b) / Fraction(c, d)
            else b * -c > 0 && Fraction(a * -d, b * -c) == Fraction(a, b) / Fraction(c, d)
  {
    FractionZero(c, d);
    var x, v := Fraction(a, b), Fraction(c, d);
    var e, f := if c > 0 then d else -d, if c > 0 then c else -c;
    FractionMul(a, b, e, f);
    var w := Fraction(e, f);
    assert v * d as real == c as real && w * f as real == e as real;
    Inverse(v, w, c as real, d as real);
    Divide(x, v, w);
  }

  lemma Inverse(v: real, w: real, c: real, d: real)
    requires c != 0.0 && d != 0.0 && v * d == c && (w * c == d || w * -c == -d)
    ensures v * w == 1.0
  {
    assert w * c == d;
    assert (v * w) * d == c * w;
  }

  lemma Divide(x: real, v: real, w: real)
    requires v * w == 1.0
    ensures v != 0.0 && x * w == x / v
  {
    assert (x * w) * v == x * (v * w);
  }

  lemma FractionCompare(a: int, b: int, c: int, d: int)
    requires b > 0 && d > 0
    ensures a * d <= c * b <==> Fraction(a, b) <= Fraction(c, d)
  {
    var x, y := Fraction(a, b), Fraction(c, d);
    var rb, rd := b as real, d as real;
    assert x * rb == a as real && y * rd == c as real;
    assert (a * d) as real == (x * rb) * rd == x * (rb * rd);
    assert (c * b) as real == (y * rd) * rb == y * (rb * rd);
    RealScale(x, y, rb * rd);
  }
}
