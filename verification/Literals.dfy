/** The number a literal of a price expression spells, place by place
    (backend/internal/dynprice/expr.go:134-156), and what Eval makes of it. */
module Literals {
  import opened Integers
  import opened PriceEval
  import PriceSyntax
  import opened Rational
  import opened Rounding
  import opened Text

  /** Digits behind the point: each place is worth a tenth of the one before it. */
  function Behind(s: string): real
    requires AllDigits(s)
  {
    if s == "" then 0.0 else (DigitOf(s[0]) as real + Behind(s[1..])) / 10.0
  }

  /** The digits before the point count whole units, those behind it tenths, hundredths, ... */
  function Spelled(lit: string): real
    requires PriceSyntax.GoodLiteral(lit)
  {
    var k := IndexOf(lit, '.');
    PriceSyntax.DigitsAroundDot(lit);
    DigitsValue(lit[..k]) as real + if k < |lit| then Behind(lit[k + 1..]) else 0.0
  }

  /** A zero behind the point changes nothing, and without a point the digits are the number. */
  lemma TrailingZero(digits: nat, decimals: nat, input: Input)
    ensures Meaning(PriceSyntax.Num(digits, 0), input) == Value(digits as real)
    ensures Meaning(PriceSyntax.Num(10 * digits, decimals + 1), input)
         == Meaning(PriceSyntax.Num(digits, decimals), input)
  {
    var p := Pow10(decimals);
    var v := Fraction(digits, p);
    assert v * p as real == digits as real;
    assert v * (10 * p) as real == 10.0 * (v * p as real);
    FractionIs(v, 10 * digits, 10 * p);
  }

  /** Digits read through the point, scaled down, are the digits before it and those behind it. */
  lemma {:induction false} DigitsSplit(before: string, behind: string)
    requires AllDigits(before) && AllDigits(behind)
    ensures AllDigits(before + behind)
    ensures Fraction(DigitsValue(before + behind), Pow10(|behind|)) == DigitsValue(before) as real + Behind(behind)
    decreases |behind|
  {
    if behind == "" {
      assert before + behind == before;
    } else {
      var next, rest := before + [behind[0]], behind[1..];
      assert next + rest == before + behind;
      assert next[..|before|] == before;
      DigitsSplit(next, rest);
      Tenth(DigitsValue(before + behind), Pow10(|rest|));
      assert DigitsValue(next) == DigitsValue(before) * 10 + DigitOf(behind[0]);
    }
  }

  lemma Tenth(n: int, p: int)
    requires p > 0
    ensures Fraction(n, 10 * p) == Fraction(n, p) / 10.0
  {
    var v := Fraction(n, p);
    assert v * p as real == n as real;
    assert v / 10.0 * (10 * p) as real == v * p as real;
    FractionIs(v / 10.0, n, 10 * p);
  }

  /** A literal means the number it spells. */
  lemma LiteralMeaning(lit: string, input: Input)
    requires PriceSyntax.GoodLiteral(lit)
    ensures Meaning(PriceSyntax.LiteralTree(lit), input) == Value(Spelled(lit))
  {
    var k := IndexOf(lit, '.');
    PriceSyntax.DigitsAroundDot(lit);
    if k < |lit| {
      DigitsSplit(lit[..k], lit[k + 1..]);
    } else {
      assert lit[..k] == lit;
      TrailingZero(DigitsValue(lit), 0, input);
    }
  }

  /** The outcome owed for a number without failing operations: it rounded, if that fits. */
  lemma Owed(v: real, expression: string, e: PriceSyntax.Expr, input: Input, r: Outcome<int>, q: int)
    requires PriceSyntax.Parse(expression) == PriceSyntax.Ok(e) && Meaning(e, input) == Value(v)
    requires EvalSpec(expression, input, r) && RoundsReal(q, v)
    ensures r == if IsInt64(q) then Value(q) else Failed(OutOfRange)
  {
    hide PriceSyntax.Parse, Meaning, RoundsReal;
    forall p | RoundsReal(p, v)
      ensures p == q
    {
      RoundsRealUnique(p, q, v);
    }
  }

  /** Eval of a literal gives the number it spells, rounded. */
  lemma EvalOfLiteral(lit: string, input: Input, r: Outcome<int>, q: int)
    requires PriceSyntax.GoodLiteral(lit) && EvalSpec(lit, input, r) && RoundsReal(q, Spelled(lit))
    ensures r == if IsInt64(q) then Value(q) else Failed(OutOfRange)
  {
    var c := PriceSyntax.CNum("", lit);
    assert PriceSyntax.Source(c) + "" == lit;
    hide Meaning, Spelled, EvalSpec;
    PriceSyntax.ParseComplete(c, "");
    LiteralMeaning(lit, input);
    Owed(Spelled(lit), lit, PriceSyntax.LiteralTree(lit), input, r, q);
  }

  /** Eval of "base * lit" gives the base times the number the literal spells, rounded. */
  lemma EvalOfMarkUp(lit: string, input: Input, r: Outcome<int>, v: real, q: int)
    requires PriceSyntax.GoodLiteral(lit) && EvalSpec("base * " + lit, input, r)
    requires v == input.base as real * Spelled(lit) && RoundsReal(q, v)
    ensures r == if IsInt64(q) then Value(q) else Failed(OutOfRange)
  {
    MarkUpParses(lit);
    LiteralMeaning(lit, input);
    TimesBase(PriceSyntax.LiteralTree(lit), Spelled(lit), input);
    assert v == Product(input.base as real, Spelled(lit));
    hide Spelled, EvalSpec, RoundsReal, PriceSyntax.LiteralTree, PriceSyntax.GoodLiteral, Product, Meaning;
    var e := PriceSyntax.Bin(PriceSyntax.Mul, PriceSyntax.Var(PriceSyntax.Base), PriceSyntax.LiteralTree(lit));
    Owed(v, "base * " + lit, e, input, r, q);
  }

  lemma TimesBase(e: PriceSyntax.Expr, x: real, input: Input)
    requires Meaning(e, input) == Value(x)
    ensures Meaning(PriceSyntax.Bin(PriceSyntax.Mul, PriceSyntax.Var(PriceSyntax.Base), e), input)
         == Value(Product(input.base as real, x))
  {
    hide Product;
    assert Meaning(PriceSyntax.Var(PriceSyntax.Base), input) == Value(input.base as real);
  }

  lemma MarkUpParses(lit: string)
    requires PriceSyntax.GoodLiteral(lit)
    ensures PriceSyntax.Parse("base * " + lit) == PriceSyntax.Ok(
              PriceSyntax.Bin(PriceSyntax.Mul, PriceSyntax.Var(PriceSyntax.Base), PriceSyntax.LiteralTree(lit)))
  {
    var base, number := PriceSyntax.CVar("", "base"), PriceSyntax.CNum(" ", lit);
    var product := PriceSyntax.CBin(base, " ", '*', number);
    hide PriceSyntax.Parse, PriceSyntax.GoodLiteral, PriceSyntax.LiteralTree;
    assert PriceSyntax.IsWord("base") && PriceSyntax.ToLower("base") == "base" by {
      assert PriceSyntax.VariableName(PriceSyntax.Base) == "base";
    }
    hide PriceSyntax.ToLower, PriceSyntax.IsWord;
    assert PriceSyntax.Blank("") && PriceSyntax.Blank(" ");
    assert PriceSyntax.Wf(base, PriceSyntax.Term) && PriceSyntax.Wf(number, PriceSyntax.Factor);
    assert PriceSyntax.Wf(product, PriceSyntax.Sum);
    assert PriceSyntax.Source(product) + "" == "base * " + lit;
    PriceSyntax.ParseComplete(product, "");
  }

  /** A price of 1000 marked up by a fifth is 1200. */
  lemma FifthOnTop(qty: int, cost: int, r: Outcome<int>)
    requires EvalSpec("base * 1.2", Input(1000, qty, cost), r)
    ensures r == Value(1200)
  {
    OnePointTwo();
    assert "base * " + "1.2" == "base * 1.2";
    hide Spelled, EvalSpec;
    EvalOfMarkUp("1.2", Input(1000, qty, cost), r, 1200.0, 1200);
  }

  lemma OnePointTwo()
    ensures PriceSyntax.GoodLiteral("1.2") && Spelled("1.2") == 1.2
  {
    var lit := "1.2";
    assert lit[..2] == "1." && "1."[..1] == "1" && "1"[..0] == "";
    assert Count("1", '.') == 0 && Count("1.", '.') == 1;
    IndexOfIs(lit, '.', 1);
    assert lit[..1] == "1" && lit[2..] == "2" && "2"[1..] == "";
    assert DigitsValue("1") == 1;
    assert Behind("2") == 0.2;
  }
}
