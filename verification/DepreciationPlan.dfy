/** Depreciation plans (backend/internal/assets/depreciation.go:77-139). Amounts are
    mathematical integers in minor units. */
module DepreciationPlan {

  datatype Method = Linear | Degressive | Unknown

  datatype Line = Line(period: int, amount: int)

  datatype Outcome<+T> = Done(value: T) | Failed

  /** The arguments BuildSchedule accepts. */
  predicate ValidTerms(cost: int, m: Method, rateBps: int, periods: int) {
    cost > 0 && periods > 0 && !m.Unknown? && (m.Degressive? ==> 0 < rateBps <= 10000)
  }

  /** What a declining period takes: half-up share of the rest, at most all of it. */
  function Share(remaining: int, rateBps: int): int {
    var amount := (remaining * rateBps + 5000) / 10000;
    if amount > remaining then remaining else amount
  }

  /** Book value after n declining periods. */
  function Declined(cost: int, rateBps: int, n: nat): int {
    if n == 0 then cost else Declined(cost, rateBps, n - 1) - Share(Declined(cost, rateBps, n - 1), rateBps)
  }

  function AmountAt(cost: int, m: Method, rateBps: int, periods: int, i: nat): int
    requires ValidTerms(cost, m, rateBps, periods) && i < periods
  {
    if m.Linear? then if i == periods - 1 then cost - (cost / periods) * (periods - 1) else cost / periods
    else if i == periods - 1 then Declined(cost, rateBps, i)
    else Share(Declined(cost, rateBps, i), rateBps)
  }

  /** The planned amounts, period by period. */
  function Plan(cost: int, m: Method, rateBps: int, periods: int): (plan: seq<int>)
    requires ValidTerms(cost, m, rateBps, periods)
    ensures |plan| == periods
  {
    seq(periods, i requires 0 <= i < periods => AmountAt(cost, m, rateBps, periods, i))
  }

  /** Periods count from 1. */
  function Numbered(amounts: seq<int>): (lines: seq<Line>)
    ensures |lines| == |amounts|
    ensures forall i :: 0 <= i < |lines| ==> lines[i].period == i + 1 && lines[i].amount == amounts[i]
  {
    seq(|amounts|, i requires 0 <= i < |amounts| => Line(i + 1, amounts[i]))
  }

  function Sum(amounts: seq<int>): int {
    if amounts == [] then 0 else Sum(amounts[..|amounts| - 1]) + amounts[|amounts| - 1]
  }

  lemma SumExtend(amounts: seq<int>, n: nat)
    requires n < |amounts|
    ensures Sum(amounts[..n + 1]) == Sum(amounts[..n]) + amounts[n]
  {
    assert amounts[..n + 1][..n] == amounts[..n];
  }

  // ----- Building -----

  method BuildSchedule(cost: int, m: Method, rateBps: int, periods: int) returns (r: Outcome<seq<Line>>)
    ensures r == if ValidTerms(cost, m, rateBps, periods) then Done(Numbered(Plan(cost, m, rateBps, periods)))
                 else Failed
  {
    if cost <= 0 || periods <= 0 {
      return Failed;
    }
    match m
    case Linear => r := BuildLinear(cost, rateBps, periods);
    case Degressive =>
      if rateBps <= 0 || rateBps > 10000 {
        return Failed;
      }
      r := BuildDegressive(cost, rateBps, periods);
    case Unknown => r := Failed;
  }

  method BuildLinear(cost: int, rateBps: int, periods: int) returns (r: Outcome<seq<Line>>)
    requires cost > 0 && periods > 0
    ensures r == Done(Numbered(Plan(cost, Linear, rateBps, periods)))
  {
    var out: seq<Line> := [];
    var base, paid := cost / periods, 0;
    ghost var plan := Plan(cost, Linear, rateBps, periods);
    for i := 0 to periods
      invariant out == Numbered(plan[..i])
      invariant i < periods ==> paid == base * i
    {
      var amt := base;
      if i == periods - 1 {
        amt := cost - paid;
      }
      assert plan[i] == amt;
      assert plan[..i + 1] == plan[..i] + [plan[i]];
      out := out + [Line(i + 1, amt)];
      paid := paid + amt;
      assert base * (i + 1) == base * i + base;
    }
    assert plan[..periods] == plan;
    r := Done(out);
  }

  method BuildDegressive(cost: int, rateBps: int, periods: int) returns (r: Outcome<seq<Line>>)
    requires ValidTerms(cost, Degressive, rateBps, periods)
    ensures r == Done(Numbered(Plan(cost, Degressive, rateBps, periods)))
  {
    var out: seq<Line> := [];
    var remaining := cost;
    ghost var plan := Plan(cost, Degressive, rateBps, periods);
    for i := 0 to periods
      invariant out == Numbered(plan[..i])
      invariant i < periods ==> remaining == Declined(cost, rateBps, i)
    {
      var amt;
      if i == periods - 1 {
        amt := remaining;
      } else {
        amt := (remaining * rateBps + 5000) / 10000;
        if amt > remaining {
          amt := remaining;
        }
      }
      assert plan[i] == amt;
      assert plan[..i + 1] == plan[..i] + [plan[i]];
      out := out + [Line(i + 1, amt)];
      remaining := remaining - amt;
    }
    assert plan[..periods] == plan;
    r := Done(out);
  }

  // ----- What plans promise -----

  lemma ShareBounds(remaining: int, rateBps: int)
    requires remaining >= 0 && 0 < rateBps <= 10000
    ensures 0 <= Share(remaining, rateBps) <= remaining
  {
    assert remaining * rateBps >= 0;
  }

  /** A smaller rest has no larger share. */
  lemma ShareMonotone(a: int, b: int, rateBps: int)
    requires 0 <= a <= b && 0 < rateBps <= 10000
    ensures Share(a, rateBps) <= Share(b, rateBps)
  {
    assert a * rateBps <= b * rateBps;
    QuotientMonotone(a * rateBps + 5000, b * rateBps + 5000);
  }

  lemma QuotientMonotone(x: int, y: int)
    requires x <= y
    ensures x / 10000 <= y / 10000
  {}

  lemma {:induction false} DeclinedBounds(cost: int, rateBps: int, n: nat)
    requires cost > 0 && 0 < rateBps <= 10000
    ensures 0 <= Declined(cost, rateBps, n) <= cost
  {
    if n > 0 {
      DeclinedBounds(cost, rateBps, n - 1);
      ShareBounds(Declined(cost, rateBps, n - 1), rateBps);
    }
  }

  lemma LinearParts(cost: int, periods: int)
    requires cost > 0 && periods > 0
    ensures var base := cost / periods; base >= 0 && base <= cost - base * (periods - 1) < base + periods
  {
    var base := cost / periods;
    assert cost == base * periods + cost % periods;
    assert base * (periods - 1) == base * periods - base;
  }

  lemma {:induction false} PlannedSoFar(cost: int, m: Method, rateBps: int, periods: int, n: nat)
    requires ValidTerms(cost, m, rateBps, periods) && n < periods
    ensures Sum(Plan(cost, m, rateBps, periods)[..n])
         == if m.Linear? then cost / periods * n else cost - Declined(cost, rateBps, n)
    decreases n
  {
    var plan := Plan(cost, m, rateBps, periods);
    if n > 0 {
      PlannedSoFar(cost, m, rateBps, periods, n - 1);
      SumExtend(plan, n - 1);
      assert cost / periods * n == cost / periods * (n - 1) + cost / periods;
    }
  }

  /** Every plan adds up to exactly the cost. */
  lemma PlanSumsToCost(cost: int, m: Method, rateBps: int, periods: int)
    requires ValidTerms(cost, m, rateBps, periods)
    ensures Sum(Plan(cost, m, rateBps, periods)) == cost
  {
    var plan := Plan(cost, m, rateBps, periods);
    PlannedSoFar(cost, m, rateBps, periods, periods - 1);
    SumExtend(plan, periods - 1);
    assert plan[..periods] == plan;
  }

  lemma PlanNotNegative(cost: int, m: Method, rateBps: int, periods: int, i: nat)
    requires ValidTerms(cost, m, rateBps, periods) && i < periods
    ensures Plan(cost, m, rateBps, periods)[i] >= 0
  {
    if m.Linear? {
      LinearParts(cost, periods);
    } else {
      DeclinedBounds(cost, rateBps, i);
      ShareBounds(Declined(cost, rateBps, i), rateBps);
    }
  }

  /** Non-final declining amounts never increase. */
  lemma {:induction false} DegressiveDeclines(cost: int, rateBps: int, periods: int, i: nat, j: nat)
    requires ValidTerms(cost, Degressive, rateBps, periods) && i <= j < periods - 1
    ensures var plan := Plan(cost, Degressive, rateBps, periods); plan[j] <= plan[i]
    decreases j
  {
    if i < j {
      DegressiveDeclines(cost, rateBps, periods, i, j - 1);
      DeclinedBounds(cost, rateBps, j - 1);
      ShareBounds(Declined(cost, rateBps, j - 1), rateBps);
      DeclinedBounds(cost, rateBps, j);
      ShareMonotone(Declined(cost, rateBps, j), Declined(cost, rateBps, j - 1), rateBps);
    }
  }

  /** What a period but the last takes: of a linear plan the period's part of the cost, rounded
      down; of a declining one the rate's share of the book value, rounded half up. */
  lemma AmountIsShare(cost: int, m: Method, rateBps: int, periods: int, i: nat)
    requires ValidTerms(cost, m, rateBps, periods) && i < periods - 1
    ensures var plan := Plan(cost, m, rateBps, periods);
            var amount, book := plan[i], cost - Sum(plan[..i]);
            && (m.Linear? ==> amount * periods <= cost < (amount + 1) * periods)
            && (m.Degressive? ==> 20000 * amount - 10000 <= 2 * (book * rateBps) < 20000 * amount + 10000)
  {
    PlannedSoFar(cost, m, rateBps, periods, i);
    if m.Linear? {
      assert cost == periods * (cost / periods) + cost % periods;
    } else {
      DeclinedBounds(cost, rateBps, i);
      WholeShare(Declined(cost, rateBps, i), rateBps);
    }
  }

  /** The share never has to be cut to the rest. */
  lemma WholeShare(remaining: int, rateBps: int)
    requires remaining >= 0 && 0 < rateBps <= 10000
    ensures Share(remaining, rateBps) == (remaining * rateBps + 5000) / 10000
  {
    assert remaining * rateBps <= remaining * 10000;
  }

  predicate AllPositive(amounts: seq<int>) {
    forall i :: 0 <= i < |amounts| ==> amounts[i] > 0
  }

  /** A linear plan has no zero amount exactly when every period gets a minor unit. */
  lemma LinearPositiveIff(cost: int, rateBps: int, periods: int)
    requires ValidTerms(cost, Linear, rateBps, periods)
    ensures AllPositive(Plan(cost, Linear, rateBps, periods)) <==> cost >= periods
  {
    var plan, base := Plan(cost, Linear, rateBps, periods), cost / periods;
    LinearParts(cost, periods);
    assert cost == base * periods + cost % periods;
    assert base <= 0 ==> base * periods <= 0;
    assert base >= 1 ==> base * periods >= periods;
    if cost < periods {
      assert plan[0] == 0;
    }
  }

  /** The share is neither nothing nor everything exactly when both it and the rest round
      to at least one unit. */
  lemma ShareProper(remaining: int, rateBps: int)
    requires remaining >= 0 && 0 < rateBps <= 10000
    ensures Share(remaining, rateBps) > 0 <==> remaining * rateBps >= 5000
    ensures Share(remaining, rateBps) < remaining <==> remaining * (10000 - rateBps) > 5000
  {
    var x := remaining * rateBps;
    assert remaining * (10000 - rateBps) == 10000 * remaining - x;
    assert x <= 10000 * remaining;
  }

  /** A declining plan has no zero amount exactly when it has one period only, or the book
      value before the last two is large enough to be split by the rate. */
  lemma DegressivePositiveIff(cost: int, rateBps: int, periods: int)
    requires ValidTerms(cost, Degressive, rateBps, periods)
    ensures AllPositive(Plan(cost, Degressive, rateBps, periods))
       <==> periods == 1 ||
            var book := Declined(cost, rateBps, periods - 2);
            book * rateBps >= 5000 && book * (10000 - rateBps) > 5000
  {
    var plan := Plan(cost, Degressive, rateBps, periods);
    if periods == 1 {
      assert plan[0] == cost;
    } else {
      var book := Declined(cost, rateBps, periods - 2);
      DeclinedBounds(cost, rateBps, periods - 2);
      ShareProper(book, rateBps);
      assert plan[periods - 2] == Share(book, rateBps);
      assert plan[periods - 1] == book - Share(book, rateBps);
      forall i: nat | i < periods - 1
        ensures plan[periods - 2] <= plan[i]
      {
        DegressiveDeclines(cost, rateBps, periods, i, periods - 2);
      }
    }
  }

  /** Prefix sums never exceed the cost, and reach it only when the rest is zero. */
  lemma {:induction false} PrefixWithinCost(cost: int, m: Method, rateBps: int, periods: int, n: nat)
    requires ValidTerms(cost, m, rateBps, periods) && n <= periods
    ensures 0 <= Sum(Plan(cost, m, rateBps, periods)[..n]) <= cost
    decreases periods - n
  {
    var plan := Plan(cost, m, rateBps, periods);
    if n == periods {
      PlanSumsToCost(cost, m, rateBps, periods);
      assert plan[..n] == plan;
    } else {
      PrefixWithinCost(cost, m, rateBps, periods, n + 1);
      SumExtend(plan, n);
      PlanNotNegative(cost, m, rateBps, periods, n);
      if m.Linear? {
        PlannedSoFar(cost, m, rateBps, periods, n);
        assert cost / periods * n >= 0;
      } else {
        PlannedSoFar(cost, m, rateBps, periods, n);
        DeclinedBounds(cost, rateBps, n);
      }
    }
  }
}
