/** Year-end closing: the legs that carry profit and loss forward to retained earnings
    (backend/internal/finance/tax.go:162-211). */
module Closing {
  import opened Entries
  import opened Ledger
  import opened Options
  import opened Sets

  type Chart = map<int, Account>

  /** An entity's chart of accounts. */
  function ChartOf(accounts: map<int, Account>, entity: int): Chart {
    map id | id in accounts && accounts[id].entity == entity :: accounts[id]
  }

  predicate IsPnl(chart: Chart, a: int) {
    a in chart && (chart[a].kind.Revenue? || chart[a].kind.Expense?)
  }

  // ----- BuildClosingLines -----

  /** The leg that zeroes a profit-and-loss account. */
  function ClosingLeg(trial: Trial, chart: Chart, a: int): Option<EntryLine>
    requires a in trial
  {
    var (dr, cr) := trial[a];
    if !IsPnl(chart, a) || dr == cr then None
    else if chart[a].kind.Revenue? then Some(EntryLine(a, "closing " + chart[a].code, cr - dr, 0, 0))
    else Some(EntryLine(a, "closing " + chart[a].code, 0, dr - cr, 0))
  }

  predicate Within(order: seq<int>, trial: Trial) {
    forall i :: 0 <= i < |order| ==> order[i] in trial
  }

  /** The closing legs in the order the trial balance is ranged over. */
  function ClosingLegs(trial: Trial, chart: Chart, order: seq<int>): seq<EntryLine>
    requires Within(order, trial)
  {
    if order == [] then []
    else
      var leg := ClosingLeg(trial, chart, order[|order| - 1]);
      ClosingLegs(trial, chart, order[..|order| - 1]) + if leg.Some? then [leg.value] else []
  }

  /** The running income of the same loop: revenue minus expense. */
  function Income(trial: Trial, chart: Chart, order: seq<int>): int
    requires Within(order, trial)
  {
    if order == [] then 0
    else
      var a := order[|order| - 1];
      Income(trial, chart, order[..|order| - 1]) + if IsPnl(chart, a) then trial[a].1 - trial[a].0 else 0
  }

  function RetainedLeg(retained: int, income: int): EntryLine {
    if income > 0 then EntryLine(retained, "net income", 0, income, 0)
    else EntryLine(retained, "net loss", -income, 0, 0)
  }

  /** Insertion keeping account order; equal accounts keep their order. */
  function InsertLeg(sorted: seq<EntryLine>, l: EntryLine): seq<EntryLine> {
    if sorted == [] || sorted[|sorted| - 1].account <= l.account then sorted + [l]
    else InsertLeg(sorted[..|sorted| - 1], l) + [sorted[|sorted| - 1]]
  }

  function SortLegs(lines: seq<EntryLine>): seq<EntryLine> {
    if lines == [] then [] else InsertLeg(SortLegs(lines[..|lines| - 1]), lines[|lines| - 1])
  }

  function BuildClosing(trial: Trial, chart: Chart, retained: int, order: seq<int>): Outcome<seq<EntryLine>>
    requires Within(order, trial)
  {
    var legs, income := ClosingLegs(trial, chart, order), Income(trial, chart, order);
    if retained !in chart then Failed(UnknownRetained)
    else if legs == [] then Failed(NothingToClose)
    else if income == 0 then Failed(ZeroIncome)
    else Done(SortLegs(legs + [RetainedLeg(retained, income)]))
  }

  // ----- What the legs add up to -----

  /** Rearranged legs: the same totals, the same sums on account a, the same validity. */
  predicate SameSums(r: seq<EntryLine>, s: seq<EntryLine>, a: int) {
    && |r| == |s| && Debits(r) == Debits(s) && Credits(r) == Credits(s)
    && DebitOn(r, a) == DebitOn(s, a) && CreditOn(r, a) == CreditOn(s, a)
    && (GoodLegs(r) <==> GoodLegs(s))
  }

  predicate SortedByAccount(lines: seq<EntryLine>) {
    forall i, j :: 0 <= i < j < |lines| ==> lines[i].account <= lines[j].account
  }

  lemma {:induction false} InsertLegSums(sorted: seq<EntryLine>, l: EntryLine, a: int)
    ensures SameSums(InsertLeg(sorted, l), sorted + [l], a)
  {
    if !(sorted == [] || sorted[|sorted| - 1].account <= l.account) {
      var n := |sorted| - 1;
      var shorter, last := sorted[..n], sorted[n];
      InsertLegSums(shorter, l, a);
      var inner := InsertLeg(shorter, l);
      assert (inner + [last])[..|inner|] == inner;
      assert (sorted + [l])[..|sorted|] == sorted && (shorter + [l])[..n] == shorter;
      SwapGood(shorter, l, last);
      GoodAppend(inner, last);
      GoodAppend(shorter + [l], last);
    }
  }

  predicate AtMost(lines: seq<EntryLine>, top: int) {
    forall i :: 0 <= i < |lines| ==> lines[i].account <= top
  }

  lemma {:induction false} InsertLegAtMost(sorted: seq<EntryLine>, l: EntryLine, top: int)
    requires AtMost(sorted, top) && l.account <= top
    ensures AtMost(InsertLeg(sorted, l), top)
  {
    if !(sorted == [] || sorted[|sorted| - 1].account <= l.account) {
      InsertLegAtMost(sorted[..|sorted| - 1], l, top);
    }
  }

  lemma SortedAppend(lines: seq<EntryLine>, last: EntryLine)
    requires SortedByAccount(lines) && AtMost(lines, last.account)
    ensures SortedByAccount(lines + [last])
  {}

  lemma {:induction false} InsertLegSorted(sorted: seq<EntryLine>, l: EntryLine)
    requires SortedByAccount(sorted)
    ensures SortedByAccount(InsertLeg(sorted, l))
  {
    if sorted == [] || sorted[|sorted| - 1].account <= l.account {
      SortedAppend(sorted, l);
    } else {
      var shorter, last := sorted[..|sorted| - 1], sorted[|sorted| - 1];
      InsertLegSorted(shorter, l);
      InsertLegAtMost(shorter, l, last.account);
      SortedAppend(InsertLeg(shorter, l), last);
    }
  }

  /** Sorting orders the legs by account and changes no sum. */
  lemma {:induction false} SortLegsKeeps(lines: seq<EntryLine>, a: int)
    ensures SortedByAccount(SortLegs(lines)) && SameSums(SortLegs(lines), lines, a)
  {
    if lines != [] {
      var n := |lines| - 1;
      var shorter, last := lines[..n], lines[n];
      SortLegsKeeps(shorter, a);
      InsertLegSorted(SortLegs(shorter), last);
      InsertLegSums(SortLegs(shorter), last, a);
      assert lines == shorter + [last];
      AppendSameSums(SortLegs(shorter), shorter, last, a);
    }
  }

  lemma AppendSameSums(r: seq<EntryLine>, s: seq<EntryLine>, l: EntryLine, a: int)
    requires SameSums(r, s, a)
    ensures SameSums(r + [l], s + [l], a)
  {
    assert (r + [l])[..|r|] == r && (s + [l])[..|s|] == s;
    GoodAppend(r, l);
    GoodAppend(s, l);
  }

  lemma SwapGood(shorter: seq<EntryLine>, l: EntryLine, last: EntryLine)
    ensures GoodLegs(shorter + [last] + [l]) <==> GoodLegs(shorter + [l] + [last])
  {
    GoodAppend(shorter, last);
    GoodAppend(shorter, l);
    GoodAppend(shorter + [last], l);
    GoodAppend(shorter + [l], last);
  }

  /** How much a profit-and-loss account is credited net of debits; 0 elsewhere. */
  function PnlNet(trial: Trial, chart: Chart, a: int): int {
    if IsPnl(chart, a) then At(trial, a).1 - At(trial, a).0 else 0
  }

  predicate Distinct(order: seq<int>) {
    forall i, j :: 0 <= i < j < |order| ==> order[i] != order[j]
  }

  /** Extending the order by one account appends its closing leg, if any. */
  lemma LegsExtend(trial: Trial, chart: Chart, order: seq<int>, b: int)
    requires Within(order, trial) && b in trial
    ensures var before, leg := ClosingLegs(trial, chart, order), ClosingLeg(trial, chart, b);
            && Within(order + [b], trial)
            && ClosingLegs(trial, chart, order + [b]) == (if leg.Some? then before + [leg.value] else before)
            && Income(trial, chart, order + [b]) == Income(trial, chart, order) + PnlNet(trial, chart, b)
  {
    assert (order + [b])[..|order|] == order;
  }

  /** Each closed account gets a net debit equal to its net credit, all others nothing;
      together the legs are out of balance by exactly the income. */
  lemma {:induction false} ClosingLegsSums(trial: Trial, chart: Chart, order: seq<int>, a: int)
    requires Within(order, trial) && Distinct(order)
    ensures var legs := ClosingLegs(trial, chart, order);
            && DebitOn(legs, a) - CreditOn(legs, a) == (if a in order then PnlNet(trial, chart, a) else 0)
            && Debits(legs) - Credits(legs) == Income(trial, chart, order)
            && (!IsPnl(chart, a) ==> DebitOn(legs, a) == 0 && CreditOn(legs, a) == 0)
  {
    if order != [] {
      var shorter, b := order[..|order| - 1], order[|order| - 1];
      assert order == shorter + [b] && b !in shorter;
      ClosingLegsSums(trial, chart, shorter, a);
      LegsExtend(trial, chart, shorter, b);
      var before, leg := ClosingLegs(trial, chart, shorter), ClosingLeg(trial, chart, b);
      if leg.Some? {
        LegAdds(before, leg.value, a);
      }
      hide ClosingLegs, Income, DebitOn, CreditOn, Debits, Credits;
    }
  }

  /** There is nothing to close exactly when every profit-and-loss account nets to zero. */
  lemma {:induction false} NoLegsIff(trial: Trial, chart: Chart, order: seq<int>)
    requires Within(order, trial)
    ensures ClosingLegs(trial, chart, order) == []
       <==> forall i :: 0 <= i < |order| ==> PnlNet(trial, chart, order[i]) == 0
  {
    if order != [] {
      var shorter, b := order[..|order| - 1], order[|order| - 1];
      assert order == shorter + [b];
      NoLegsIff(trial, chart, shorter);
      LegsExtend(trial, chart, shorter, b);
    }
  }

  /** Revenue accounts with a credit balance and expense accounts with a debit balance. */
  predicate Normal(trial: Trial, chart: Chart, a: int)
    requires a in trial
  {
    a in chart ==>
      match chart[a].kind
      case Revenue => trial[a].0 <= trial[a].1
      case Expense => trial[a].1 <= trial[a].0
      case _ => true
  }

  /** The closing legs are valid legs exactly when no closed account has the wrong-sided balance. */
  lemma {:induction false} ClosingLegsGood(trial: Trial, chart: Chart, order: seq<int>)
    requires Within(order, trial) && 0 !in chart
    ensures GoodLegs(ClosingLegs(trial, chart, order))
       <==> forall i :: 0 <= i < |order| ==> Normal(trial, chart, order[i])
  {
    if order != [] {
      var n := |order| - 1;
      ClosingLegsGood(trial, chart, order[..n]);
      assert order == order[..n] + [order[n]];
      var before, leg := ClosingLegs(trial, chart, order[..n]), ClosingLeg(trial, chart, order[n]);
      if leg.Some? {
        GoodAppend(before, leg.value);
      }
      assert before + [] == before;
    }
  }

  function PnlNets(trial: Trial, chart: Chart): map<int, int> {
    map a | a in trial && a in chart && (chart[a].kind.Revenue? || chart[a].kind.Expense?)
      :: trial[a].1 - trial[a].0
  }

  /** Net income of the trial balance: total revenue minus total expense. */
  ghost function NetIncome(trial: Trial, chart: Chart): int {
    Total(PnlNets(trial, chart))
  }

  function PartNets(trial: Trial, chart: Chart, order: seq<int>): map<int, int>
    requires Within(order, trial)
  {
    map a | a in order && IsPnl(chart, a) :: PnlNet(trial, chart, a)
  }

  lemma PartNetsExtend(trial: Trial, chart: Chart, order: seq<int>, b: int)
    requires Within(order, trial) && b in trial && b !in order
    ensures Within(order + [b], trial)
    ensures Total(PartNets(trial, chart, order + [b])) == Total(PartNets(trial, chart, order)) + PnlNet(trial, chart, b)
  {
    var rest := PartNets(trial, chart, order);
    if IsPnl(chart, b) {
      assert PartNets(trial, chart, order + [b]) == rest[b := PnlNet(trial, chart, b)];
      TotalSet(rest, b, PnlNet(trial, chart, b));
    } else {
      assert PartNets(trial, chart, order + [b]) == rest;
    }
  }

  lemma {:induction false} IncomeOfPart(trial: Trial, chart: Chart, order: seq<int>)
    requires Within(order, trial) && Distinct(order)
    ensures Income(trial, chart, order) == Total(PartNets(trial, chart, order))
  {
    if order == [] {
      assert PartNets(trial, chart, order) == map[];
    } else {
      var shorter, b := order[..|order| - 1], order[|order| - 1];
      assert order == shorter + [b] && b !in shorter;
      IncomeOfPart(trial, chart, shorter);
      LegsExtend(trial, chart, shorter, b);
      PartNetsExtend(trial, chart, shorter, b);
    }
  }

  /** The income does not depend on the order in which the trial balance is ranged over. */
  lemma IncomeIsNetIncome(trial: Trial, chart: Chart, order: seq<int>)
    requires Enumerates(order, trial.Keys)
    ensures Within(order, trial) && Income(trial, chart, order) == NetIncome(trial, chart)
  {
    forall i | 0 <= i < |order|
      ensures order[i] in trial
    {
      assert order[i] in trial.Keys;
    }
    IncomeOfPart(trial, chart, order);
    var whole, part := PnlNets(trial, chart), PartNets(trial, chart, order);
    forall a
      ensures a in whole <==> a in part
      ensures a in whole ==> whole[a] == part[a]
    {
      assert a in trial.Keys <==> a in order;
    }
    assert whole == part;
  }

  /** What a successful build does: it zeroes every profit-and-loss account, moves the
      retained account by the net income, touches nothing else, and balances. */
  lemma ClosingEffect(trial: Trial, chart: Chart, retained: int, order: seq<int>, a: int)
    requires Enumerates(order, trial.Keys) && Within(order, trial)
    requires BuildClosing(trial, chart, retained, order).Done?
    ensures var lines := BuildClosing(trial, chart, retained, order).value;
            var income := NetIncome(trial, chart);
            && income != 0 && |lines| >= 2 && SortedByAccount(lines) && Debits(lines) == Credits(lines)
            && CreditOn(lines, a) - DebitOn(lines, a)
               == -PnlNet(trial, chart, a) + (if a == retained then income else 0)
            && (a != retained && !IsPnl(chart, a) ==> CreditOn(lines, a) == 0 && DebitOn(lines, a) == 0)
  {
    var legs := ClosingLegs(trial, chart, order);
    IncomeIsNetIncome(trial, chart, order);
    var last := RetainedLeg(retained, Income(trial, chart, order));
    ClosingLegsSums(trial, chart, order, a);
    assert a !in order ==> a !in trial;
    assert (legs + [last])[..|legs|] == legs;
    SortLegsKeeps(legs + [last], a);
  }

  /** The built entry passes validation exactly when no closed account has a wrong-sided balance. */
  lemma ClosingValid(trial: Trial, chart: Chart, retained: int, order: seq<int>, journal: int)
    requires Enumerates(order, trial.Keys) && Within(order, trial) && 0 !in chart
    requires BuildClosing(trial, chart, retained, order).Done?
    ensures Balanced(journal, BuildClosing(trial, chart, retained, order).value)
       <==> journal != 0 && forall a :: a in trial ==> Normal(trial, chart, a)
  {
    var legs := ClosingLegs(trial, chart, order);
    var last := RetainedLeg(retained, Income(trial, chart, order));
    ClosingEffect(trial, chart, retained, order, 0);
    ClosingLegsGood(trial, chart, order);
    SortLegsKeeps(legs + [last], 0);
    GoodAppend(legs, last);
    var lines := SortLegs(legs + [last]);
    if GoodLegs(lines) {
      GoodDebitsPositive(lines);
    }
    assert (forall i :: 0 <= i < |order| ==> Normal(trial, chart, order[i]))
      <==> (forall a :: a in trial ==> Normal(trial, chart, a)) by {
      assert forall a :: a in trial ==> a in order;
    }
  }
}
