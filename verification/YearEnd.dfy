/** What a year-end close does to the accounts, when it succeeds, and what holds along
    every run of the fiscal-year machine. */
module YearEnd {
  import opened Chain
  import opened Closing
  import opened Entries
  import opened FiscalYears
  import opened Ledger
  import opened Options
  import opened Sets

  // ----- One close -----

  lemma SumsAppend(entries: seq<Entry>, e: Entry, entity: int, a: int)
    ensures var (d, c) := SumsOn(entries, entity, a);
            SumsOn(entries + [e], entity, a)
            == if e.entity == entity && e.status == Posted then (d + DebitOn(e.lines, a), c + CreditOn(e.lines, a))
                else (d, c)
  {
    assert (entries + [e])[..|entries|] == entries;
  }

  /** What the entity's books hold on account a: credits minus debits. */
  function NetOn(s: State, entity: int, a: int): int {
    SumsOn(s.books.entries, entity, a).1 - SumsOn(s.books.entries, entity, a).0
  }

  /** A revenue or expense account of the entity. */
  predicate ProfitOrLoss(s: State, entity: int, a: int) {
    && a in s.books.accounts && s.books.accounts[a].entity == entity
    && (s.books.accounts[a].kind.Revenue? || s.books.accounts[a].kind.Expense?)
  }

  lemma ProfitOrLossIs(s: State, entity: int, a: int)
    ensures ProfitOrLoss(s, entity, a) <==> IsPnl(ChartFor(s, entity), a)
  {}

  /** Every revenue and expense account of the entity nets to zero. */
  ghost predicate PnlZero(s: State, entity: int) {
    forall a :: ProfitOrLoss(s, entity, a) ==> NetOn(s, entity, a) == 0
  }

  lemma PnlNetIsNetOn(s: State, entity: int, a: int)
    ensures IsPnl(ChartFor(s, entity), a) ==> PnlNet(TrialFor(s, entity), ChartFor(s, entity), a) == NetOn(s, entity, a)
  {
    TrialShowsSums(s.books.entries, entity, a);
  }

  lemma CloseEntryAdded(s: State, cmd: CloseCmd, order: seq<int>, hash: string -> string)
    requires Closing.Within(order, TrialFor(s, cmd.entity))
    requires CloseYear(s, cmd, order, hash).1.Done?
    ensures var (t, r) := CloseYear(s, cmd, order, hash);
            var lines := BuildClosing(TrialFor(s, cmd.entity), ChartFor(s, cmd.entity), cmd.retained, order);
            && lines.Done? && t.books.entries == s.books.entries + [r.value] && t.books.accounts == s.books.accounts
            && r.value.entity == cmd.entity && r.value.status == Posted && r.value.lines == lines.value
  {
    var found := FindYear(s.books.years, cmd.entity, cmd.year);
    var lines := BuildClosing(TrialFor(s, cmd.entity), ChartFor(s, cmd.entity), cmd.retained, order);
    PostEffect(s.books, CloseEntry(s.books.years[found.value], cmd, lines.value), hash);
    hide Post, BuildClosing, TrialFor, ChartFor, FindYear;
  }

  lemma NetAfter(s: State, t: State, e: Entry, entity: int, a: int)
    requires t.books.entries == s.books.entries + [e] && e.entity == entity && e.status == Posted
    ensures NetOn(t, entity, a) == NetOn(s, entity, a) + CreditOn(e.lines, a) - DebitOn(e.lines, a)
    ensures DebitOn(e.lines, a) == 0 && CreditOn(e.lines, a) == 0 ==>
              SumsOn(t.books.entries, entity, a) == SumsOn(s.books.entries, entity, a)
  {
    SumsAppend(s.books.entries, e, entity, a);
  }

  /** A successful close zeroes every profit-and-loss account, moves the retained account
      by exactly the net income, and leaves both columns of all other accounts alone. */
  lemma CloseEffect(s: State, cmd: CloseCmd, order: seq<int>, hash: string -> string, a: int)
    requires Enumerates(order, TrialFor(s, cmd.entity).Keys) && Closing.Within(order, TrialFor(s, cmd.entity))
    requires CloseYear(s, cmd, order, hash).1.Done?
    ensures var t, chart := CloseYear(s, cmd, order, hash).0, ChartFor(s, cmd.entity);
            var income := NetIncome(TrialFor(s, cmd.entity), chart);
            && income != 0
            && NetOn(t, cmd.entity, a)
               == (if IsPnl(chart, a) then 0 else NetOn(s, cmd.entity, a)) + (if a == cmd.retained then income else 0)
            && (!IsPnl(chart, a) && a != cmd.retained ==>
                  SumsOn(t.books.entries, cmd.entity, a) == SumsOn(s.books.entries, cmd.entity, a))
  {
    var t, r := CloseYear(s, cmd, order, hash).0, CloseYear(s, cmd, order, hash).1.value;
    CloseEntryAdded(s, cmd, order, hash);
    assert ChartFor(t, cmd.entity) == ChartFor(s, cmd.entity);
    ClosingEffect(TrialFor(s, cmd.entity), ChartFor(s, cmd.entity), cmd.retained, order, a);
    PnlNetIsNetOn(s, cmd.entity, a);
    NetAfter(s, t, r, cmd.entity, a);
    hide CloseYear, BuildClosing, TrialFor, ChartFor, SumsOn, DebitOn, CreditOn, Debits, Credits, NetIncome, NetOn,
        SortedByAccount;
  }

  /** Profit and loss is zero after a close exactly when the retained account is not itself
      a revenue or expense account, which the code does not check. */
  lemma CloseZeroesIff(s: State, cmd: CloseCmd, order: seq<int>, hash: string -> string)
    requires Enumerates(order, TrialFor(s, cmd.entity).Keys) && Closing.Within(order, TrialFor(s, cmd.entity))
    requires CloseYear(s, cmd, order, hash).1.Done?
    ensures PnlZero(CloseYear(s, cmd, order, hash).0, cmd.entity)
       <==> !ProfitOrLoss(s, cmd.entity, cmd.retained)
  {
    var t := CloseYear(s, cmd, order, hash).0;
    CloseEntryAdded(s, cmd, order, hash);
    hide CloseYear, ChartFor, TrialFor, NetIncome, NetOn, BuildClosing, IsPnl;
    CloseEffect(s, cmd, order, hash, cmd.retained);
    ProfitOrLossIs(s, cmd.entity, cmd.retained);
    forall a | ProfitOrLoss(t, cmd.entity, a) && a != cmd.retained
      ensures NetOn(t, cmd.entity, a) == 0
    {
      ProfitOrLossIs(s, cmd.entity, a);
      CloseEffect(s, cmd, order, hash, a);
    }
  }

  const SALES: Account := Account(1, 1, "701", Revenue)
  const CASH: Account := Account(2, 1, "512", Asset)
  const YEAR: FiscalYear := FiscalYear(3, 1, "FY", 0, 10, false)
  const SALE: Entry :=
    Entry(0, 1, 1, "S", 5, "", Draft, [EntryLine(2, "", 7, 0, 0), EntryLine(1, "", 0, 7, 0)], "", "")

  /** Books of one sale. */
  function OneSale(hash: string -> string): State {
    State(Post(Books(map[1 := SALES, 2 := CASH], [YEAR], [], 3), SALE, hash).0, [])
  }

  const INTO_SALES: CloseCmd := CloseCmd(1, 3, 1, 1, "", None)

  lemma SaleBalanced()
    ensures Balanced(SALE.journal, SALE.lines)
  {
    var lines := SALE.lines;
    OneLeg(lines[0], 0);
    OneLeg(lines[1], 0);
    ConcatAdds([lines[0]], [lines[1]], 0);
    assert lines == [lines[0]] + [lines[1]];
    hide Debits, Credits;
  }

  lemma OneSaleBooks(hash: string -> string)
    ensures var b := OneSale(hash).books;
            && b.accounts == map[1 := SALES, 2 := CASH] && b.years == [YEAR] && |b.entries| == 1
            && b.entries[0].entity == 1 && b.entries[0].status == Posted && b.entries[0].lines == SALE.lines
  {
    var b := Books(map[1 := SALES, 2 := CASH], [YEAR], [], 3);
    SaleBalanced();
    hide Post, Balanced;
    PostEffect(b, SALE, hash);
    assert !LockedFor(b.years, 1, 5);
  }

  const SALE_TRIAL: Trial := map[2 := (7, 0), 1 := (0, 7)]

  lemma SaleTrial(e: Entry)
    requires e.entity == 1 && e.status == Posted && e.lines == SALE.lines
    ensures TrialOf([e], 1) == SALE_TRIAL
  {
    var lines := SALE.lines;
    assert lines[..1] == [lines[0]] && [lines[0]][..0] == [];
    assert AddLegs(map[], [lines[0]]) == AddLeg(map[], lines[0]) == map[2 := (7, 0)];
    assert AddLegs(map[], lines) == AddLeg(map[2 := (7, 0)], lines[1]) == SALE_TRIAL;
    hide AddLegs, AddLeg;
    assert [e][..0] == [] && TrialOf([], 1) == map[];
  }

  lemma SaleIncome()
    ensures Enumerates([2, 1], SALE_TRIAL.Keys) && Closing.Within([2, 1], SALE_TRIAL)
    ensures NetIncome(SALE_TRIAL, map[1 := SALES, 2 := CASH]) == 7
    ensures forall a :: a in SALE_TRIAL ==> Normal(SALE_TRIAL, map[1 := SALES, 2 := CASH], a)
  {
    var chart := map[1 := SALES, 2 := CASH];
    IncomeIsNetIncome(SALE_TRIAL, chart, [2, 1]);
    hide NetIncome;
    assert [2, 1][..1] == [2] && [2][..0] == [];
    assert Income(SALE_TRIAL, chart, [2]) == 0;
  }

  lemma YearFound()
    ensures FindYear([YEAR], 1, 3) == Some(0) && !LockedFor([YEAR], 1, 10)
  {
    assert [YEAR][..0] == [];
  }

  /** The failing side is reachable: a close into the revenue account itself succeeds and
      leaves its profit there. */
  lemma CloseIntoRevenue(hash: string -> string)
    ensures var s := OneSale(hash);
            && Enumerates([2, 1], TrialFor(s, 1).Keys) && Closing.Within([2, 1], TrialFor(s, 1))
            && CloseYear(s, INTO_SALES, [2, 1], hash).1.Done?
            && !PnlZero(CloseYear(s, INTO_SALES, [2, 1], hash).0, 1)
  {
    var s := OneSale(hash);
    OneSaleBooks(hash);
    hide OneSale, CloseYear, NetIncome, Income, Enumerates, PnlZero, TrialOf, FindYear, LockedFor;
    SaleTrial(s.books.entries[0]);
    assert s.books.entries == [s.books.entries[0]];
    assert TrialFor(s, 1) == SALE_TRIAL && ChartFor(s, 1) == map[1 := SALES, 2 := CASH];
    SaleIncome();
    YearFound();
    hide TrialFor, ChartFor;
    CloseSucceedsIff(s, INTO_SALES, [2, 1], hash);
    CloseZeroesIff(s, INTO_SALES, [2, 1], hash);
  }

  /** Nothing to close means no income. */
  lemma NoLegsNoIncome(trial: Trial, chart: Chart, order: seq<int>)
    requires Closing.Within(order, trial) && Enumerates(order, trial.Keys)
    ensures ClosingLegs(trial, chart, order) == [] ==> NetIncome(trial, chart) == 0
  {
    ClosingLegsSums(trial, chart, order, 0);
    IncomeIsNetIncome(trial, chart, order);
    hide NetIncome;
  }

  /** The closing date, by default the year's end, is inside the year and outside every
      locked year of the entity. */
  predicate Bookable(years: seq<FiscalYear>, y: FiscalYear, cmd: CloseCmd) {
    var date := if cmd.date.Some? then cmd.date.value else y.end;
    && y.start <= date <= y.end
    && forall i :: 0 <= i < |years| && years[i].entity == cmd.entity && years[i].locked
         ==> date < years[i].start || years[i].end < date
  }

  /** Exactly when a close succeeds. */
  lemma CloseSucceedsIff(s: State, cmd: CloseCmd, order: seq<int>, hash: string -> string)
    requires Enumerates(order, TrialFor(s, cmd.entity).Keys) && Closing.Within(order, TrialFor(s, cmd.entity))
    requires 0 !in s.books.accounts
    ensures var found := FindYear(s.books.years, cmd.entity, cmd.year);
            var trial, chart := TrialFor(s, cmd.entity), ChartFor(s, cmd.entity);
            CloseYear(s, cmd, order, hash).1.Done? <==>
              && found.Some? && Bookable(s.books.years, s.books.years[found.value], cmd)
              && cmd.journal != 0 && cmd.retained in chart && NetIncome(trial, chart) != 0
              && forall a :: a in trial ==> Normal(trial, chart, a)
  {
    if FindYear(s.books.years, cmd.entity, cmd.year).Some? {
      var y := s.books.years[FindYear(s.books.years, cmd.entity, cmd.year).value];
      OpenIff(s.books.years, cmd.entity, CloseDate(y, cmd));
      assert y.locked ==> !Bookable(s.books.years, y, cmd);
    }
    hide Bookable;
    var trial, chart := TrialFor(s, cmd.entity), ChartFor(s, cmd.entity);
    assert 0 !in chart;
    NoLegsNoIncome(trial, chart, order);
    IncomeIsNetIncome(trial, chart, order);
    if BuildClosing(trial, chart, cmd.retained, order).Done? {
      ClosingValid(trial, chart, cmd.retained, order, cmd.journal);
    }
    hide NetIncome, Balanced, ClosingLegs, Income, SortLegs, TrialFor, ChartFor, Sealed, Normal;
  }

  /** With profit and loss at zero every close is refused and nothing changes. */
  lemma CloseRefused(s: State, cmd: CloseCmd, order: seq<int>, hash: string -> string)
    requires Enumerates(order, TrialFor(s, cmd.entity).Keys) && Closing.Within(order, TrialFor(s, cmd.entity))
    requires PnlZero(s, cmd.entity)
    ensures CloseYear(s, cmd, order, hash).1.Failed? && CloseYear(s, cmd, order, hash).0 == s
  {
    var trial, chart := TrialFor(s, cmd.entity), ChartFor(s, cmd.entity);
    forall i | 0 <= i < |order|
      ensures PnlNet(trial, chart, order[i]) == 0
    {
      PnlNetIsNetOn(s, cmd.entity, order[i]);
    }
    NoLegsIff(trial, chart, order);
    hide ClosingLegs, Income, TrialFor, ChartFor, SortLegs, Post;
  }

  // ----- Runs -----

  ghost predicate CanRun(s: State, ops: seq<Op>, hash: string -> string)
    decreases |ops|
  {
    ops == [] || (Admissible(s, ops[0]) && CanRun(Step(s, ops[0], hash), ops[1..], hash))
  }

  ghost function Run(s: State, ops: seq<Op>, hash: string -> string): State
    requires CanRun(s, ops, hash)
    decreases |ops|
  {
    if ops == [] then s else Run(Step(s, ops[0], hash), ops[1..], hash)
  }

  const EMPTY: State := State(EMPTY_BOOKS, [])

  /** Every audit trail tells its year's lock, every stored entry is balanced, and every
      entity's chain verifies. */
  ghost predicate InOrder(s: State, hash: string -> string) {
    Audited(s) && Sound(s.books.entries, hash)
  }

  /** A close posts the closing entry or nothing. */
  lemma CloseEntries(s: State, cmd: CloseCmd, order: seq<int>, hash: string -> string)
    requires Closing.Within(order, TrialFor(s, cmd.entity))
    ensures var t := CloseYear(s, cmd, order, hash).0;
            t == s || exists e :: t.books.entries == Post(s.books, e, hash).0.entries
  {
    hide Post, BuildClosing, TrialFor, ChartFor;
    var found := FindYear(s.books.years, cmd.entity, cmd.year);
    if CloseYear(s, cmd, order, hash).1.Done? {
      var lines := BuildClosing(TrialFor(s, cmd.entity), ChartFor(s, cmd.entity), cmd.retained, order);
      var e := CloseEntry(s.books.years[found.value], cmd, lines.value);
      assert CloseYear(s, cmd, order, hash).0.books.entries == Post(s.books, e, hash).0.entries;
    }
  }

  lemma StepEntries(s: State, op: Op, hash: string -> string)
    requires Admissible(s, op)
    ensures Step(s, op, hash).books.entries == s.books.entries
         || exists e :: Step(s, op, hash).books.entries == Post(s.books, e, hash).0.entries
  {
    hide Post, CloseYear;
    match op
    case PostOp(e) => assert Step(s, op, hash).books.entries == Post(s.books, e, hash).0.entries;
    case CloseOp(cmd, order) =>
      EnumerationWithin(order, TrialFor(s, cmd.entity));
      CloseEntries(s, cmd, order, hash);
    case _ =>
  }

  lemma StepInOrder(s: State, op: Op, hash: string -> string)
    requires InOrder(s, hash) && Admissible(s, op)
    ensures InOrder(Step(s, op, hash), hash)
  {
    StepAudited(s, op, hash);
    StepEntries(s, op, hash);
    hide Step, Sound, Audited, Post;
    if Step(s, op, hash).books.entries != s.books.entries {
      var e :| Step(s, op, hash).books.entries == Post(s.books, e, hash).0.entries;
      PostSound(s.books, e, hash);
    }
  }

  lemma {:induction false} RunInOrder(s: State, ops: seq<Op>, hash: string -> string)
    requires InOrder(s, hash) && CanRun(s, ops, hash)
    ensures InOrder(Run(s, ops, hash), hash)
    decreases |ops|
  {
    if ops != [] {
      StepInOrder(s, ops[0], hash);
      RunInOrder(Step(s, ops[0], hash), ops[1..], hash);
    }
  }

  /** From the empty books, along every run of every operation: year trails alternate and
      tell the lock, chains verify, and every trial balance has equal columns. */
  lemma ReachableBooks(ops: seq<Op>, hash: string -> string, entity: int)
    requires CanRun(EMPTY, ops, hash)
    ensures var s := Run(EMPTY, ops, hash);
            && Audited(s) && Sound(s.books.entries, hash)
            && Total(DebitColumn(TrialFor(s, entity))) == Total(CreditColumn(TrialFor(s, entity)))
  {
    assert InOrder(EMPTY, hash);
    RunInOrder(EMPTY, ops, hash);
    TrialBalances(Run(EMPTY, ops, hash).books.entries, entity);
  }

  /** No entry from position n on lies inside the year. */
  predicate OutsideFrom(entries: seq<Entry>, n: nat, y: FiscalYear) {
    forall k :: n <= k < |entries| && entries[k].entity == y.entity
      ==> entries[k].date < y.start || y.end < entries[k].date
  }

  predicate Spares(op: Op, y: FiscalYear) {
    op != ReopenOp(y.entity, y.id)
  }

  lemma LockedStep(s: State, op: Op, hash: string -> string, i: nat)
    requires Admissible(s, op) && i < |s.books.years| && s.books.years[i].locked && Spares(op, s.books.years[i])
    ensures var t := Step(s, op, hash);
            && i < |t.books.years| && t.books.years[i] == s.books.years[i]
            && s.books.entries <= t.books.entries && OutsideFrom(t.books.entries, |s.books.entries|, s.books.years[i])
  {
    LockedYearsTakeNoEntries(s, op, hash);
    match op
    case CloseOp(cmd, order) =>
      EnumerationWithin(order, TrialFor(s, cmd.entity));
      CloseChanges(s, cmd, order, hash);
      hide CloseYear, TrialFor, Post;
    case _ => hide CloseYear, TrialFor, Post;
  }

  /** A locked year that nobody reopens stays as it is, and no entry dated inside it is
      added, whatever else runs. */
  lemma {:induction false} LockedRun(s: State, ops: seq<Op>, hash: string -> string, i: nat)
    requires CanRun(s, ops, hash) && i < |s.books.years| && s.books.years[i].locked
    requires forall k :: 0 <= k < |ops| ==> Spares(ops[k], s.books.years[i])
    ensures var t := Run(s, ops, hash);
            && i < |t.books.years| && t.books.years[i] == s.books.years[i]
            && s.books.entries <= t.books.entries && OutsideFrom(t.books.entries, |s.books.entries|, s.books.years[i])
    decreases |ops|
  {
    if ops != [] {
      LockedStep(s, ops[0], hash, i);
      hide Step;
      LockedRun(Step(s, ops[0], hash), ops[1..], hash, i);
    }
  }

  /** Operations that put nothing on the entity's revenue and expense accounts. */
  ghost predicate Quiet(s: State, op: Op, entity: int) {
    match op
    case PostOp(e) =>
      e.entity != entity || forall i :: 0 <= i < |e.lines| ==> !ProfitOrLoss(s, entity, e.lines[i].account)
    case AddAccount(a) =>
      a.entity != entity || !(a.kind.Revenue? || a.kind.Expense?) || NetOn(s, entity, s.books.lastId + 1) == 0
    case _ => true
  }

  ghost predicate QuietRun(s: State, ops: seq<Op>, entity: int, hash: string -> string)
    requires CanRun(s, ops, hash)
    decreases |ops|
  {
    ops == [] || (Quiet(s, ops[0], entity) && QuietRun(Step(s, ops[0], hash), ops[1..], entity, hash))
  }

  lemma {:induction false} NothingOn(lines: seq<EntryLine>, a: int)
    requires forall i :: 0 <= i < |lines| ==> lines[i].account != a
    ensures DebitOn(lines, a) == 0 && CreditOn(lines, a) == 0
  {
    if lines != [] {
      NothingOn(lines[..|lines| - 1], a);
    }
  }

  lemma PostElsewhere(s: State, e: Entry, hash: string -> string, entity: int, a: int)
    requires e.entity != entity || forall i :: 0 <= i < |e.lines| ==> e.lines[i].account != a
    ensures NetOn(s.(books := Post(s.books, e, hash).0), entity, a) == NetOn(s, entity, a)
  {
    var r := Post(s.books, e, hash).1;
    if r.Done? {
      PostEffect(s.books, e, hash);
      hide Post;
      SumsAppend(s.books.entries, r.value, entity, a);
      if e.entity == entity {
        NothingOn(e.lines, a);
      }
      hide SumsOn, DebitOn, CreditOn;
    }
  }

  lemma QuietStep(s: State, op: Op, entity: int, hash: string -> string)
    requires Admissible(s, op) && Quiet(s, op, entity) && PnlZero(s, entity)
    ensures PnlZero(Step(s, op, hash), entity)
  {
    var t := Step(s, op, hash);
    match op
    case AddAccount(a) =>
      forall k | ProfitOrLoss(t, entity, k)
        ensures NetOn(t, entity, k) == 0
      {
        assert k != s.books.lastId + 1 ==> ProfitOrLoss(s, entity, k);
      }
    case PostOp(e) =>
      forall k | ProfitOrLoss(t, entity, k)
        ensures NetOn(t, entity, k) == 0
      {
        assert ProfitOrLoss(s, entity, k);
        PostElsewhere(s, e, hash, entity, k);
      }
    case CloseOp(cmd, order) => QuietClose(s, cmd, order, entity, hash);
    case _ =>
      forall k | ProfitOrLoss(t, entity, k)
        ensures NetOn(t, entity, k) == 0
      {
        assert ProfitOrLoss(s, entity, k);
      }
  }

  lemma ElsewhereStaysZero(s: State, t: State, e: Entry, entity: int)
    requires t.books.entries == s.books.entries + [e] && t.books.accounts == s.books.accounts && e.entity != entity
    requires PnlZero(s, entity)
    ensures PnlZero(t, entity)
  {
    forall k | ProfitOrLoss(t, entity, k)
      ensures NetOn(t, entity, k) == 0
    {
      assert ProfitOrLoss(s, entity, k);
      SumsAppend(s.books.entries, e, entity, k);
    }
  }

  /** A close leaves other entities' accounts alone, and its own is refused. */
  lemma QuietClose(s: State, cmd: CloseCmd, order: seq<int>, entity: int, hash: string -> string)
    requires Enumerates(order, TrialFor(s, cmd.entity).Keys) && Closing.Within(order, TrialFor(s, cmd.entity))
    requires PnlZero(s, entity)
    ensures PnlZero(CloseYear(s, cmd, order, hash).0, entity)
  {
    if cmd.entity == entity {
      CloseRefused(s, cmd, order, hash);
    } else if CloseYear(s, cmd, order, hash).1.Done? {
      CloseEntryAdded(s, cmd, order, hash);
      ElsewhereStaysZero(s, CloseYear(s, cmd, order, hash).0, CloseYear(s, cmd, order, hash).1.value, entity);
    }
  }

  lemma {:induction false} QuietRunStaysZero(s: State, ops: seq<Op>, entity: int, hash: string -> string)
    requires CanRun(s, ops, hash) && QuietRun(s, ops, entity, hash) && PnlZero(s, entity)
    ensures PnlZero(Run(s, ops, hash), entity)
    decreases |ops|
  {
    if ops != [] {
      QuietStep(s, ops[0], entity, hash);
      hide PnlZero, Quiet;
      QuietRunStaysZero(Step(s, ops[0], hash), ops[1..], entity, hash);
    }
  }

  /** Closing again after a close is refused, whatever reopening, opening of years and
      postings to balance-sheet accounts happened in between. */
  lemma RecloseRefused(
    s: State, cmd: CloseCmd, order: seq<int>, ops: seq<Op>, again: CloseCmd, order': seq<int>,
    hash: string -> string)
    requires Enumerates(order, TrialFor(s, cmd.entity).Keys) && Closing.Within(order, TrialFor(s, cmd.entity))
    requires CloseYear(s, cmd, order, hash).1.Done? && !ProfitOrLoss(s, cmd.entity, cmd.retained)
    requires var closed := CloseYear(s, cmd, order, hash).0;
             CanRun(closed, ops, hash) && QuietRun(closed, ops, cmd.entity, hash)
    requires var t := Run(CloseYear(s, cmd, order, hash).0, ops, hash);
             Enumerates(order', TrialFor(t, again.entity).Keys) && Closing.Within(order', TrialFor(t, again.entity))
    requires again.entity == cmd.entity
    ensures var t := Run(CloseYear(s, cmd, order, hash).0, ops, hash);
            CloseYear(t, again, order', hash).1.Failed? && CloseYear(t, again, order', hash).0 == t
  {
    hide *;
    CloseZeroesIff(s, cmd, order, hash);
    QuietRunStaysZero(CloseYear(s, cmd, order, hash).0, ops, cmd.entity, hash);
    CloseRefused(Run(CloseYear(s, cmd, order, hash).0, ops, hash), again, order', hash);
  }
}
