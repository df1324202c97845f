/** The life of fiscal years: opening, posting, closing with a carry-forward entry,
    reopening, and the audit trail (backend/internal/finance/service.go:66-167,
    store.go:449-467, store_phase2.go:530-563, closelog.go:78-114). */
module FiscalYears {
  import opened Closing
  import opened Entries
  import opened Ledger
  import opened Options
  import opened Sets

  datatype Action = Close | Reopen

  datatype LogRow = LogRow(id: int, entity: int, year: int, action: Action, entry: Option<int>)

  datatype State = State(books: Books, log: seq<LogRow>)

  /** `date` None stands for the zero time: the year's end date is used. */
  datatype CloseCmd = CloseCmd(entity: int, year: int, journal: int, retained: int, ref: string, date: Option<int>)

  function FindYear(years: seq<FiscalYear>, entity: int, id: int): (r: Option<nat>)
    ensures r.Some? ==> r.value < |years| && years[r.value].id == id && years[r.value].entity == entity
    ensures forall i :: 0 <= i < (if r.Some? then r.value else |years|) ==>
              !(years[i].id == id && years[i].entity == entity)
  {
    if years == [] then None
    else
      var before := FindYear(years[..|years| - 1], entity, id);
      var y := years[|years| - 1];
      if before.Some? then before else if y.id == id && y.entity == entity then Some(|years| - 1) else None
  }

  function WithLock(years: seq<FiscalYear>, i: nat, locked: bool): seq<FiscalYear>
    requires i < |years|
  {
    years[i := years[i].(locked := locked)]
  }

  function Logged(log: seq<LogRow>, entity: int, year: int, action: Action, entry: Option<int>): seq<LogRow> {
    log + [LogRow(|log| + 1, entity, year, action, entry)]
  }

  /** The date and the entry CloseYear posts. */
  function CloseDate(y: FiscalYear, cmd: CloseCmd): int {
    if cmd.date.None? then y.end else cmd.date.value
  }

  function CloseEntry(y: FiscalYear, cmd: CloseCmd, lines: seq<EntryLine>): Entry {
    var ref := if cmd.ref == "" then "CLOSE-" + y.name else cmd.ref;
    Entry(0, cmd.entity, cmd.journal, ref, CloseDate(y, cmd), "year-end close " + y.name, Draft, lines, "", "")
  }

  function TrialFor(s: State, entity: int): Trial {
    TrialOf(s.books.entries, entity)
  }

  function ChartFor(s: State, entity: int): Chart {
    ChartOf(s.books.accounts, entity)
  }

  /** Service.CloseYear; `order` is the order in which the trial balance is ranged over. */
  function CloseYear(s: State, cmd: CloseCmd, order: seq<int>, hash: string -> string): (State, Outcome<Entry>)
    requires Closing.Within(order, TrialFor(s, cmd.entity))
  {
    var found := FindYear(s.books.years, cmd.entity, cmd.year);
    if found.None? then (s, Failed(NotFound))
    else
      var y := s.books.years[found.value];
      if y.locked then (s, Failed(AlreadyClosed))
      else if !Contains(y, CloseDate(y, cmd)) then (s, Failed(OutsideYear))
      else
        var lines := BuildClosing(TrialFor(s, cmd.entity), ChartFor(s, cmd.entity), cmd.retained, order);
        if lines.Failed? then (s, Failed(lines.error))
        else
          CarryForward(s, cmd, found.value, lines.value, hash)
  }

  /** The last part of CloseYear: post, lock, log. */
  function CarryForward(s: State, cmd: CloseCmd, i: nat, lines: seq<EntryLine>, hash: string -> string)
      : (State, Outcome<Entry>)
    requires i < |s.books.years|
  {
    var (b, posted) := Post(s.books, CloseEntry(s.books.years[i], cmd, lines), hash);
    if posted.Failed? then (s, posted)
    else
      (State(b.(years := WithLock(b.years, i, true)),
             Logged(s.log, cmd.entity, cmd.year, Close, Some(posted.value.id))), posted)
  }

  /** Service.ReopenYear, with the close log configured. */
  function ReopenYear(s: State, entity: int, year: int): (State, Outcome<()>) {
    var found := FindYear(s.books.years, entity, year);
    if found.None? then (s, Failed(NotFound))
    else if !s.books.years[found.value].locked then (s, Failed(NotLocked))
    else
      (State(s.books.(years := WithLock(s.books.years, found.value, false)), Logged(s.log, entity, year, Reopen, None)),
       Done(()))
  }

  datatype Op =
    | AddAccount(account: Account)
    | AddYear(year: FiscalYear)
    | PostOp(entry: Entry)
    | CloseOp(cmd: CloseCmd, order: seq<int>)
    | ReopenOp(entity: int, yearId: int)

  /** Years are opened unlocked, and a close ranges over the whole trial balance. */
  ghost predicate Admissible(s: State, op: Op) {
    match op
    case AddYear(y) => !y.locked
    case CloseOp(cmd, order) => Enumerates(order, TrialFor(s, cmd.entity).Keys)
    case _ => true
  }

  lemma EnumerationWithin(order: seq<int>, trial: Trial)
    requires Enumerates(order, trial.Keys)
    ensures Closing.Within(order, trial)
  {
    forall i | 0 <= i < |order|
      ensures order[i] in trial
    {
      assert order[i] in order;
    }
  }

  ghost function Step(s: State, op: Op, hash: string -> string): State
    requires Admissible(s, op)
  {
    var b := s.books;
    match op
    case AddAccount(a) =>
      s.(books := b.(accounts := b.accounts[b.lastId + 1 := a.(id := b.lastId + 1)], lastId := b.lastId + 1))
    case AddYear(y) => s.(books := b.(years := b.years + [y.(id := b.lastId + 1)], lastId := b.lastId + 1))
    case PostOp(e) => s.(books := Post(b, e, hash).0)
    case CloseOp(cmd, order) =>
      EnumerationWithin(order, TrialFor(s, cmd.entity));
      CloseYear(s, cmd, order, hash).0
    case ReopenOp(entity, year) => ReopenYear(s, entity, year).0
  }

  // ----- The lock and its audit trail -----

  /** The audit rows of one year, oldest first. */
  function RowsOf(log: seq<LogRow>, entity: int, year: int): seq<LogRow> {
    if log == [] then []
    else
      var r := log[|log| - 1];
      RowsOf(log[..|log| - 1], entity, year) + if r.entity == entity && r.year == year then [r] else []
  }

  /** Close, reopen, close, ... starting with a close. */
  predicate Alternates(rows: seq<LogRow>) {
    forall i :: 0 <= i < |rows| ==> rows[i].action == if i % 2 == 0 then Close else Reopen
  }

  predicate LastIsClose(rows: seq<LogRow>) {
    rows != [] && rows[|rows| - 1].action.Close?
  }

  predicate TrailOk(log: seq<LogRow>, y: FiscalYear) {
    var rows := RowsOf(log, y.entity, y.id);
    Alternates(rows) && (y.locked <==> LastIsClose(rows))
  }

  predicate DistinctIds(years: seq<FiscalYear>) {
    forall i, j :: 0 <= i < j < |years| ==> years[i].id != years[j].id
  }

  /** Every year's trail alternates and tells whether the year is locked. */
  ghost predicate Audited(s: State) {
    && DistinctIds(s.books.years)
    && (forall i :: 0 <= i < |s.books.years| ==>
          s.books.years[i].id <= s.books.lastId && TrailOk(s.log, s.books.years[i]))
    && (forall entity: int, id: int :: id > s.books.lastId ==> RowsOf(s.log, entity, id) == [])
  }

  lemma RowsAppend(log: seq<LogRow>, r: LogRow, entity: int, year: int)
    ensures RowsOf(log + [r], entity, year)
         == RowsOf(log, entity, year) + if r.entity == entity && r.year == year then [r] else []
  {
    assert (log + [r])[..|log|] == log;
  }

  /** Closing an open year or reopening a locked one, with its row, keeps all trails. */
  lemma ToggleAudited(s: State, i: nat, entry: Option<int>, books: Books)
    requires Audited(s) && i < |s.books.years|
    requires books.lastId >= s.books.lastId
    requires var y := s.books.years[i]; books.years == WithLock(s.books.years, i, !y.locked)
    ensures var y := s.books.years[i];
            Audited(State(books, Logged(s.log, y.entity, y.id, if y.locked then Reopen else Close, entry)))
  {
    var y := s.books.years[i];
    var r := LogRow(|s.log| + 1, y.entity, y.id, if y.locked then Reopen else Close, entry);
    var log := s.log + [r];
    forall j | 0 <= j < |books.years|
      ensures TrailOk(log, books.years[j])
    {
      var z := books.years[j];
      RowsAppend(s.log, r, z.entity, z.id);
      assert TrailOk(s.log, s.books.years[j]);
      if j == i {
        TrailToggles(RowsOf(s.log, y.entity, y.id), r, y.locked);
      } else {
        assert z.id != y.id;
        assert RowsOf(log, z.entity, z.id) == RowsOf(s.log, z.entity, z.id);
      }
    }
    forall entity: int, id: int | id > books.lastId
      ensures RowsOf(log, entity, id) == []
    {
      RowsAppend(s.log, r, entity, id);
    }
  }

  lemma TrailToggles(rows: seq<LogRow>, r: LogRow, locked: bool)
    requires Alternates(rows) && (locked <==> LastIsClose(rows))
    requires r.action == if locked then Reopen else Close
    ensures Alternates(rows + [r]) && (!locked <==> LastIsClose(rows + [r]))
  {}

  lemma StepAudited(s: State, op: Op, hash: string -> string)
    requires Audited(s) && Admissible(s, op)
    ensures Audited(Step(s, op, hash))
  {
    var t := Step(s, op, hash);
    match op
    case AddAccount(_) =>
    case AddYear(y) =>
      var z := y.(id := s.books.lastId + 1);
      assert RowsOf(s.log, z.entity, z.id) == [];
      assert TrailOk(s.log, z);
    case PostOp(e) =>
    case CloseOp(cmd, order) =>
      EnumerationWithin(order, TrialFor(s, cmd.entity));
      var found := FindYear(s.books.years, cmd.entity, cmd.year);
      var (u, r) := CloseYear(s, cmd, order, hash);
      if r.Done? {
        ToggleAudited(s, found.value, Some(r.value.id), u.books);
      }
    case ReopenOp(entity, year) =>
      var found := FindYear(s.books.years, entity, year);
      if found.Some? && s.books.years[found.value].locked {
        ToggleAudited(s, found.value, None, t.books);
      }
  }

  /** A step adds at most one entry, and never one dated inside a year locked before it. */
  lemma LockedYearsTakeNoEntries(s: State, op: Op, hash: string -> string)
    requires Admissible(s, op)
    ensures var before, after := s.books.entries, Step(s, op, hash).books.entries;
            && before <= after && |after| <= |before| + 1
            && (|after| > |before| ==>
                  var e := after[|before|];
                  forall i :: 0 <= i < |s.books.years| && s.books.years[i].entity == e.entity && s.books.years[i].locked
                    ==> e.date < s.books.years[i].start || s.books.years[i].end < e.date)
  {
    AddedWhereOpen(s, op, hash);
    hide Step, LockedFor;
    var before, after := s.books.entries, Step(s, op, hash).books.entries;
    if |after| > |before| {
      OpenIff(s.books.years, after[|before|].entity, after[|before|].date);
    }
  }

  lemma AddedWhereOpen(s: State, op: Op, hash: string -> string)
    requires Admissible(s, op)
    ensures var before, after := s.books.entries, Step(s, op, hash).books.entries;
            && before <= after && |after| <= |before| + 1
            && (|after| > |before| ==> !LockedFor(s.books.years, after[|before|].entity, after[|before|].date))
  {
    hide LockedFor, Balanced, Sealed;
    match op
    case AddAccount(_) =>
    case AddYear(_) =>
    case PostOp(e) => PostEffect(s.books, e, hash);
    case CloseOp(cmd, order) =>
      EnumerationWithin(order, TrialFor(s, cmd.entity));
      var found := FindYear(s.books.years, cmd.entity, cmd.year);
      if CloseYear(s, cmd, order, hash).1.Done? {
        var y := s.books.years[found.value];
        var lines := BuildClosing(TrialFor(s, cmd.entity), ChartFor(s, cmd.entity), cmd.retained, order);
        PostEffect(s.books, CloseEntry(y, cmd, lines.value), hash);
      }
    case ReopenOp(_, _) =>
  }

  // ----- What closing and reopening change -----

  /** A successful close adds the one entry it returns, dated as asked for or else at the
      year's end, locks the year, and logs the entry; a refused one changes nothing. */
  lemma CloseChanges(s: State, cmd: CloseCmd, order: seq<int>, hash: string -> string)
    requires Closing.Within(order, TrialFor(s, cmd.entity))
    ensures var (t, r) := CloseYear(s, cmd, order, hash);
            && (r.Failed? ==> t == s)
            && (r.Done? ==>
                  exists i :: 0 <= i < |s.books.years| && var y := s.books.years[i];
                    && y.id == cmd.year && y.entity == cmd.entity && !y.locked
                    && t.books.years == s.books.years[i := y.(locked := true)]
                    && t.books.accounts == s.books.accounts && t.books.entries == s.books.entries + [r.value]
                    && t.log == s.log + [LogRow(|s.log| + 1, cmd.entity, cmd.year, Close, Some(r.value.id))]
                    && r.value.entity == cmd.entity && r.value.journal == cmd.journal && r.value.status == Posted
                    && r.value.date == (if cmd.date.Some? then cmd.date.value else y.end)
                    && r.value.ref == (if cmd.ref != "" then cmd.ref else "CLOSE-" + y.name))
  {
    var found := FindYear(s.books.years, cmd.entity, cmd.year);
    var (t, r) := CloseYear(s, cmd, order, hash);
    if r.Done? {
      var lines := BuildClosing(TrialFor(s, cmd.entity), ChartFor(s, cmd.entity), cmd.retained, order);
      PostEffect(s.books, CloseEntry(s.books.years[found.value], cmd, lines.value), hash);
      hide Post, BuildClosing, TrialFor, ChartFor, FindYear;
      assert 0 <= found.value < |s.books.years|;
      assert t.books.years == s.books.years[found.value := s.books.years[found.value].(locked := true)];
    }
  }

  /** Why a close is refused before anything is built: no such year, a locked one, or a closing
      date outside it; then, if there is no such retained account in the entity. */
  lemma CloseRefusals(s: State, cmd: CloseCmd, order: seq<int>, hash: string -> string, i: nat)
    requires Closing.Within(order, TrialFor(s, cmd.entity)) && i <= |s.books.years|
    requires forall k :: 0 <= k < i ==> !(s.books.years[k].id == cmd.year && s.books.years[k].entity == cmd.entity)
    requires i < |s.books.years| ==> s.books.years[i].id == cmd.year && s.books.years[i].entity == cmd.entity
    ensures var r := CloseYear(s, cmd, order, hash).1;
            && (r == Failed(NotFound) <==> i == |s.books.years|)
            && (r == Failed(AlreadyClosed) <==> i < |s.books.years| && s.books.years[i].locked)
            && (i < |s.books.years| ==>
                  var y := s.books.years[i];
                  var date := if cmd.date.Some? then cmd.date.value else y.end;
                  && (r == Failed(OutsideYear) <==> !y.locked && (date < y.start || y.end < date))
                  && (r == Failed(UnknownRetained) <==>
                        && !y.locked && y.start <= date <= y.end
                        && !(cmd.retained in s.books.accounts
                             && s.books.accounts[cmd.retained].entity == cmd.entity)))
  {
    var found := FindYear(s.books.years, cmd.entity, cmd.year);
    assert found == if i < |s.books.years| then Some(i) else None;
    hide FindYear, TrialOf, ClosingLegs, Income, SortLegs, Balanced, LockedFor, Sealed;
  }

  /** Reopening succeeds exactly if the entity has a year with this id and the first such year
      is locked; it unlocks that year, logs the act, and touches no entry. */
  lemma ReopenChanges(s: State, entity: int, year: int, i: nat)
    requires i <= |s.books.years|
    requires forall k :: 0 <= k < i ==> !(s.books.years[k].id == year && s.books.years[k].entity == entity)
    requires i < |s.books.years| ==> s.books.years[i].id == year && s.books.years[i].entity == entity
    ensures var (t, r) := ReopenYear(s, entity, year);
            && (r.Done? <==> i < |s.books.years| && s.books.years[i].locked)
            && (r.Failed? ==> t == s && r.error == if i == |s.books.years| then NotFound else NotLocked)
            && (r.Done? ==>
                  && t.books == s.books.(years := s.books.years[i := s.books.years[i].(locked := false)])
                  && t.log == s.log + [LogRow(|s.log| + 1, entity, year, Reopen, None)])
  {
    var found := FindYear(s.books.years, entity, year);
    assert found == if i < |s.books.years| then Some(i) else None;
    hide FindYear;
  }
}
