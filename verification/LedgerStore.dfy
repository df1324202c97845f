/** The finance MemoryStore with its close log, updated in place, and the Service methods
    over it (backend/internal/finance/store.go:344-511, service.go:66-167,
    store_phase2.go:530-563, closelog.go:78-114, tax.go:168-211). */
module LedgerStore {
  import opened Canonical
  import opened Chain
  import opened Closing
  import opened Entries
  import FiscalYears
  import opened Ledger
  import opened Options
  import opened Sets

  /** The map from id to account BuildClosingLines makes of a list. */
  function ChartFrom(accounts: seq<Account>): Chart {
    if accounts == [] then map[]
    else ChartFrom(accounts[..|accounts| - 1])[accounts[|accounts| - 1].id := accounts[|accounts| - 1]]
  }

  lemma ChartFromAppend(accounts: seq<Account>, a: Account)
    ensures ChartFrom(accounts + [a]) == ChartFrom(accounts)[a.id := a]
  {
    assert (accounts + [a])[..|accounts|] == accounts;
  }

  lemma EnumerationExtends(order: seq<int>, seen: set<int>, b: int)
    requires Enumerates(order, seen) && b !in seen
    ensures Enumerates(order + [b], seen + {b})
  {
    assert forall k :: k in order + [b] <==> k in order || k == b;
  }

  /** Some order of ranging over the keys. */
  ghost function SomeOrder(s: set<int>): (order: seq<int>)
    ensures Enumerates(order, s)
  {
    if s == {} then []
    else
      NonEmpty(s);
      var k :| k in s;
      EnumerationExtends(SomeOrder(s - {k}), s - {k}, k);
      assert s - {k} + {k} == s;
      SomeOrder(s - {k}) + [k]
  }

  /** BuildClosingLines, with the account list turned into a map and the trial balance
      ranged over in some order. */
  method BuildClosingLines(trial: Trial, accounts: seq<Account>, retained: int)
    returns (r: Outcome<seq<EntryLine>>, ghost order: seq<int>)
    ensures Enumerates(order, trial.Keys) && Closing.Within(order, trial)
    ensures r == BuildClosing(trial, ChartFrom(accounts), retained, order)
  {
    var types: Chart := map[];
    for i := 0 to |accounts|
      invariant types == ChartFrom(accounts[..i])
    {
      assert accounts[..i + 1] == accounts[..i] + [accounts[i]];
      ChartFromAppend(accounts[..i], accounts[i]);
      types := types[accounts[i].id := accounts[i]];
    }
    assert accounts[..|accounts|] == accounts;
    var lines, income := [], 0;
    order := [];
    var left := trial.Keys;
    while left != {}
      invariant left <= trial.Keys && Enumerates(order, trial.Keys - left) && Closing.Within(order, trial)
      invariant lines == ClosingLegs(trial, types, order) && income == Income(trial, types, order)
      decreases left
    {
      NonEmpty(left);
      var id :| id in left;
      LegsExtend(trial, types, order, id);
      EnumerationExtends(order, trial.Keys - left, id);
      assert trial.Keys - (left - {id}) == trial.Keys - left + {id};
      order := order + [id];
      left := left - {id};
      if id in types {
        var (dr, cr) := trial[id];
        if types[id].kind.Revenue? {
          if cr - dr != 0 {
            lines := lines + [EntryLine(id, "closing " + types[id].code, cr - dr, 0, 0)];
            income := income + (cr - dr);
          }
        } else if types[id].kind.Expense? {
          if dr - cr != 0 {
            lines := lines + [EntryLine(id, "closing " + types[id].code, 0, dr - cr, 0)];
            income := income - (dr - cr);
          }
        }
      }
      hide ClosingLegs, Income, Enumerates;
    }
    assert trial.Keys - left == trial.Keys;
    if retained !in types {
      return Failed(UnknownRetained), order;
    }
    if lines == [] {
      return Failed(NothingToClose), order;
    }
    if income > 0 {
      lines := lines + [EntryLine(retained, "net income", 0, income, 0)];
    } else if income < 0 {
      lines := lines + [EntryLine(retained, "net loss", -income, 0, 0)];
    } else {
      return Failed(ZeroIncome), order;
    }
    r := Done(SortLegs(lines));
  }

  class Store {
    var accounts: map<int, Account>
    var years: seq<FiscalYear>
    var entries: seq<Entry>
    var lastId: nat
    var log: seq<FiscalYears.LogRow>

    ghost function Books(): Books
      reads this
    {
      Ledger.Books(accounts, years, entries, lastId)
    }

    ghost function Abs(): FiscalYears.State
      reads this
    {
      FiscalYears.State(Books(), log)
    }

    /** Accounts are stored under their own ids, which the counter has handed out. */
    ghost predicate Valid()
      reads this
    {
      forall id :: id in accounts ==> accounts[id].id == id && 0 < id <= lastId
    }

    constructor ()
      ensures Valid() && Abs() == FiscalYears.State(EMPTY_BOOKS, [])
    {
      accounts, years, entries, lastId, log := map[], [], [], 0, [];
    }

    /** MemoryStore.CreateAccount, for an account that passed validation. */
    method CreateAccount(a: Account, ghost hash: string -> string) returns (id: int)
      requires Valid()
      modifies this
      ensures Valid() && id == lastId
      ensures Abs() == FiscalYears.Step(old(Abs()), FiscalYears.AddAccount(a), hash)
      ensures lastId == old(lastId) + 1 && accounts == old(accounts)[id := a.(id := id)]
    {
      lastId := lastId + 1;
      id := lastId;
      accounts := accounts[id := a.(id := id)];
    }

    /** MemoryStore.CreateFiscalYear. */
    method CreateFiscalYear(y: FiscalYear, ghost hash: string -> string) returns (id: int)
      requires Valid() && !y.locked
      modifies this
      ensures Valid() && id == lastId
      ensures Abs() == FiscalYears.Step(old(Abs()), FiscalYears.AddYear(y), hash)
      ensures lastId == old(lastId) + 1 && years == old(years) + [y.(id := id)]
    {
      lastId := lastId + 1;
      id := lastId;
      years := years + [y.(id := id)];
    }

    /** PostEntry's scan for a locked year. */
    method FindLock(entity: int, date: int) returns (locked: bool)
      ensures locked <==> LockedFor(years, entity, date)
    {
      for i := 0 to |years|
        invariant forall k :: 0 <= k < i ==> !(years[k].entity == entity && Contains(years[k], date) && years[k].locked)
      {
        if years[i].entity == entity && Contains(years[i], date) && years[i].locked {
          return true;
        }
      }
      locked := false;
    }

    /** PostEntry's scan for the entity's last hash. */
    method LastHash(entity: int) returns (prev: string)
      ensures prev == Head(EntriesOf(entries, entity))
    {
      prev := GENESIS;
      for i := 0 to |entries|
        invariant prev == Head(EntriesOf(entries[..i], entity))
      {
        assert entries[..i + 1] == entries[..i] + [entries[i]];
        EntriesOfAppend(entries[..i], entries[i], entity);
        if entries[i].entity == entity {
          prev := entries[i].chainHash;
        }
      }
      assert entries[..|entries|] == entries;
    }

    /** MemoryStore.PostEntry. */
    method PostEntry(e: Entry, hash: string -> string) returns (r: Outcome<Entry>)
      requires Valid()
      modifies this
      ensures Valid() && accounts == old(accounts) && years == old(years) && log == old(log)
      ensures (Books(), r) == Post(old(Books()), e, hash)
    {
      var error := Validate(e.journal, e.lines);
      hide Balanced, LockedFor, EntriesOf, Serialize;
      if error.Some? {
        return Failed(Invalid);
      }
      var locked := FindLock(e.entity, e.date);
      if locked {
        return Failed(YearLocked);
      }
      var prev := LastHash(e.entity);
      var linked := e.(id := lastId + 1, status := Posted, prevHash := prev);
      var posted := linked.(chainHash := hash(Serialize(prev, e.journal, e.ref, e.date, e.lines)));
      assert posted == Sealed(Books(), e, hash);
      hide Sealed;
      lastId := lastId + 1;
      entries := entries + [posted];
      r := Done(posted);
    }

    /** MemoryStore.TrialBalance. */
    method TrialBalance(entity: int) returns (t: Trial)
      ensures t == TrialOf(entries, entity)
    {
      t := map[];
      for i := 0 to |entries|
        invariant t == TrialOf(entries[..i], entity)
      {
        var e := entries[i];
        assert entries[..i + 1][..i] == entries[..i];
        if e.entity == entity && e.status == Posted {
          ghost var before := t;
          for j := 0 to |e.lines|
            invariant t == AddLegs(before, e.lines[..j])
          {
            assert e.lines[..j + 1][..j] == e.lines[..j];
            var l := e.lines[j];
            var acc := if l.account in t then t[l.account] else (0, 0);
            acc := (acc.0 + l.debit, acc.1);
            acc := (acc.0, acc.1 + l.credit);
            t := t[l.account := acc];
          }
          assert e.lines[..|e.lines|] == e.lines;
        }
      }
      assert entries[..|entries|] == entries;
    }

    /** MemoryStore.Accounts: the entity's accounts, in any order. */
    method Accounts(entity: int) returns (r: seq<Account>)
      requires Valid()
      ensures ChartFrom(r) == ChartOf(accounts, entity)
    {
      r := [];
      var left := accounts.Keys;
      while left != {}
        invariant left <= accounts.Keys
        invariant ChartFrom(r) == ChartOf(accounts - left, entity)
        decreases left
      {
        NonEmpty(left);
        var id :| id in left;
        if accounts[id].entity == entity {
          ChartFromAppend(r, accounts[id]);
          r := r + [accounts[id]];
        }
        left := left - {id};
      }
      assert accounts - left == accounts;
    }

    /** The scan FiscalYearByID and SetFiscalYearLocked share. */
    method FindYear(entity: int, id: int) returns (r: Option<nat>)
      ensures r == FiscalYears.FindYear(years, entity, id)
    {
      for i := 0 to |years|
        invariant FiscalYears.FindYear(years[..i], entity, id).None?
      {
        assert years[..i + 1][..i] == years[..i];
        if years[i].id == id && years[i].entity == entity {
          FoundFirst(years, i, entity, id);
          return Some(i);
        }
      }
      assert years[..|years|] == years;
      r := None;
    }

    /** MemoryStore.FiscalYearByID. */
    method FiscalYearByID(entity: int, id: int) returns (r: Outcome<FiscalYear>)
      ensures var found := FiscalYears.FindYear(years, entity, id);
              r == if found.Some? then Done(years[found.value]) else Failed(NotFound)
    {
      var found := FindYear(entity, id);
      r := if found.Some? then Done(years[found.value]) else Failed(NotFound);
    }

    /** MemoryStore.SetFiscalYearLocked. */
    method SetFiscalYearLocked(entity: int, id: int, locked: bool) returns (r: Outcome<()>)
      modifies this`years
      ensures var found := FiscalYears.FindYear(old(years), entity, id);
              if found.Some? then r == Done(()) && years == FiscalYears.WithLock(old(years), found.value, locked)
              else r == Failed(NotFound) && years == old(years)
    {
      var found := FindYear(entity, id);
      if found.None? {
        return Failed(NotFound);
      }
      years := years[found.value := years[found.value].(locked := locked)];
      r := Done(());
    }

    /** MemoryCloseLogStore.LogClose. */
    method LogClose(entity: int, year: int, action: FiscalYears.Action, entry: Option<int>)
      modifies this`log
      ensures log == FiscalYears.Logged(old(log), entity, year, action, entry)
    {
      log := log + [FiscalYears.LogRow(|log| + 1, entity, year, action, entry)];
    }

    /** MemoryCloseLogStore.ListCloseLog. */
    method ListCloseLog(entity: int, year: int) returns (r: seq<FiscalYears.LogRow>)
      ensures r == FiscalYears.RowsOf(log, entity, year)
    {
      r := [];
      for i := 0 to |log|
        invariant r == FiscalYears.RowsOf(log[..i], entity, year)
      {
        assert log[..i + 1][..i] == log[..i];
        if log[i].entity == entity && log[i].year == year {
          r := r + [log[i]];
        }
      }
      assert log[..|log|] == log;
    }

    /** Service.CloseYear. */
    method CloseYear(cmd: FiscalYears.CloseCmd, hash: string -> string)
        returns (r: Outcome<Entry>, ghost order: seq<int>)
      requires Valid()
      modifies this
      ensures Valid()
      ensures Enumerates(order, FiscalYears.TrialFor(old(Abs()), cmd.entity).Keys)
      ensures Closing.Within(order, FiscalYears.TrialFor(old(Abs()), cmd.entity))
      ensures (Abs(), r) == FiscalYears.CloseYear(old(Abs()), cmd, order, hash)
    {
      order := SomeOrder(TrialOf(entries, cmd.entity).Keys);
      FiscalYears.EnumerationWithin(order, TrialOf(entries, cmd.entity));
      hide BuildClosing, ChartFrom, TrialOf, Enumerates, ChartOf, FiscalYears.FindYear, FiscalYears.CarryForward;
      var year := FiscalYearByID(cmd.entity, cmd.year);
      if year.Failed? {
        return Failed(NotFound), order;
      }
      var y := year.value;
      if y.locked {
        return Failed(AlreadyClosed), order;
      }
      var date := FiscalYears.CloseDate(y, cmd);
      if !Contains(y, date) {
        return Failed(OutsideYear), order;
      }
      var trial := TrialBalance(cmd.entity);
      var chart := Accounts(cmd.entity);
      var lines;
      lines, order := BuildClosingLines(trial, chart, cmd.retained);
      if lines.Failed? {
        return Failed(lines.error), order;
      }
      r := CarryForward(cmd, y, lines.value, hash);
    }

    /** The last part of CloseYear: post, lock, log. */
    method CarryForward(cmd: FiscalYears.CloseCmd, y: FiscalYear, lines: seq<EntryLine>, hash: string -> string)
      returns (r: Outcome<Entry>)
      requires Valid()
      requires var found := FiscalYears.FindYear(years, cmd.entity, cmd.year); found.Some? && y == years[found.value]
      modifies this
      ensures Valid()
      ensures (Abs(), r)
           == FiscalYears.CarryForward(
                old(Abs()), cmd, FiscalYears.FindYear(old(years), cmd.entity, cmd.year).value, lines, hash)
    {
      hide Post, FiscalYears.FindYear;
      var ref := if cmd.ref == "" then "CLOSE-" + y.name else cmd.ref;
      var date := FiscalYears.CloseDate(y, cmd);
      var e := Entry(0, cmd.entity, cmd.journal, ref, date, "year-end close " + y.name, Draft, lines, "", "");
      r := PostEntry(e, hash);
      if r.Failed? {
        PostEffect(old(Books()), FiscalYears.CloseEntry(y, cmd, lines), hash);
        return;
      }
      var locked := SetFiscalYearLocked(cmd.entity, cmd.year, true);
      LogClose(cmd.entity, cmd.year, FiscalYears.Close, Some(r.value.id));
    }

    /** Service.ReopenYear. */
    method ReopenYear(entity: int, id: int) returns (r: Outcome<()>)
      requires Valid()
      modifies this
      ensures Valid() && (Abs(), r) == FiscalYears.ReopenYear(old(Abs()), entity, id)
    {
      var year := FiscalYearByID(entity, id);
      if year.Failed? {
        return Failed(NotFound);
      }
      if !year.value.locked {
        return Failed(NotLocked);
      }
      r := SetFiscalYearLocked(entity, id, false);
      LogClose(entity, id, FiscalYears.Reopen, None);
    }
  }

  /** Later years do not change which year a scan finds first. */
  lemma {:induction false} FoundFirst(years: seq<FiscalYear>, i: nat, entity: int, id: int)
    requires i < |years| && years[i].id == id && years[i].entity == entity
    requires FiscalYears.FindYear(years[..i], entity, id).None?
    ensures FiscalYears.FindYear(years, entity, id) == Some(i)
  {
    var shorter := years[..|years| - 1];
    if i < |years| - 1 {
      assert shorter[..i] == years[..i];
      FoundFirst(shorter, i, entity, id);
    }
  }
}
