/** The asset tables of MemoryStore and DepService over them and the ledger, updated in
    place (backend/internal/assets/schedule_store.go:112-185, store.go:283-300,
    dep_service.go:57-220), proved against the steps of `Depreciation`. */
module DepService {
  import opened Depreciation
  import opened DepreciationPlan
  import opened Entries
  import Ledger
  import LedgerStore
  import opened Options
  import opened Sets
  import opened Text

  class Store {
    var assets: map<int, Asset>
    var schedules: map<int, Schedule>
    var lastId: nat

    constructor ()
      ensures assets == map[] && schedules == map[] && lastId == 0
    {
      assets, schedules, lastId := map[], map[], 0;
    }

    ghost function With(books: Ledger.Books): State
      reads this
    {
      State(books, assets, schedules, lastId)
    }

    method CreateSchedule(sc: Schedule, ghost books: Ledger.Books) returns (r: Result<int>)
      modifies this
      ensures (With(books), r) == OpenSchedule(old(With(books)), sc)
    {
      if !ValidSchedule(sc) || sc.posted != 0 || sc.accumulated != 0 {
        return Err(Invalid);
      }
      hide ValidSchedule;
      if sc.asset !in assets || assets[sc.asset].entity != sc.entity {
        return Err(NotFound);
      }
      var left := schedules.Keys;
      while left != {}
        invariant left <= schedules.Keys && With(books) == old(With(books))
        invariant forall i :: i in schedules && i !in left ==>
              !(schedules[i].entity == sc.entity && schedules[i].asset == sc.asset)
        decreases left
      {
        NonEmpty(left);
        var i :| i in left;
        left := left - {i};
        if schedules[i].entity == sc.entity && schedules[i].asset == sc.asset {
          return Err(Conflict);
        }
      }
      lastId := lastId + 1;
      schedules := schedules[lastId := sc.(id := lastId, version := 1)];
      r := Ok(lastId);
    }

    method MarkSchedulePosted(entity: int, id: int, amount: int, version: int, ghost books: Ledger.Books)
        returns (r: Result<Schedule>)
      modifies this
      ensures (With(books), r) == MarkPosted(old(With(books)), entity, id, amount, version)
    {
      if id !in schedules || schedules[id].entity != entity {
        return Err(NotFound);
      }
      var sc := schedules[id];
      if sc.version != version {
        return Err(Stale);
      }
      if sc.status != ACTIVE {
        return Err(Invalid);
      }
      if sc.posted >= sc.periods {
        return Err(Invalid);
      }
      if amount <= 0 || sc.accumulated + amount > sc.cost {
        return Err(Invalid);
      }
      sc := sc.(posted := sc.posted + 1);
      sc := sc.(accumulated := sc.accumulated + amount);
      if sc.posted == sc.periods {
        sc := sc.(status := DONE);
      }
      sc := sc.(version := sc.version + 1);
      schedules := schedules[id := sc];
      r := Ok(sc);
    }

    method SetAssetStatus(entity: int, id: int, to: int, version: int, ghost books: Ledger.Books)
        returns (r: Result<Asset>)
      modifies this
      ensures (With(books), r) == SetStatus(old(With(books)), entity, id, to, version)
    {
      if id !in assets || assets[id].entity != entity {
        return Err(NotFound);
      }
      var a := assets[id];
      if a.version != version {
        return Err(Stale);
      }
      if !CanTransition(a, to) {
        return Err(Invalid);
      }
      a := a.(status := to);
      a := a.(version := a.version + 1);
      assets := assets[id := a];
      r := Ok(a);
    }

    /** SchedulesOfAsset and the loop that adds them up: total cost, total depreciation,
        and whether there is any schedule. */
    method Basis(entity: int, asset: int, ghost books: Ledger.Books) returns (any: bool, cost: int, accumulated: int)
      ensures any <==> HasSchedule(schedules, entity, asset)
      ensures cost == Total(Costs(With(books), entity, asset))
      ensures accumulated == Total(Depreciated(With(books), entity, asset))
    {
      any, cost, accumulated := false, 0, 0;
      var left := schedules.Keys;
      ghost var s := With(books);
      ghost var seen: State := s.(schedules := schedules - left);
      assert Costs(seen, entity, asset) == map[] && Depreciated(seen, entity, asset) == map[];
      while left != {}
        invariant left <= schedules.Keys && seen == s.(schedules := schedules - left)
        invariant any <==> HasSchedule(schedules - left, entity, asset)
        invariant cost == Total(Costs(seen, entity, asset)) && accumulated == Total(Depreciated(seen, entity, asset))
        decreases left
      {
        NonEmpty(left);
        var i :| i in left;
        BasisAdds(s, left, i, entity, asset);
        if schedules[i].entity == entity && schedules[i].asset == asset {
          any := true;
          cost := cost + schedules[i].cost;
          accumulated := accumulated + schedules[i].accumulated;
        }
        left := left - {i};
        seen := s.(schedules := schedules - left);
      }
      assert schedules - left == schedules;
    }
  }

  lemma BasisAdds(s: State, left: set<int>, i: int, entity: int, asset: int)
    requires i in left && left <= s.schedules.Keys
    ensures var t, u := s.(schedules := s.schedules - left), s.(schedules := s.schedules - (left - {i}));
            var mine := s.schedules[i].entity == entity && s.schedules[i].asset == asset;
            && (HasSchedule(u.schedules, entity, asset) <==> HasSchedule(t.schedules, entity, asset) || mine)
            && Total(Costs(u, entity, asset))
               == Total(Costs(t, entity, asset)) + (if mine then s.schedules[i].cost else 0)
            && Total(Depreciated(u, entity, asset))
               == Total(Depreciated(t, entity, asset)) + (if mine then s.schedules[i].accumulated else 0)
  {
    var t, u := s.(schedules := s.schedules - left), s.(schedules := s.schedules - (left - {i}));
    assert u.schedules[i] == s.schedules[i];
    assert forall k :: k in u.schedules <==> k in t.schedules || k == i;
    if s.schedules[i].entity == entity && s.schedules[i].asset == asset {
      assert Costs(u, entity, asset) == Costs(t, entity, asset)[i := s.schedules[i].cost];
      assert Depreciated(u, entity, asset) == Depreciated(t, entity, asset)[i := s.schedules[i].accumulated];
      TotalSet(Costs(t, entity, asset), i, s.schedules[i].cost);
      TotalSet(Depreciated(t, entity, asset), i, s.schedules[i].accumulated);
    } else {
      assert Costs(u, entity, asset) == Costs(t, entity, asset);
      assert Depreciated(u, entity, asset) == Depreciated(t, entity, asset);
    }
  }

  /** The legs disposeOn appends one by one. */
  method BuildDisposal(cmd: DisposeCmd, cost: int, accumulated: int) returns (lines: seq<EntryLine>)
    ensures lines == DisposalLegs(cmd, cost, accumulated)
  {
    var diff := cmd.proceeds - (cost - accumulated);
    var debits, credits: seq<EntryLine> := [], [];
    if cmd.proceeds > 0 {
      debits := debits + [EntryLine(cmd.cash, "Disposal proceeds", cmd.proceeds, 0, 0)];
    }
    if accumulated > 0 {
      debits := debits + [EntryLine(cmd.accum, "Accumulated depreciation", accumulated, 0, 0)];
    }
    if diff < 0 {
      debits := debits + [EntryLine(cmd.loss, "Loss on disposal", -diff, 0, 0)];
    }
    credits := credits + [EntryLine(cmd.cost, "Asset cost", 0, cost, 0)];
    if diff > 0 {
      credits := credits + [EntryLine(cmd.gain, "Gain on disposal", 0, diff, 0)];
    }
    lines := debits + credits;
  }

  class Service {
    const store: Store
    const ledger: LedgerStore.Store

    constructor (store: Store, ledger: LedgerStore.Store)
      ensures this.store == store && this.ledger == ledger
    {
      this.store, this.ledger := store, ledger;
    }

    ghost function Abs(): State
      reads store, ledger
    {
      store.With(ledger.Books())
    }

    /** postOn. */
    method PostOn(cmd: PostCmd, now: int, hash: string -> string) returns (r: Result<Schedule>)
      requires ledger.Valid()
      modifies store, ledger
      ensures ledger.Valid() && (Abs(), r) == Depreciation.PostOn(old(Abs()), cmd, now, hash)
    {
      hide Ledger.Post, Plan, MarkPosted, ValidTerms;
      if cmd.journal <= 0 || cmd.expense <= 0 || cmd.accum <= 0 {
        return Err(Invalid);
      }
      if cmd.schedule !in store.schedules || store.schedules[cmd.schedule].entity != cmd.entity {
        return Err(NotFound);
      }
      var sc := store.schedules[cmd.schedule];
      if sc.posted < 0 {
        return Err(Invalid);
      }
      var plan := BuildSchedule(sc.cost, sc.formula, sc.rateBps, sc.periods);
      if plan.Failed? {
        return Err(Invalid);
      }
      if sc.posted >= |plan.value| {
        return Err(AllPosted);
      }
      var line := plan.value[sc.posted];
      var posted := ledger.PostEntry(DepEntry(sc, cmd, line.period, line.amount, now), hash);
      if posted.Failed? {
        return Err(Refused(posted.error));
      }
      r := store.MarkSchedulePosted(cmd.entity, cmd.schedule, line.amount, cmd.version, ledger.Books());
    }

    /** Post: postOn in a transaction, which a failure rolls back. */
    method Post(cmd: PostCmd, now: int, hash: string -> string) returns (r: Result<Schedule>)
      requires ledger.Valid()
      modifies store, ledger
      ensures ledger.Valid() && (Abs(), r) == Depreciation.Post(old(Abs()), cmd, now, hash)
    {
      var entries, last := ledger.entries, ledger.lastId;
      hide Depreciation.PostOn;
      r := PostOn(cmd, now, hash);
      if r.Err? {
        FailedPostTouchesBooksOnly(old(Abs()), cmd, now, hash);
        ledger.entries, ledger.lastId := entries, last;
      }
    }

    /** disposeOn. */
    method DisposeOn(cmd: DisposeCmd, now: int, hash: string -> string) returns (r: Result<Asset>)
      requires ledger.Valid()
      modifies store, ledger
      ensures ledger.Valid() && (Abs(), r) == Depreciation.DisposeOn(old(Abs()), cmd, now, hash)
    {
      hide Ledger.Post, DisposalLegs, Costs, Depreciated, HasSchedule, AccountsGiven, SetStatus;
      if cmd.journal <= 0 || cmd.cost <= 0 {
        return Err(Invalid);
      }
      if cmd.proceeds < 0 {
        return Err(Invalid);
      }
      if cmd.asset !in store.assets || store.assets[cmd.asset].entity != cmd.entity {
        return Err(NotFound);
      }
      var a := store.assets[cmd.asset];
      if a.version != cmd.version {
        return Err(Stale);
      }
      var any, cost, accumulated := store.Basis(cmd.entity, cmd.asset, ledger.Books());
      if !any {
        return Err(Invalid);
      }
      if !AccountsGiven(cmd, cost, accumulated) {
        return Err(Invalid);
      }
      var lines := BuildDisposal(cmd, cost, accumulated);
      var posted := ledger.PostEntry(DisposalEntry(a, cmd, lines, now), hash);
      if posted.Failed? {
        return Err(Refused(posted.error));
      }
      r := store.SetAssetStatus(cmd.entity, cmd.asset, RETIRED, cmd.version, ledger.Books());
    }

    /** Dispose: disposeOn in a transaction, which a failure rolls back. */
    method Dispose(cmd: DisposeCmd, now: int, hash: string -> string) returns (r: Result<Asset>)
      requires ledger.Valid()
      modifies store, ledger
      ensures ledger.Valid() && (Abs(), r) == Depreciation.Dispose(old(Abs()), cmd, now, hash)
    {
      var entries, last := ledger.entries, ledger.lastId;
      hide Depreciation.DisposeOn;
      r := DisposeOn(cmd, now, hash);
      if r.Err? {
        FailedDisposeTouchesBooksOnly(old(Abs()), cmd, now, hash);
        ledger.entries, ledger.lastId := entries, last;
      }
    }
  }

  predicate BooksOnly(s: State, t: State) {
    && t == s.(books := t.books) && t.books == s.books.(entries := t.books.entries, lastId := t.books.lastId)
    && s.books.lastId <= t.books.lastId
  }

  lemma FailedPostTouchesBooksOnly(s: State, cmd: PostCmd, now: int, hash: string -> string)
    requires Depreciation.PostOn(s, cmd, now, hash).1.Err?
    ensures BooksOnly(s, Depreciation.PostOn(s, cmd, now, hash).0)
  {
    hide Ledger.Post, Plan, ValidTerms, DepEntry, BooksOnly;
    if cmd.schedule in s.schedules {
      var sc := s.schedules[cmd.schedule];
      if ValidTerms(sc.cost, sc.formula, sc.rateBps, sc.periods) && 0 <= sc.posted < sc.periods {
        WithBooks(s, DepEntry(sc, cmd, sc.posted + 1, PlanOf(sc)[sc.posted], now), hash);
      }
    }
    WithSelf(s);
  }

  lemma FailedDisposeTouchesBooksOnly(s: State, cmd: DisposeCmd, now: int, hash: string -> string)
    requires Depreciation.DisposeOn(s, cmd, now, hash).1.Err?
    ensures BooksOnly(s, Depreciation.DisposeOn(s, cmd, now, hash).0)
  {
    hide Ledger.Post, DisposalLegs, DisposalEntry, AccountsGiven, HasSchedule, Costs, Depreciated, CanTransition,
        BooksOnly;
    if cmd.asset in s.assets {
      var cost, accumulated := Total(Costs(s, cmd.entity, cmd.asset)), Total(Depreciated(s, cmd.entity, cmd.asset));
      var e := DisposalEntry(s.assets[cmd.asset], cmd, DisposalLegs(cmd, cost, accumulated), now);
      WithBooks(s, e, hash);
    }
    WithSelf(s);
  }

  lemma WithSelf(s: State)
    ensures BooksOnly(s, s)
  {}

  lemma WithBooks(s: State, e: Entry, hash: string -> string)
    ensures BooksOnly(s, s.(books := Ledger.Post(s.books, e, hash).0))
  {
    Ledger.PostEffect(s.books, e, hash);
    hide Ledger.Post;
  }
}
