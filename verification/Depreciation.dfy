/** Depreciation schedules, their posting, and the disposal of assets
    (backend/internal/assets/depreciation.go:24-75, dep_service.go:84-115 and 158-220,
    schedule_store.go:112-185, store.go:66-75 and 283-300). */
module Depreciation {
  import opened DepreciationPlan
  import opened Entries
  import Ledger
  import opened Options
  import opened Sets
  import opened Text

  const ACTIVE: int := 0
  const DONE: int := 1

  datatype Schedule = Schedule(
    id: int, entity: int, asset: int, formula: Method, cost: int, rateBps: int, start: Option<int>, periods: int,
    posted: int, accumulated: int, status: int, version: int)

  const RETIRED: int := 0
  const IN_SERVICE: int := 1
  const MAINTENANCE: int := 2

  datatype Asset = Asset(id: int, entity: int, code: string, status: int, version: int)

  datatype State = State(books: Ledger.Books, assets: map<int, Asset>, schedules: map<int, Schedule>, lastId: nat)

  datatype Error = Invalid | NotFound | Conflict | Stale | AllPosted | Refused(reason: Ledger.Error)

  datatype Result<+T> = Ok(value: T) | Err(error: Error)

  /** AssetSchedule.Validate. */
  predicate ValidSchedule(sc: Schedule) {
    && sc.entity > 0 && sc.asset > 0 && ValidTerms(sc.cost, sc.formula, sc.rateBps, sc.periods) && sc.start.Some?
    && 0 <= sc.posted <= sc.periods && 0 <= sc.accumulated <= sc.cost
  }

  predicate HasSchedule(schedules: map<int, Schedule>, entity: int, asset: int) {
    exists i :: i in schedules && schedules[i].entity == entity && schedules[i].asset == asset
  }

  /** MemoryStore.CreateSchedule. */
  ghost function OpenSchedule(s: State, sc: Schedule): (State, Result<int>) {
    if !ValidSchedule(sc) || sc.posted != 0 || sc.accumulated != 0 then (s, Err(Invalid))
    else if sc.asset !in s.assets || s.assets[sc.asset].entity != sc.entity then (s, Err(NotFound))
    else if HasSchedule(s.schedules, sc.entity, sc.asset) then (s, Err(Conflict))
    else
      var id := s.lastId + 1;
      (s.(schedules := s.schedules[id := sc.(id := id, version := 1)], lastId := id), Ok(id))
  }

  /** MemoryStore.MarkSchedulePosted. */
  function MarkPosted(s: State, entity: int, id: int, amount: int, version: int): (State, Result<Schedule>) {
    if id !in s.schedules || s.schedules[id].entity != entity then (s, Err(NotFound))
    else
      var sc := s.schedules[id];
      if sc.version != version then (s, Err(Stale))
      else if sc.status != ACTIVE || sc.posted >= sc.periods then (s, Err(Invalid))
      else if amount <= 0 || sc.accumulated + amount > sc.cost then (s, Err(Invalid))
      else
        var status := if sc.posted + 1 == sc.periods then DONE else sc.status;
        var next := sc.(posted := sc.posted + 1, accumulated := sc.accumulated + amount,
                        status := status, version := sc.version + 1);
        (s.(schedules := s.schedules[id := next]), Ok(next))
  }

  datatype PostCmd = PostCmd(entity: int, schedule: int, journal: int, expense: int, accum: int, version: int)

  function DepEntry(sc: Schedule, cmd: PostCmd, period: int, amount: int, now: int): Entry {
    var p := FormatInt(period);
    Entry(0, sc.entity, cmd.journal, "DEP-" + FormatInt(sc.asset) + "-P" + p, now,
          "Depreciation asset " + FormatInt(sc.asset) + " period " + p, Draft,
          [EntryLine(cmd.expense, "Depreciation P" + p, amount, 0, 0),
           EntryLine(cmd.accum, "Accum. depreciation P" + p, 0, amount, 0)], "", "")
  }

  /** DepService.postOn: the ledger entry first, then the schedule. */
  function PostOn(s: State, cmd: PostCmd, now: int, hash: string -> string): (State, Result<Schedule>) {
    if cmd.journal <= 0 || cmd.expense <= 0 || cmd.accum <= 0 then (s, Err(Invalid))
    else if cmd.schedule !in s.schedules || s.schedules[cmd.schedule].entity != cmd.entity then (s, Err(NotFound))
    else
      var sc := s.schedules[cmd.schedule];
      if !ValidTerms(sc.cost, sc.formula, sc.rateBps, sc.periods) || sc.posted < 0 then (s, Err(Invalid))
      else
        var plan := Plan(sc.cost, sc.formula, sc.rateBps, sc.periods);
        if sc.posted >= |plan| then (s, Err(AllPosted))
        else
          var (books, r) := Ledger.Post(s.books, DepEntry(sc, cmd, sc.posted + 1, plan[sc.posted], now), hash);
          if r.Failed? then (s.(books := books), Err(Refused(r.error)))
          else MarkPosted(s.(books := books), cmd.entity, cmd.schedule, plan[sc.posted], cmd.version)
  }

  /** The transaction around it: a failure leaves nothing behind. */
  function Atomic<T>(s: State, after: (State, Result<T>)): (State, Result<T>) {
    if after.1.Err? then (s, after.1) else after
  }

  function Post(s: State, cmd: PostCmd, now: int, hash: string -> string): (State, Result<Schedule>) {
    Atomic(s, PostOn(s, cmd, now, hash))
  }

  // ----- What every run keeps -----

  /** The plan of a schedule. */
  function PlanOf(sc: Schedule): seq<int>
    requires ValidTerms(sc.cost, sc.formula, sc.rateBps, sc.periods)
  {
    Plan(sc.cost, sc.formula, sc.rateBps, sc.periods)
  }

  /** Accumulated depreciation is the sum of the posted plan amounts, all of them positive,
      and the schedule is done exactly when every period is posted. */
  predicate Progress(sc: Schedule) {
    && ValidTerms(sc.cost, sc.formula, sc.rateBps, sc.periods) && 0 <= sc.posted <= sc.periods
    && sc.accumulated == Sum(PlanOf(sc)[..sc.posted])
    && AllPositive(PlanOf(sc)[..sc.posted])
    && (sc.status == ACTIVE || sc.status == DONE)
    && (sc.status == DONE <==> sc.posted == sc.periods)
  }

  predicate OnePerAsset(schedules: map<int, Schedule>) {
    forall i, j :: i in schedules && j in schedules && i != j ==>
      schedules[i].entity != schedules[j].entity || schedules[i].asset != schedules[j].asset
  }

  ghost predicate Inv(s: State) {
    && (forall i :: i in s.schedules ==> i <= s.lastId && Progress(s.schedules[i]))
    && OnePerAsset(s.schedules)
  }

  lemma StartProgress(sc: Schedule)
    requires ValidTerms(sc.cost, sc.formula, sc.rateBps, sc.periods)
    requires sc.posted == 0 && sc.accumulated == 0 && sc.status == ACTIVE
    ensures Progress(sc)
  {
    assert PlanOf(sc)[..0] == [];
  }

  lemma AdvanceProgress(sc: Schedule, next: Schedule)
    requires Progress(sc) && sc.posted < sc.periods && PlanOf(sc)[sc.posted] > 0
    requires next == sc.(posted := sc.posted + 1, accumulated := sc.accumulated + PlanOf(sc)[sc.posted],
                         status := if sc.posted + 1 == sc.periods then DONE else sc.status, version := sc.version + 1)
    ensures Progress(next)
  {
    var plan, n := PlanOf(sc), sc.posted;
    SumExtend(plan, n);
    assert plan[..n + 1] == plan[..n] + [plan[n]];
    assert PlanOf(next) == plan;
    hide Sum, Plan, ValidTerms;
  }

  lemma RoomForAmount(sc: Schedule)
    requires Progress(sc) && sc.posted < sc.periods
    ensures 0 <= sc.accumulated + PlanOf(sc)[sc.posted] <= sc.cost
  {
    PrefixWithinCost(sc.cost, sc.formula, sc.rateBps, sc.periods, sc.posted + 1);
    SumExtend(PlanOf(sc), sc.posted);
  }

  /** The two legs balance exactly when the amount is positive. */
  lemma DepEntryBalanced(sc: Schedule, cmd: PostCmd, period: int, amount: int, now: int)
    requires cmd.journal > 0 && cmd.expense > 0 && cmd.accum > 0
    ensures var e := DepEntry(sc, cmd, period, amount, now);
            && (Balanced(e.journal, e.lines) <==> amount > 0)
            && (cmd.expense != cmd.accum ==>
                  DebitOn(e.lines, cmd.expense) == amount && CreditOn(e.lines, cmd.accum) == amount)
  {
    var lines := DepEntry(sc, cmd, period, amount, now).lines;
    var a, b := lines[0], lines[1];
    assert lines == [a] + [b];
    OneLeg(a, cmd.expense);
    OneLeg(a, cmd.accum);
    OneLeg(b, cmd.expense);
    OneLeg(b, cmd.accum);
    ConcatAdds([a], [b], cmd.expense);
    ConcatAdds([a], [b], cmd.accum);
    hide Debits, Credits, DebitOn, CreditOn, FormatInt;
  }

  function Next(sc: Schedule, amount: int): Schedule {
    sc.(posted := sc.posted + 1, accumulated := sc.accumulated + amount,
        status := if sc.posted + 1 == sc.periods then DONE else sc.status, version := sc.version + 1)
  }

  /** Marking the planned amount is refused only for a stale version or a zero amount. */
  lemma MarkIff(s: State, id: int, version: int)
    requires id in s.schedules && Progress(s.schedules[id]) && s.schedules[id].posted < s.schedules[id].periods
    ensures var sc := s.schedules[id];
            var amount := PlanOf(sc)[sc.posted];
            var (t, r) := MarkPosted(s, sc.entity, id, amount, version);
            && (r.Ok? <==> version == sc.version && amount > 0)
            && (r.Ok? ==>
                  r.value == Next(sc, amount) && Progress(r.value) && t == s.(schedules := s.schedules[id := r.value]))
  {
    var sc := s.schedules[id];
    RoomForAmount(sc);
    if PlanOf(sc)[sc.posted] > 0 {
      AdvanceProgress(sc, Next(sc, PlanOf(sc)[sc.posted]));
    }
    hide Sum, PlanOf, AllPositive;
  }

  /** Marking any amount succeeds exactly on the entity's active schedule in its current version,
      for a positive amount that the cost still covers; it is then one period and that amount
      further, and done with its last period. */
  lemma MarkPostedIff(s: State, entity: int, id: int, amount: int, version: int)
    ensures var (t, r) := MarkPosted(s, entity, id, amount, version);
            && (r.Ok? <==>
                  && id in s.schedules && s.schedules[id].entity == entity && s.schedules[id].version == version
                  && s.schedules[id].status == ACTIVE && s.schedules[id].posted < s.schedules[id].periods
                  && 0 < amount <= s.schedules[id].cost - s.schedules[id].accumulated)
            && (r.Err? ==> t == s)
            && (r.Ok? ==>
                  var sc := s.schedules[id];
                  && t == s.(schedules := s.schedules[id := r.value])
                  && r.value == sc.(posted := sc.posted + 1, accumulated := sc.accumulated + amount,
                                    version := version + 1, status := r.value.status)
                  && (r.value.status == if r.value.posted == sc.periods then DONE else ACTIVE))
  {}

  /** A schedule is opened exactly with valid terms, nothing posted, for an asset of its entity
      that has none yet. */
  lemma OpenIff(s: State, sc: Schedule)
    ensures var (t, r) := OpenSchedule(s, sc);
            && (r.Ok? <==>
                  && sc.entity > 0 && sc.asset > 0 && sc.start.Some? && sc.posted == 0 && sc.accumulated == 0
                  && sc.cost > 0 && sc.periods > 0
                  && (sc.formula.Linear? || (sc.formula.Degressive? && 1 <= sc.rateBps <= 10000))
                  && sc.asset in s.assets && s.assets[sc.asset].entity == sc.entity
                  && forall i :: i in s.schedules && s.schedules[i].entity == sc.entity
                       ==> s.schedules[i].asset != sc.asset)
            && (r.Err? ==> t == s)
            && (r.Ok? ==>
                  && r.value == s.lastId + 1
                  && t == s.(schedules := s.schedules[r.value := sc.(id := r.value, version := 1)], lastId := r.value))
  {}

  predicate CanPost(s: State, cmd: PostCmd, now: int)
    requires cmd.schedule in s.schedules && Progress(s.schedules[cmd.schedule])
  {
    var sc := s.schedules[cmd.schedule];
    && cmd.journal > 0 && cmd.expense > 0 && cmd.accum > 0 && cmd.version == sc.version
    && sc.posted < sc.periods && PlanOf(sc)[sc.posted] > 0 && !Ledger.LockedFor(s.books.years, sc.entity, now)
  }

  /** What a successful posting does: one ledger entry for the planned amount, and one step
      of the schedule. */
  predicate Stepped(s: State, t: State, cmd: PostCmd, now: int)
    requires cmd.schedule in s.schedules && Progress(s.schedules[cmd.schedule])
    requires s.schedules[cmd.schedule].posted < s.schedules[cmd.schedule].periods
  {
    var sc := s.schedules[cmd.schedule];
    var amount := PlanOf(sc)[sc.posted];
    && t == s.(books := t.books, schedules := s.schedules[cmd.schedule := Next(sc, amount)])
    && Progress(Next(sc, amount)) && t.books.years == s.books.years
    && |t.books.entries| == |s.books.entries| + 1 && s.books.entries <= t.books.entries
    && Depreciates(t.books.entries[|s.books.entries|], sc, cmd, amount, now)
  }

  /** The entry books the amount from the accumulation account to expense, under the next
      period of the asset. */
  predicate Depreciates(e: Entry, sc: Schedule, cmd: PostCmd, amount: int, now: int) {
    && e.entity == cmd.entity && e.journal == cmd.journal && e.date == now
    && e.ref == "DEP-" + FormatInt(sc.asset) + "-P" + FormatInt(sc.posted + 1)
    && |e.lines| == 2 && e.lines[0].account == cmd.expense && e.lines[1].account == cmd.accum
    && e.lines[0].debit == amount == e.lines[1].credit && e.lines[0].credit == 0 == e.lines[1].debit
    && e.lines[0].vatRateBps == 0 == e.lines[1].vatRateBps
  }

  /** When posting the next period succeeds, and what it does. */
  lemma PostSucceedsIff(s: State, cmd: PostCmd, now: int, hash: string -> string)
    requires Inv(s) && cmd.schedule in s.schedules && s.schedules[cmd.schedule].entity == cmd.entity
    ensures var (t, r) := Post(s, cmd, now, hash);
            && (r.Ok? <==> CanPost(s, cmd, now))
            && (cmd.journal <= 0 || cmd.expense <= 0 || cmd.accum <= 0 ==> r == Err(Invalid))
            && (r.Err? ==> t == s)
            && (r.Ok? ==> Stepped(s, t, cmd, now) && r.value == t.schedules[cmd.schedule])
  {
    var sc := s.schedules[cmd.schedule];
    assert Progress(sc);
    hide Inv;
    if sc.posted < sc.periods && cmd.journal > 0 && cmd.expense > 0 && cmd.accum > 0 {
      hide PostOn, Stepped, Progress, Plan;
      PostGuarded(s, cmd, now, hash);
      if PostOn(s, cmd, now, hash).1.Ok? {
        PostSteps(s, cmd, now, hash);
      }
    } else {
      hide Stepped, Ledger.Post, Ledger.LockedFor;
    }
  }

  lemma PostGuarded(s: State, cmd: PostCmd, now: int, hash: string -> string)
    requires cmd.schedule in s.schedules && s.schedules[cmd.schedule].entity == cmd.entity
    requires Progress(s.schedules[cmd.schedule]) && s.schedules[cmd.schedule].posted < s.schedules[cmd.schedule].periods
    requires cmd.journal > 0 && cmd.expense > 0 && cmd.accum > 0
    ensures PostOn(s, cmd, now, hash).1.Ok? <==> CanPost(s, cmd, now)
  {
    var sc := s.schedules[cmd.schedule];
    var amount := PlanOf(sc)[sc.posted];
    var e := DepEntry(sc, cmd, sc.posted + 1, amount, now);
    assert e.entity == sc.entity && e.date == now;
    hide Ledger.Post, Progress, Balanced, Ledger.LockedFor, PlanOf, ValidTerms, MarkPosted, DepEntry, Next, PostOn;
    DepEntryBalanced(sc, cmd, sc.posted + 1, amount, now);
    Ledger.PostEffect(s.books, e, hash);
    MarkIff(s.(books := Ledger.Post(s.books, e, hash).0), cmd.schedule, cmd.version);
    PostOnIs(s, cmd, now, hash);
  }

  lemma PostSteps(s: State, cmd: PostCmd, now: int, hash: string -> string)
    requires cmd.schedule in s.schedules && s.schedules[cmd.schedule].entity == cmd.entity
    requires Progress(s.schedules[cmd.schedule]) && s.schedules[cmd.schedule].posted < s.schedules[cmd.schedule].periods
    requires cmd.journal > 0 && cmd.expense > 0 && cmd.accum > 0
    requires PostOn(s, cmd, now, hash).1.Ok?
    ensures var (t, r) := PostOn(s, cmd, now, hash); Stepped(s, t, cmd, now) && r.value == t.schedules[cmd.schedule]
  {
    var sc := s.schedules[cmd.schedule];
    var amount := PlanOf(sc)[sc.posted];
    var e := DepEntry(sc, cmd, sc.posted + 1, amount, now);
    assert e.entity == sc.entity && e.date == now;
    hide Ledger.Post, Balanced, Ledger.LockedFor, PlanOf, ValidTerms, MarkPosted, DepEntry, Next, PostOn;
    hide Progress, FormatInt;
    DepEntryBalanced(sc, cmd, sc.posted + 1, amount, now);
    Ledger.PostEffect(s.books, e, hash);
    MarkIff(s.(books := Ledger.Post(s.books, e, hash).0), cmd.schedule, cmd.version);
    PostOnIs(s, cmd, now, hash);
    hide Stepped;
    MakeStepped(s, Ledger.Post(s.books, e, hash).0, cmd, now, e);
  }

  lemma MakeStepped(s: State, books: Ledger.Books, cmd: PostCmd, now: int, e: Entry)
    requires cmd.schedule in s.schedules && Progress(s.schedules[cmd.schedule])
    requires s.schedules[cmd.schedule].posted < s.schedules[cmd.schedule].periods
    requires var sc := s.schedules[cmd.schedule];
             var amount := PlanOf(sc)[sc.posted];
             e == DepEntry(sc, cmd, sc.posted + 1, amount, now) && Progress(Next(sc, amount))
    requires |books.entries| == |s.books.entries| + 1 && s.books.entries <= books.entries
    requires var f := books.entries[|s.books.entries|];
             f == e.(id := f.id, status := f.status, prevHash := f.prevHash, chainHash := f.chainHash)
    requires books.years == s.books.years && s.schedules[cmd.schedule].entity == cmd.entity
    ensures var sc := s.schedules[cmd.schedule];
            var next := Next(sc, PlanOf(sc)[sc.posted]);
            Stepped(s, s.(books := books, schedules := s.schedules[cmd.schedule := next]), cmd, now)
  {
    hide Progress, PlanOf, Next, FormatInt;
  }

  /** What postOn does once its own guards hold. */
  lemma PostOnIs(s: State, cmd: PostCmd, now: int, hash: string -> string)
    requires cmd.schedule in s.schedules && s.schedules[cmd.schedule].entity == cmd.entity
    requires Progress(s.schedules[cmd.schedule]) && s.schedules[cmd.schedule].posted < s.schedules[cmd.schedule].periods
    requires cmd.journal > 0 && cmd.expense > 0 && cmd.accum > 0
    ensures var sc := s.schedules[cmd.schedule];
            var amount := PlanOf(sc)[sc.posted];
            var (books, r) := Ledger.Post(s.books, DepEntry(sc, cmd, sc.posted + 1, amount, now), hash);
            PostOn(s, cmd, now, hash)
            == if r.Failed? then (s.(books := books), Err(Refused(r.error)))
               else MarkPosted(s.(books := books), cmd.entity, cmd.schedule, amount, cmd.version)
  {
    hide Ledger.Post, MarkPosted, DepEntry;
  }

  // ----- Completion -----

  /** Posting attempts in a row, each with the schedule's current version. */
  function PostTimes(s: State, cmd: PostCmd, now: int, n: nat, hash: string -> string): State {
    if n == 0 then s
    else
      var t := PostTimes(s, cmd, now, n - 1, hash);
      if cmd.schedule !in t.schedules then t
      else Post(t, cmd.(version := t.schedules[cmd.schedule].version), now, hash).0
  }

  /** The same books but for entries, and the schedule under its terms at a later period. */
  ghost predicate Reached(s: State, t: State, id: int, posted: int) {
    && Inv(t) && t.books.years == s.books.years && id in s.schedules && id in t.schedules
    && SameTerms(s.schedules[id], t.schedules[id]) && t.schedules[id].posted == posted
  }

  /** Attempts at positive amounts each advance the schedule by one period. */
  lemma {:induction false} Advances(s: State, cmd: PostCmd, now: int, n: nat, hash: string -> string)
    requires Inv(s) && cmd.schedule in s.schedules && s.schedules[cmd.schedule].entity == cmd.entity
    requires cmd.journal > 0 && cmd.expense > 0 && cmd.accum > 0
    requires !Ledger.LockedFor(s.books.years, cmd.entity, now)
    requires Payable(s.schedules[cmd.schedule], n)
    ensures Reached(s, PostTimes(s, cmd, now, n, hash), cmd.schedule, s.schedules[cmd.schedule].posted + n)
    decreases n
  {
    hide Post, PlanOf, Inv, Ledger.LockedFor, PostTimes, AllPositive, Progress, SameTerms, Reached, Payable;
    var sc := s.schedules[cmd.schedule];
    ReachedSelf(s, cmd.schedule);
    PostTimesUnfolds(s, cmd, now, n, hash);
    if n > 0 {
      ShorterPart(sc, n);
      Advances(s, cmd, now, n - 1, hash);
      hide ValidTerms;
      ReachedPosted(s, PostTimes(s, cmd, now, n - 1, hash), cmd.schedule, sc.posted + (n - 1));
      Advance(s, PostTimes(s, cmd, now, n - 1, hash), cmd, now, sc.posted + n, hash);
    }
  }

  lemma ReachedSelf(s: State, id: int)
    requires Inv(s) && id in s.schedules
    ensures Reached(s, s, id, s.schedules[id].posted)
  {
    hide Inv;
  }

  /** The next n planned amounts are positive. */
  predicate Payable(sc: Schedule, n: nat) {
    Progress(sc) && sc.posted + n <= sc.periods && AllPositive(PlanOf(sc)[sc.posted..sc.posted + n])
  }

  lemma ShorterPart(sc: Schedule, n: nat)
    requires Payable(sc, n) && n > 0
    ensures Payable(sc, n - 1) && 0 <= sc.posted && sc.posted + n <= sc.periods
    ensures ValidTerms(sc.cost, sc.formula, sc.rateBps, sc.periods) && PlanOf(sc)[sc.posted + n - 1] > 0
  {
    hide Plan;
    var part := PlanOf(sc)[sc.posted..sc.posted + n];
    assert part[n - 1] == PlanOf(sc)[sc.posted + n - 1];
    assert part[..n - 1] == PlanOf(sc)[sc.posted..sc.posted + (n - 1)];
  }

  /** One more attempt, at a positive amount. */
  lemma Advance(s: State, t: State, cmd: PostCmd, now: int, posted: int, hash: string -> string)
    requires Inv(s) && cmd.schedule in s.schedules && s.schedules[cmd.schedule].entity == cmd.entity
    requires Reached(s, t, cmd.schedule, posted - 1)
    requires cmd.journal > 0 && cmd.expense > 0 && cmd.accum > 0
    requires !Ledger.LockedFor(s.books.years, cmd.entity, now)
    requires 0 < posted <= s.schedules[cmd.schedule].periods && PlanOf(s.schedules[cmd.schedule])[posted - 1] > 0
    ensures Reached(s, Post(t, cmd.(version := t.schedules[cmd.schedule].version), now, hash).0, cmd.schedule, posted)
  {
    var current := cmd.(version := t.schedules[cmd.schedule].version);
    InvHolds(s, cmd.schedule);
    InvHolds(t, cmd.schedule);
    SamePlan(s.schedules[cmd.schedule], t.schedules[cmd.schedule]);
    hide Post, PlanOf, Inv, Ledger.LockedFor, ValidTerms, Progress;
    PostSucceedsIff(t, current, now, hash);
    PostKeeps(t, current, now, hash);
    hide DepEntry;
  }

  lemma NextKeeps(s: State, t: State, id: int, next: Schedule)
    requires Inv(s) && id in s.schedules && Progress(next)
    requires next.entity == s.schedules[id].entity && next.asset == s.schedules[id].asset
    requires t.schedules == s.schedules[id := next] && t.lastId == s.lastId
    ensures Inv(t)
  {
    hide Progress;
    assert forall i :: i in s.schedules ==>
          t.schedules[i].entity == s.schedules[i].entity && t.schedules[i].asset == s.schedules[i].asset;
  }

  /** Posting keeps every schedule in order and its terms as they are. */
  lemma PostKeeps(s: State, cmd: PostCmd, now: int, hash: string -> string)
    requires Inv(s)
    ensures var t := Post(s, cmd, now, hash).0;
            && Inv(t)
            && forall i :: i in s.schedules ==> i in t.schedules && SameTerms(s.schedules[i], t.schedules[i])
  {
    if cmd.schedule in s.schedules && s.schedules[cmd.schedule].entity == cmd.entity {
      PostSucceedsIff(s, cmd, now, hash);
      var (t, r) := Post(s, cmd, now, hash);
      hide Post, PlanOf, Progress, DepEntry, Inv, ValidTerms;
      if r.Ok? {
        NextKeeps(s, t, cmd.schedule, r.value);
      }
    } else {
      hide Ledger.Post, Plan, Inv;
    }
  }

  predicate SameTerms(a: Schedule, b: Schedule) {
    && a.entity == b.entity && a.asset == b.asset && a.cost == b.cost && a.formula == b.formula
    && a.rateBps == b.rateBps
    && a.periods == b.periods
  }

  lemma PostTimesUnfolds(s: State, cmd: PostCmd, now: int, n: nat, hash: string -> string)
    ensures PostTimes(s, cmd, now, 0, hash) == s
    ensures n > 0 && cmd.schedule in PostTimes(s, cmd, now, n - 1, hash).schedules ==>
              var t := PostTimes(s, cmd, now, n - 1, hash);
              PostTimes(s, cmd, now, n, hash)
                  == Post(t, cmd.(version := t.schedules[cmd.schedule].version), now, hash).0
  {
    hide Post;
  }

  lemma SameTermsAlways(sc: Schedule)
    ensures SameTerms(sc, sc)
  {}

  lemma {:induction false} PostTimesKeeps(s: State, cmd: PostCmd, now: int, n: nat, hash: string -> string)
    requires Inv(s) && cmd.schedule in s.schedules
    ensures var t := PostTimes(s, cmd, now, n, hash);
            Inv(t) && cmd.schedule in t.schedules && SameTerms(s.schedules[cmd.schedule], t.schedules[cmd.schedule])
    decreases n
  {
    hide *;
    hide PostTimes, Inv, SameTerms;
    PostTimesUnfolds(s, cmd, now, n, hash);
    SameTermsAlways(s.schedules[cmd.schedule]);
    if n > 0 {
      PostTimesKeeps(s, cmd, now, n - 1, hash);
      AttemptKeeps(s.schedules[cmd.schedule], PostTimes(s, cmd, now, n - 1, hash), cmd, now, hash);
    }
  }

  lemma AttemptKeeps(sc: Schedule, t: State, cmd: PostCmd, now: int, hash: string -> string)
    requires Inv(t) && cmd.schedule in t.schedules && SameTerms(sc, t.schedules[cmd.schedule])
    ensures var u := Post(t, cmd.(version := t.schedules[cmd.schedule].version), now, hash).0;
            Inv(u) && cmd.schedule in u.schedules && SameTerms(sc, u.schedules[cmd.schedule])
  {
    hide Inv, SameTerms, Post;
    PostKeeps(t, cmd.(version := t.schedules[cmd.schedule].version), now, hash);
    var u := Post(t, cmd.(version := t.schedules[cmd.schedule].version), now, hash).0;
    SameTermsChain(sc, t.schedules[cmd.schedule], u.schedules[cmd.schedule]);
  }

  lemma SameTermsChain(a: Schedule, b: Schedule, c: Schedule)
    requires SameTerms(a, b) && SameTerms(b, c)
    ensures SameTerms(a, c)
  {}

  /** Posting period after period completes the plan exactly when none of its amounts is zero. */
  lemma CompletionIff(s: State, cmd: PostCmd, now: int, hash: string -> string)
    requires Inv(s) && cmd.schedule in s.schedules && s.schedules[cmd.schedule].entity == cmd.entity
    requires cmd.journal > 0 && cmd.expense > 0 && cmd.accum > 0
    requires !Ledger.LockedFor(s.books.years, cmd.entity, now)
    ensures var sc := s.schedules[cmd.schedule];
            var t := PostTimes(s, cmd, now, sc.periods - sc.posted, hash);
            cmd.schedule in t.schedules && (AllPositive(PlanOf(sc)) <==> t.schedules[cmd.schedule].status == DONE)
  {
    hide *;
    hide PlanOf, AllPositive, PostTimes;
    var sc := s.schedules[cmd.schedule];
    InvHolds(s, cmd.schedule);
    PostTimesKeeps(s, cmd, now, sc.periods - sc.posted, hash);
    var t := PostTimes(s, cmd, now, sc.periods - sc.posted, hash);
    InvHolds(t, cmd.schedule);
    SamePlan(sc, t.schedules[cmd.schedule]);
    DoneIsPaidOff(t.schedules[cmd.schedule]);
    if AllPositive(PlanOf(sc)) {
      RestPositive(sc);
      Advances(s, cmd, now, sc.periods - sc.posted, hash);
      assert t.schedules[cmd.schedule].posted == sc.periods by {
        ReachedPosted(s, t, cmd.schedule, sc.periods);
      }
      FullyPosted(t.schedules[cmd.schedule]);
    }
  }

  lemma ReachedPosted(s: State, t: State, id: int, posted: int)
    requires Reached(s, t, id, posted)
    ensures id in t.schedules && t.schedules[id].posted == posted
  {}

  lemma InvHolds(s: State, id: int)
    requires Inv(s) && id in s.schedules
    ensures Progress(s.schedules[id]) && s.schedules[id].posted <= s.schedules[id].periods
         && ValidTerms(s.schedules[id].cost, s.schedules[id].formula, s.schedules[id].rateBps, s.schedules[id].periods)
  {}

  lemma SamePlan(a: Schedule, b: Schedule)
    requires Progress(a) && Progress(b) && SameTerms(a, b)
    ensures PlanOf(a) == PlanOf(b) && a.periods == b.periods
  {}

  lemma RestPositive(sc: Schedule)
    requires Progress(sc) && AllPositive(PlanOf(sc))
    ensures 0 <= sc.periods - sc.posted && Payable(sc, sc.periods - sc.posted)
  {
    hide Plan;
  }

  lemma FullyPosted(sc: Schedule)
    requires Progress(sc) && sc.posted == sc.periods
    ensures sc.status == DONE
  {}

  /** A schedule that is done had only positive amounts and is written off entirely; before
      that it has a book value unless only zero amounts remain. */
  lemma DoneIsPaidOff(sc: Schedule)
    requires Progress(sc)
    ensures 0 <= sc.accumulated <= sc.cost
    ensures sc.status == DONE ==> AllPositive(PlanOf(sc)) && sc.accumulated == sc.cost
  {
    PrefixWithinCost(sc.cost, sc.formula, sc.rateBps, sc.periods, sc.posted);
    if sc.status == DONE {
      PlanSumsToCost(sc.cost, sc.formula, sc.rateBps, sc.periods);
      assert PlanOf(sc)[..sc.periods] == PlanOf(sc);
    }
  }

  // ----- Disposal -----

  datatype DisposeCmd = DisposeCmd(
    entity: int, asset: int, journal: int, cash: int, cost: int, accum: int, gain: int, loss: int, proceeds: int,
    version: int)

  function When(c: bool, l: EntryLine): seq<EntryLine> {
    if c then [l] else []
  }

  function DisposalDebits(cmd: DisposeCmd, cost: int, accumulated: int): seq<EntryLine> {
    var diff := cmd.proceeds - (cost - accumulated);
    When(cmd.proceeds > 0, EntryLine(cmd.cash, "Disposal proceeds", cmd.proceeds, 0, 0))
    + (When(accumulated > 0, EntryLine(cmd.accum, "Accumulated depreciation", accumulated, 0, 0))
       + When(diff < 0, EntryLine(cmd.loss, "Loss on disposal", -diff, 0, 0)))
  }

  function DisposalCredits(cmd: DisposeCmd, cost: int, accumulated: int): seq<EntryLine> {
    var diff := cmd.proceeds - (cost - accumulated);
    [EntryLine(cmd.cost, "Asset cost", 0, cost, 0)]
    + When(diff > 0, EntryLine(cmd.gain, "Gain on disposal", 0, diff, 0))
  }

  function DisposalLegs(cmd: DisposeCmd, cost: int, accumulated: int): seq<EntryLine> {
    DisposalDebits(cmd, cost, accumulated) + DisposalCredits(cmd, cost, accumulated)
  }

  /** An account is given for an amount that has a leg. */
  predicate Given(amount: int, account: int) {
    amount > 0 ==> account > 0
  }

  /** The accounts a disposal needs are given. */
  predicate AccountsGiven(cmd: DisposeCmd, cost: int, accumulated: int) {
    var diff := cmd.proceeds - (cost - accumulated);
    && Given(cmd.proceeds, cmd.cash) && Given(accumulated, cmd.accum) && Given(diff, cmd.gain) && Given(-diff, cmd.loss)
  }

  lemma WhenAdds(c: bool, l: EntryLine, a: int)
    ensures var legs := When(c, l);
            && Debits(legs) == (if c then l.debit else 0) && Credits(legs) == (if c then l.credit else 0)
            && DebitOn(legs, a) == (if c && l.account == a then l.debit else 0)
            && CreditOn(legs, a) == (if c && l.account == a then l.credit else 0)
            && (GoodLegs(legs) <==> (c ==> GoodLeg(l)))
  {
    OneLeg(l, a);
    assert GoodLegs([l]) <==> GoodLeg(l);
  }

  /** What account a gets, if its part of the entry is v. */
  function Part(a: int, account: int, v: int): int {
    if a == account then v else 0
  }

  function Positive(n: int): nat {
    if n > 0 then n else 0
  }

  lemma DebitParts(cmd: DisposeCmd, cost: int, accumulated: int, a: int)
    requires accumulated >= 0 && cmd.proceeds >= 0
    ensures var legs, loss := DisposalDebits(cmd, cost, accumulated), Positive(cost - accumulated - cmd.proceeds);
            && Debits(legs) == cmd.proceeds + accumulated + loss && Credits(legs) == 0
            && DebitOn(legs, a)
               == Part(a, cmd.cash, cmd.proceeds) + Part(a, cmd.accum, accumulated) + Part(a, cmd.loss, loss)
            && CreditOn(legs, a) == 0
            && var given := Given(cmd.proceeds, cmd.cash) && Given(accumulated, cmd.accum) && Given(loss, cmd.loss);
               given ==> GoodLegs(legs)
  {
    var diff := cmd.proceeds - (cost - accumulated);
    var x := EntryLine(cmd.cash, "Disposal proceeds", cmd.proceeds, 0, 0);
    var y := EntryLine(cmd.accum, "Accumulated depreciation", accumulated, 0, 0);
    var z := EntryLine(cmd.loss, "Loss on disposal", -diff, 0, 0);
    assert DisposalDebits(cmd, cost, accumulated)
        == When(cmd.proceeds > 0, x) + (When(accumulated > 0, y) + When(diff < 0, z));
    hide DisposalDebits, Debits, Credits, DebitOn, CreditOn, GoodLegs, When;
    ThreeDebits(cmd.proceeds > 0, x, accumulated > 0, y, diff < 0, z, a);
  }

  /** Up to three debit legs. */
  lemma ThreeDebits(c: bool, x: EntryLine, d: bool, y: EntryLine, e: bool, z: EntryLine, a: int)
    requires x.credit == 0 && y.credit == 0 && z.credit == 0
    ensures var legs := When(c, x) + (When(d, y) + When(e, z));
            && Debits(legs) == (if c then x.debit else 0) + (if d then y.debit else 0) + (if e then z.debit else 0)
            && Credits(legs) == 0 && CreditOn(legs, a) == 0
            && DebitOn(legs, a)
               == Part(a, x.account, if c then x.debit else 0) + Part(a, y.account, if d then y.debit else 0)
                  + Part(a, z.account, if e then z.debit else 0)
            && (GoodLegs(legs) <==> (c ==> GoodLeg(x)) && (d ==> GoodLeg(y)) && (e ==> GoodLeg(z)))
  {
    WhenAdds(c, x, a);
    WhenAdds(d, y, a);
    WhenAdds(e, z, a);
    hide Debits, Credits, DebitOn, CreditOn, GoodLegs, When;
    ConcatAdds(When(d, y), When(e, z), a);
    ConcatAdds(When(c, x), When(d, y) + When(e, z), a);
  }

  lemma CreditParts(cmd: DisposeCmd, cost: int, accumulated: int, a: int)
    requires cost > 0
    ensures var legs, gain := DisposalCredits(cmd, cost, accumulated), Positive(cmd.proceeds - (cost - accumulated));
            && Credits(legs) == cost + gain && Debits(legs) == 0
            && CreditOn(legs, a) == Part(a, cmd.cost, cost) + Part(a, cmd.gain, gain)
            && DebitOn(legs, a) == 0
            && (cmd.cost > 0 && (gain > 0 ==> cmd.gain > 0) ==> GoodLegs(legs))
  {
    var diff := cmd.proceeds - (cost - accumulated);
    var x := EntryLine(cmd.cost, "Asset cost", 0, cost, 0);
    var y := EntryLine(cmd.gain, "Gain on disposal", 0, diff, 0);
    assert When(true, x) == [x];
    var p, q := When(true, x), When(diff > 0, y);
    assert DisposalCredits(cmd, cost, accumulated) == p + q;
    WhenAdds(true, x, a);
    WhenAdds(diff > 0, y, a);
    hide DisposalCredits, Debits, Credits, DebitOn, CreditOn, GoodLegs, When;
    ConcatAdds(p, q, a);
  }

  /** The disposal entry always passes validation: proceeds, written-off depreciation and the
      loss or gain balance the cost. */
  lemma DisposalBalances(cmd: DisposeCmd, cost: int, accumulated: int)
    requires cost > 0 && accumulated >= 0 && cmd.proceeds >= 0 && cmd.journal > 0 && cmd.cost > 0
    requires AccountsGiven(cmd, cost, accumulated)
    ensures var legs := DisposalLegs(cmd, cost, accumulated);
            && Balanced(cmd.journal, legs)
            && Credits(legs) == if cmd.proceeds > cost - accumulated then cmd.proceeds + accumulated else cost
  {
    var debits, credits := DisposalDebits(cmd, cost, accumulated), DisposalCredits(cmd, cost, accumulated);
    DebitParts(cmd, cost, accumulated, 0);
    CreditParts(cmd, cost, accumulated, 0);
    hide DisposalDebits, DisposalCredits, Part, Debits, Credits, DebitOn, CreditOn, GoodLegs, Balanced;
    BalancedJoin(cmd.journal, debits, credits);
  }

  lemma BalancedJoin(journal: int, debits: seq<EntryLine>, credits: seq<EntryLine>)
    requires journal != 0 && GoodLegs(debits) && GoodLegs(credits)
    requires Debits(debits) == Credits(credits) > 0 && Credits(debits) == Debits(credits) == 0
    ensures Balanced(journal, debits + credits) && Credits(debits + credits) == Credits(credits)
  {
    assert debits != [] && credits != [];
    ConcatAdds(debits, credits, 0);
    hide Debits, Credits, GoodLegs;
  }

  /** Where a disposal books what, on accounts that may coincide: the cash account receives
      the proceeds, cost and depreciation are taken off, and the difference to the net book
      value is the gain or the loss. */
  lemma DisposalEffect(cmd: DisposeCmd, cost: int, accumulated: int, a: int)
    requires cost > 0 && accumulated >= 0 && cmd.proceeds >= 0
    ensures var legs, book := DisposalLegs(cmd, cost, accumulated), cost - accumulated;
            && DebitOn(legs, a) == Part(a, cmd.cash, cmd.proceeds) + Part(a, cmd.accum, accumulated)
                                   + Part(a, cmd.loss, Positive(book - cmd.proceeds))
            && CreditOn(legs, a) == Part(a, cmd.cost, cost) + Part(a, cmd.gain, Positive(cmd.proceeds - book))
  {
    DebitParts(cmd, cost, accumulated, a);
    CreditParts(cmd, cost, accumulated, a);
    ConcatAdds(DisposalDebits(cmd, cost, accumulated), DisposalCredits(cmd, cost, accumulated), a);
    hide DisposalDebits, DisposalCredits, Debits, Credits, DebitOn, CreditOn, GoodLegs;
  }

  predicate CanTransition(a: Asset, to: int) {
    if a.status == IN_SERVICE then to == MAINTENANCE || to == RETIRED
    else a.status == MAINTENANCE && (to == IN_SERVICE || to == RETIRED)
  }

  /** MemoryStore.SetAssetStatus. */
  function SetStatus(s: State, entity: int, id: int, to: int, version: int): (State, Result<Asset>) {
    if id !in s.assets || s.assets[id].entity != entity then (s, Err(NotFound))
    else if s.assets[id].version != version then (s, Err(Stale))
    else if !CanTransition(s.assets[id], to) then (s, Err(Invalid))
    else
      var a := s.assets[id].(status := to, version := s.assets[id].version + 1);
      (s.(assets := s.assets[id := a]), Ok(a))
  }

  function Costs(s: State, entity: int, asset: int): map<int, int> {
    map i | i in s.schedules && s.schedules[i].entity == entity && s.schedules[i].asset == asset :: s.schedules[i].cost
  }

  function Depreciated(s: State, entity: int, asset: int): map<int, int> {
    map i | i in s.schedules && s.schedules[i].entity == entity && s.schedules[i].asset == asset
      :: s.schedules[i].accumulated
  }

  function DisposalEntry(a: Asset, cmd: DisposeCmd, legs: seq<EntryLine>, now: int): Entry {
    Entry(0, a.entity, cmd.journal, "DISP-" + FormatInt(a.id), now, "Disposal asset " + a.code, Draft, legs, "", "")
  }

  /** DepService.disposeOn. */
  ghost function DisposeOn(s: State, cmd: DisposeCmd, now: int, hash: string -> string): (State, Result<Asset>) {
    if cmd.journal <= 0 || cmd.cost <= 0 || cmd.proceeds < 0 then (s, Err(Invalid))
    else if cmd.asset !in s.assets || s.assets[cmd.asset].entity != cmd.entity then (s, Err(NotFound))
    else if s.assets[cmd.asset].version != cmd.version then (s, Err(Stale))
    else if !HasSchedule(s.schedules, cmd.entity, cmd.asset) then (s, Err(Invalid))
    else
      var cost, accumulated := Total(Costs(s, cmd.entity, cmd.asset)), Total(Depreciated(s, cmd.entity, cmd.asset));
      if !AccountsGiven(cmd, cost, accumulated) then (s, Err(Invalid))
      else
        var e := DisposalEntry(s.assets[cmd.asset], cmd, DisposalLegs(cmd, cost, accumulated), now);
        var (books, r) := Ledger.Post(s.books, e, hash);
        if r.Failed? then (s.(books := books), Err(Refused(r.error)))
        else SetStatus(s.(books := books), cmd.entity, cmd.asset, RETIRED, cmd.version)
  }

  ghost function Dispose(s: State, cmd: DisposeCmd, now: int, hash: string -> string): (State, Result<Asset>) {
    Atomic(s, DisposeOn(s, cmd, now, hash))
  }

  /** In every reachable state an asset has one schedule, which costs something and has written
      off no negative amount. */
  lemma DisposalBasis(s: State, entity: int, asset: int, i: int)
    requires Inv(s) && i in s.schedules && s.schedules[i].entity == entity && s.schedules[i].asset == asset
    ensures Total(Costs(s, entity, asset)) == s.schedules[i].cost > 0
    ensures Total(Depreciated(s, entity, asset)) == s.schedules[i].accumulated >= 0
  {
    var costs, written := Costs(s, entity, asset), Depreciated(s, entity, asset);
    assert forall k :: k in costs ==> k == i;
    assert costs == map[][i := s.schedules[i].cost] && written == map[][i := s.schedules[i].accumulated];
    TotalSet(map[], i, s.schedules[i].cost);
    TotalSet(map[], i, s.schedules[i].accumulated);
    DoneIsPaidOff(s.schedules[i]);
  }

  /** Nothing changes but the assets and one more entry with these legs. */
  predicate Disposed(s: State, t: State, cmd: DisposeCmd, now: int, legs: seq<EntryLine>)
    requires cmd.asset in s.assets
  {
    && t == s.(books := t.books, assets := t.assets) && t.books.years == s.books.years
    && |t.books.entries| == |s.books.entries| + 1 && s.books.entries <= t.books.entries
    && var e := t.books.entries[|s.books.entries|];
       && e.entity == cmd.entity && e.journal == cmd.journal && e.date == now && e.lines == legs
       && e.ref == "DISP-" + FormatInt(s.assets[cmd.asset].id)
  }

  /** A disposal is refused only for a missing account, a stale version, a retired asset, an
      asset without schedule, or a locked year; its entry is never out of balance. */
  lemma DisposeSucceedsIff(s: State, cmd: DisposeCmd, now: int, hash: string -> string)
    requires Inv(s) && cmd.asset in s.assets && s.assets[cmd.asset].entity == cmd.entity
    ensures var a, (t, r) := s.assets[cmd.asset], Dispose(s, cmd, now, hash);
            && (r.Ok? <==>
                  && cmd.journal > 0 && cmd.cost > 0 && cmd.proceeds >= 0 && a.version == cmd.version
                  && (a.status == IN_SERVICE || a.status == MAINTENANCE)
                  && HasSchedule(s.schedules, cmd.entity, cmd.asset)
                  && AccountsGiven(cmd, Total(Costs(s, cmd.entity, cmd.asset)),
                                   Total(Depreciated(s, cmd.entity, cmd.asset)))
                  && !Ledger.LockedFor(s.books.years, cmd.entity, now))
            && (r.Err? ==> t == s)
            && (r.Ok? ==>
                  && r.value == a.(status := RETIRED, version := a.version + 1)
                  && Disposed(s, t, cmd, now,
                              DisposalLegs(cmd, Total(Costs(s, cmd.entity, cmd.asset)),
                                           Total(Depreciated(s, cmd.entity, cmd.asset))))
                  && t.assets == s.assets[cmd.asset := r.value])
  {
    hide Inv, DisposeOn, SetStatus, Costs, Depreciated, HasSchedule, AccountsGiven, Ledger.LockedFor;
    hide Disposed, DisposalLegs;
    var cost, accumulated := Total(Costs(s, cmd.entity, cmd.asset)), Total(Depreciated(s, cmd.entity, cmd.asset));
    if DisposalAllowed(s, cmd, cost, accumulated) {
      var i := ScheduleOf(s.schedules, cmd.entity, cmd.asset);
      DisposalBasis(s, cmd.entity, cmd.asset, i);
      DisposeAllowed(s, cmd, now, hash, cost, accumulated);
    } else {
      DisposeRefused(s, cmd, now, hash, cost, accumulated);
    }
  }

  /** The guards of disposeOn before it posts. */
  ghost predicate DisposalAllowed(s: State, cmd: DisposeCmd, cost: int, accumulated: int)
    requires cmd.asset in s.assets
  {
    && cmd.journal > 0 && cmd.cost > 0 && cmd.proceeds >= 0 && s.assets[cmd.asset].version == cmd.version
    && HasSchedule(s.schedules, cmd.entity, cmd.asset) && AccountsGiven(cmd, cost, accumulated)
  }

  lemma DisposeRefused(
    s: State, cmd: DisposeCmd, now: int, hash: string -> string, cost: int, accumulated: int)
    requires cmd.asset in s.assets && s.assets[cmd.asset].entity == cmd.entity
    requires cost == Total(Costs(s, cmd.entity, cmd.asset))
    requires accumulated == Total(Depreciated(s, cmd.entity, cmd.asset))
    requires !DisposalAllowed(s, cmd, cost, accumulated)
    ensures DisposeOn(s, cmd, now, hash).1.Err?
  {
    hide Ledger.Post, DisposalLegs, DisposalEntry, Costs, Depreciated, HasSchedule, AccountsGiven, SetStatus;
  }

  lemma DisposeAllowed(
    s: State, cmd: DisposeCmd, now: int, hash: string -> string, cost: int, accumulated: int)
    requires cmd.asset in s.assets && s.assets[cmd.asset].entity == cmd.entity && cost > 0 && accumulated >= 0
    requires cost == Total(Costs(s, cmd.entity, cmd.asset))
    requires accumulated == Total(Depreciated(s, cmd.entity, cmd.asset))
    requires DisposalAllowed(s, cmd, cost, accumulated)
    ensures var a, (t, r) := s.assets[cmd.asset], DisposeOn(s, cmd, now, hash);
            && (r.Ok? <==>
                  && (a.status == IN_SERVICE || a.status == MAINTENANCE)
                  && !Ledger.LockedFor(s.books.years, cmd.entity, now))
            && (r.Ok? ==>
                  && r.value == a.(status := RETIRED, version := a.version + 1)
                  && Disposed(s, t, cmd, now, DisposalLegs(cmd, cost, accumulated))
                  && t.assets == s.assets[cmd.asset := r.value])
  {
    var legs, a := DisposalLegs(cmd, cost, accumulated), s.assets[cmd.asset];
    var e := DisposalEntry(a, cmd, legs, now);
    assert e.entity == cmd.entity && e.date == now && e.lines == legs && e.journal == cmd.journal;
    assert e.ref == "DISP-" + FormatInt(a.id);
    hide FormatInt;
    assert cmd.journal > 0 && cmd.cost > 0 && cmd.proceeds >= 0 && AccountsGiven(cmd, cost, accumulated);
    DisposeOnIs(s, cmd, now, hash, cost, accumulated);
    RetireIs(s.(books := Ledger.Post(s.books, e, hash).0), cmd);
    hide Ledger.Post, Ledger.LockedFor, Balanced, DisposalLegs, Costs, Depreciated, HasSchedule, AccountsGiven;
    hide DisposalEntry, DisposeOn, SetStatus, DisposalAllowed, Disposed;
    DisposalBalances(cmd, cost, accumulated);
    Ledger.PostEffect(s.books, e, hash);
    if Ledger.Post(s.books, e, hash).1.Done? {
      MakeDisposed(s, DisposeOn(s, cmd, now, hash).0, cmd, now, e, Ledger.Post(s.books, e, hash).1.value);
    }
  }

  lemma MakeDisposed(s: State, t: State, cmd: DisposeCmd, now: int, e: Entry, posted: Entry)
    requires e.entity == cmd.entity && e.journal == cmd.journal && e.date == now && cmd.asset in s.assets
    requires e.ref == "DISP-" + FormatInt(s.assets[cmd.asset].id)
    requires posted == e.(id := posted.id, status := posted.status, prevHash := posted.prevHash,
                          chainHash := posted.chainHash)
    ensures t == s.(books := t.books, assets := t.assets)
         && t.books == s.books.(entries := s.books.entries + [posted], lastId := t.books.lastId)
         ==> Disposed(s, t, cmd, now, e.lines)
  {}

  /** What disposeOn does once its own guards hold. */
  lemma DisposeOnIs(
    s: State, cmd: DisposeCmd, now: int, hash: string -> string, cost: int, accumulated: int)
    requires cmd.asset in s.assets && s.assets[cmd.asset].entity == cmd.entity
    requires cost == Total(Costs(s, cmd.entity, cmd.asset))
    requires accumulated == Total(Depreciated(s, cmd.entity, cmd.asset))
    requires DisposalAllowed(s, cmd, cost, accumulated)
    ensures var e := DisposalEntry(s.assets[cmd.asset], cmd, DisposalLegs(cmd, cost, accumulated), now);
            var (books, r) := Ledger.Post(s.books, e, hash);
            DisposeOn(s, cmd, now, hash)
            == if r.Failed? then (s.(books := books), Err(Refused(r.error)))
               else SetStatus(s.(books := books), cmd.entity, cmd.asset, RETIRED, cmd.version)
  {
    hide Ledger.Post, DisposalLegs, DisposalEntry, Costs, Depreciated, HasSchedule, AccountsGiven, SetStatus;
  }

  lemma RetireIs(s: State, cmd: DisposeCmd)
    requires cmd.asset in s.assets && s.assets[cmd.asset].entity == cmd.entity
    requires s.assets[cmd.asset].version == cmd.version
    ensures var a, (t, r) := s.assets[cmd.asset], SetStatus(s, cmd.entity, cmd.asset, RETIRED, cmd.version);
            && (r.Ok? <==> a.status == IN_SERVICE || a.status == MAINTENANCE)
            && (r.Ok? ==>
                  && r.value == a.(status := RETIRED, version := a.version + 1)
                  && t == s.(assets := s.assets[cmd.asset := r.value]))
  {}

  lemma ScheduleOf(schedules: map<int, Schedule>, entity: int, asset: int) returns (i: int)
    requires HasSchedule(schedules, entity, asset)
    ensures i in schedules && schedules[i].entity == entity && schedules[i].asset == asset
  {
    i :| i in schedules && schedules[i].entity == entity && schedules[i].asset == asset;
  }

  /** The same by the asset's one schedule, field by field: an asset in service or maintenance is
      retired exactly if the accounts its legs need are given, its version is current, and no
      locked year contains the date. */
  lemma DisposeByScheduleIff(s: State, cmd: DisposeCmd, now: int, hash: string -> string, i: int)
    requires Inv(s) && cmd.asset in s.assets && s.assets[cmd.asset].entity == cmd.entity
    requires i in s.schedules && s.schedules[i].entity == cmd.entity && s.schedules[i].asset == cmd.asset
    ensures var a, sc := s.assets[cmd.asset], s.schedules[i];
            var book := sc.cost - sc.accumulated;
            Dispose(s, cmd, now, hash).1.Ok? <==>
              && cmd.journal > 0 && cmd.proceeds >= 0 && a.version == cmd.version
              && (a.status == IN_SERVICE || a.status == MAINTENANCE)
              && cmd.cost > 0 && (cmd.proceeds > 0 ==> cmd.cash > 0) && (sc.accumulated > 0 ==> cmd.accum > 0)
              && (cmd.proceeds > book ==> cmd.gain > 0) && (cmd.proceeds < book ==> cmd.loss > 0)
              && forall k ::
                   0 <= k < |s.books.years| && s.books.years[k].entity == cmd.entity && s.books.years[k].locked
                   ==> now < s.books.years[k].start || s.books.years[k].end < now
  {
    DisposeSucceedsIff(s, cmd, now, hash);
    DisposalBasis(s, cmd.entity, cmd.asset, i);
    Ledger.OpenIff(s.books.years, cmd.entity, now);
    hide Dispose, Costs, Depreciated, Inv, Ledger.LockedFor, DisposalLegs, Disposed;
    assert HasSchedule(s.schedules, cmd.entity, cmd.asset);
  }

  /** An asset's status changes exactly in its current version, from service or maintenance to
      the other or to retired. */
  lemma SetStatusIff(s: State, entity: int, id: int, to: int, version: int)
    ensures var (t, r) := SetStatus(s, entity, id, to, version);
            && (r.Ok? <==>
                  && id in s.assets && s.assets[id].entity == entity && s.assets[id].version == version
                  && (s.assets[id].status, to) in {
                       (IN_SERVICE, MAINTENANCE), (IN_SERVICE, RETIRED), (MAINTENANCE, IN_SERVICE),
                       (MAINTENANCE, RETIRED)})
            && (r.Err? ==> t == s)
            && (r.Ok? ==>
                  && r.value == s.assets[id].(status := to, version := version + 1)
                  && t == s.(assets := s.assets[id := r.value]))
  {}

  // ----- Runs -----

  datatype Op =
    | OpenOp(schedule: Schedule)
    | PostOp(post: PostCmd, now: int)
    | DisposeOp(dispose: DisposeCmd, when: int)
    | AssetOp(asset: Asset)
    | StatusOp(entity: int, id: int, to: int, version: int)
    | LedgerOp(books: Ledger.Books)   // anything else that happens in the ledger

  /** New schedules arrive active. */
  predicate Admissible(op: Op) {
    op.OpenOp? ==> op.schedule.status == ACTIVE
  }

  ghost function Step(s: State, op: Op, hash: string -> string): State {
    match op
    case OpenOp(sc) => OpenSchedule(s, sc).0
    case PostOp(cmd, now) => Post(s, cmd, now, hash).0
    case DisposeOp(cmd, now) => Dispose(s, cmd, now, hash).0
    case AssetOp(a) => s.(assets := s.assets[s.lastId + 1 := a.(id := s.lastId + 1)], lastId := s.lastId + 1)
    case StatusOp(entity, id, to, version) => SetStatus(s, entity, id, to, version).0
    case LedgerOp(books) => s.(books := books)
  }

  ghost function Run(s: State, ops: seq<Op>, hash: string -> string): State
    decreases |ops|
  {
    if ops == [] then s else Run(Step(s, ops[0], hash), ops[1..], hash)
  }

  lemma OpenKeeps(s: State, sc: Schedule)
    requires Inv(s) && sc.status == ACTIVE
    ensures Inv(OpenSchedule(s, sc).0)
  {
    if OpenSchedule(s, sc).1.Ok? {
      StartProgress(sc.(id := s.lastId + 1, version := 1));
    }
    hide Progress;
  }

  lemma StepKeeps(s: State, op: Op, hash: string -> string)
    requires Inv(s) && Admissible(op)
    ensures Inv(Step(s, op, hash))
  {
    match op
    case OpenOp(sc) => OpenKeeps(s, sc);
    case PostOp(cmd, now) => PostKeeps(s, cmd, now, hash);
    case DisposeOp(cmd, now) => hide Ledger.Post, Progress, DisposalLegs, AccountsGiven;
    case _ => hide Progress;
  }

  const EMPTY: State := State(Ledger.EMPTY_BOOKS, map[], map[], 0)

  lemma {:induction false} RunKeeps(s: State, ops: seq<Op>, hash: string -> string)
    requires Inv(s) && forall i :: 0 <= i < |ops| ==> Admissible(ops[i])
    ensures Inv(Run(s, ops, hash))
    decreases |ops|
  {
    if ops != [] {
      StepKeeps(s, ops[0], hash);
      hide Step, Inv;
      RunKeeps(Step(s, ops[0], hash), ops[1..], hash);
    }
  }

  /** Over every run: accumulated depreciation is the sum of the first posted plan amounts,
      a schedule is done exactly when all periods are posted, and a plan with a zero amount
      is never done. */
  lemma ReachableSchedules(ops: seq<Op>, hash: string -> string, id: int)
    requires forall i :: 0 <= i < |ops| ==> Admissible(ops[i])
    requires id in Run(EMPTY, ops, hash).schedules
    ensures var sc := Run(EMPTY, ops, hash).schedules[id];
            && Progress(sc)
            && (sc.status == DONE ==> AllPositive(PlanOf(sc)) && sc.accumulated == sc.cost)
  {
    hide Run, Inv, Sum, Plan, ValidTerms, AllPositive, EMPTY;
    EmptyInv();
    RunKeeps(EMPTY, ops, hash);
    InvHolds(Run(EMPTY, ops, hash), id);
    DoneIsPaidOff(Run(EMPTY, ops, hash).schedules[id]);
  }

  lemma EmptyInv()
    ensures Inv(EMPTY)
  {}

  /** A retired asset stays as it is: it is not disposed of twice. */
  lemma {:induction false} RetiredForGood(s: State, ops: seq<Op>, hash: string -> string, id: int)
    requires id in s.assets && s.assets[id].status == RETIRED && id <= s.lastId
    ensures id in Run(s, ops, hash).assets && Run(s, ops, hash).assets[id] == s.assets[id]
    decreases |ops|
  {
    if ops != [] {
      RetiredStep(s, ops[0], hash, id);
      hide Step;
      RetiredForGood(Step(s, ops[0], hash), ops[1..], hash, id);
    }
  }

  lemma RetiredStep(s: State, op: Op, hash: string -> string, id: int)
    requires id in s.assets && s.assets[id].status == RETIRED && id <= s.lastId
    ensures var t := Step(s, op, hash); id in t.assets && t.assets[id] == s.assets[id] && s.lastId <= t.lastId
  {
    hide Ledger.Post, Plan, DisposalLegs, AccountsGiven, HasSchedule, ValidSchedule, DepEntry, DisposalEntry;
  }
}
