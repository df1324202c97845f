/** Bookable resources and their reservations
    (backend/internal/booking/domain.go:40-132, store.go:179-301). Instants are integers;
    None stands for the zero time. */
module Bookings {
  import opened Options
  import Paths
  import opened Sets

  const BOOKED: int := 0
  const CHECKED_IN: int := 1
  const COMPLETED: int := 2
  const CANCELED: int := -1

  datatype Resource = Resource(id: int, entity: int, code: string, text: string, capacity: int, active: bool)

  datatype Booking = Booking(
    id: int, entity: int, resource: int, login: string, start: Option<int>, end: Option<int>, seats: int,
    status: int, version: int)

  datatype Error = Invalid | NotFound | Inactive | Full | Conflict | Stale | IllegalMove

  datatype Outcome<+T> = Done(value: T) | Failed(error: Error)

  /** Resource.Validate. */
  predicate ValidResource(r: Resource) {
    r.entity > 0 && Paths.TrimSpace(r.code) != "" && Paths.TrimSpace(r.text) != "" && r.capacity >= 1
  }

  /** Booking.Validate. */
  predicate ValidBooking(b: Booking) {
    && b.entity > 0 && b.resource > 0 && Paths.TrimSpace(b.login) != ""
    && b.start.Some? && b.end.Some? && b.start.value < b.end.value && b.seats >= 1
  }

  predicate Live(b: Booking) {
    b.status == BOOKED || b.status == CHECKED_IN
  }

  predicate CanTransition(b: Booking, to: int) {
    if b.status == BOOKED then to == CHECKED_IN || to == COMPLETED || to == CANCELED
    else b.status == CHECKED_IN && (to == COMPLETED || to == CANCELED)
  }

  /** Overlaps, on half-open windows. */
  predicate Overlaps(a: Booking, b: Booking) {
    && a.start.Some? && a.end.Some? && b.start.Some? && b.end.Some?
    && a.start.value < b.end.value && b.start.value < a.end.value
  }

  /** The window of b contains the instant t. */
  predicate Covers(b: Booking, t: int) {
    b.start.Some? && b.end.Some? && b.start.value <= t < b.end.value
  }

  /** Two windows overlap exactly when some instant is in both. */
  lemma OverlapsIsSharedInstant(a: Booking, b: Booking)
    requires ValidBooking(a) && ValidBooking(b)
    ensures Overlaps(a, b) <==> exists t :: Covers(a, t) && Covers(b, t)
  {
    if Overlaps(a, b) {
      var t := if a.start.value < b.start.value then b.start.value else a.start.value;
      assert Covers(a, t) && Covers(b, t);
    }
  }

  type Table = map<int, Booking>

  datatype State = State(resources: map<int, Resource>, bookings: Table, lastId: nat)

  const EMPTY: State := State(map[], map[], 0)

  /** A booking that FitsCapacity counts against want. */
  predicate Competes(b: Booking, want: Booking) {
    b.resource == want.resource && b.entity == want.entity && b.id != want.id && Live(b) && Overlaps(b, want)
  }

  function Competing(bookings: Table, want: Booking): map<int, int> {
    map i | i in bookings && Competes(bookings[i], want) :: bookings[i].seats
  }

  ghost predicate Fits(s: State, want: Booking)
    requires want.resource in s.resources
  {
    Total(Competing(s.bookings, want)) + want.seats <= s.resources[want.resource].capacity
  }

  ghost predicate CodeTaken(s: State, r: Resource) {
    exists i :: i in s.resources && s.resources[i].entity == r.entity && s.resources[i].code == r.code
  }

  /** MemoryStore.CreateResource. */
  ghost function OpenResource(s: State, r: Resource): (State, Outcome<int>) {
    if !ValidResource(r) then (s, Failed(Invalid))
    else if CodeTaken(s, r) then (s, Failed(Conflict))
    else
      var id := s.lastId + 1;
      (State(s.resources[id := r.(id := id)], s.bookings, id), Done(id))
  }

  /** MemoryStore.CreateBooking. */
  ghost function Reserve(s: State, b: Booking): (State, Outcome<int>) {
    if !ValidBooking(b) then (s, Failed(Invalid))
    else if b.resource !in s.resources || s.resources[b.resource].entity != b.entity then (s, Failed(NotFound))
    else if !s.resources[b.resource].active then (s, Failed(Inactive))
    else if !Fits(s, b) then (s, Failed(Full))
    else
      var id := s.lastId + 1;
      (State(s.resources, s.bookings[id := b.(id := id, version := 1)], id), Done(id))
  }

  /** MemoryStore.SetBookingStatus. */
  function Advance(s: State, entity: int, id: int, to: int, version: int): (State, Outcome<Booking>) {
    if id !in s.bookings || s.bookings[id].entity != entity then (s, Failed(NotFound))
    else
      var b := s.bookings[id];
      if b.version != version then (s, Failed(Stale))
      else if !CanTransition(b, to) then (s, Failed(IllegalMove))
      else
        var c := b.(status := to, version := b.version + 1);
        (s.(bookings := s.bookings[id := c]), Done(c))
  }

  // ----- The store, updated in place -----

  /** FitsCapacity's sum over the listed bookings. */
  function Used(listed: seq<Booking>, want: Booking): int {
    if listed == [] then 0
    else
      var b := listed[|listed| - 1];
      Used(listed[..|listed| - 1], want) + if b.id != want.id && Live(b) && Overlaps(b, want) then b.seats else 0
  }

  /** FitsCapacity. */
  method FitsCapacity(capacity: int, listed: seq<Booking>, want: Booking) returns (fits: bool)
    ensures fits <==> Used(listed, want) + want.seats <= capacity
  {
    var used := 0;
    for i := 0 to |listed|
      invariant used == Used(listed[..i], want)
    {
      assert listed[..i + 1][..i] == listed[..i];
      if listed[i].id != want.id && Live(listed[i]) && Overlaps(listed[i], want) {
        used := used + listed[i].seats;
      }
    }
    assert listed[..|listed|] == listed;
    fits := used + want.seats <= capacity;
  }

  /** One more booking visited. */
  lemma VisitAdds(bookings: Table, left: set<int>, i: int, listed: seq<Booking>, want: Booking)
    requires i in left && left <= bookings.Keys
    requires Used(listed, want) == Total(Competing(bookings - left, want))
    ensures var asked := bookings[i].resource == want.resource && bookings[i].entity == want.entity;
            var more := if asked then listed + [bookings[i]] else listed;
            Used(more, want) == Total(Competing(bookings - (left - {i}), want))
  {
    var before, after := Competing(bookings - left, want), Competing(bookings - (left - {i}), want);
    assert (listed + [bookings[i]])[..|listed|] == listed;
    if Competes(bookings[i], want) {
      assert after == before[i := bookings[i].seats];
      TotalSet(before, i, bookings[i].seats);
    } else {
      assert after == before;
    }
  }

  class Store {
    var resources: map<int, Resource>
    var bookings: Table
    var lastId: nat

    ghost function Abs(): State
      reads this
    {
      State(resources, bookings, lastId)
    }

    constructor ()
      ensures Abs() == EMPTY
    {
      resources, bookings, lastId := map[], map[], 0;
    }

    method CreateResource(r: Resource) returns (o: Outcome<int>)
      modifies this
      ensures (Abs(), o) == OpenResource(old(Abs()), r)
    {
      if !ValidResource(r) {
        return Failed(Invalid);
      }
      var left := resources.Keys;
      while left != {}
        invariant left <= resources.Keys && Abs() == old(Abs())
        invariant forall i :: i in resources && i !in left ==>
              !(resources[i].entity == r.entity && resources[i].code == r.code)
        decreases left
      {
        NonEmpty(left);
        var i :| i in left;
        left := left - {i};
        if resources[i].entity == r.entity && resources[i].code == r.code {
          return Failed(Conflict);
        }
      }
      lastId := lastId + 1;
      resources := resources[lastId := r.(id := lastId)];
      o := Done(lastId);
    }

    method CreateBooking(b: Booking) returns (o: Outcome<int>)
      modifies this
      ensures (Abs(), o) == Reserve(old(Abs()), b)
    {
      if !ValidBooking(b) {
        return Failed(Invalid);
      }
      if b.resource !in resources || resources[b.resource].entity != b.entity {
        return Failed(NotFound);
      }
      if !resources[b.resource].active {
        return Failed(Inactive);
      }
      var listed := [];
      var left := bookings.Keys;
      assert Competing(bookings - left, b) == map[];
      while left != {}
        invariant left <= bookings.Keys && Abs() == old(Abs())
        invariant Used(listed, b) == Total(Competing(bookings - left, b))
        decreases left
      {
        NonEmpty(left);
        var i :| i in left;
        VisitAdds(bookings, left, i, listed, b);
        if bookings[i].resource == b.resource && bookings[i].entity == b.entity {
          listed := listed + [bookings[i]];
        }
        left := left - {i};
      }
      assert bookings - left == bookings;
      var fits := FitsCapacity(resources[b.resource].capacity, listed, b);
      if !fits {
        return Failed(Full);
      }
      lastId := lastId + 1;
      bookings := bookings[lastId := b.(id := lastId, version := 1)];
      o := Done(lastId);
    }

    method SetBookingStatus(entity: int, id: int, to: int, version: int) returns (o: Outcome<Booking>)
      modifies this
      ensures (Abs(), o) == Advance(old(Abs()), entity, id, to, version)
    {
      if id !in bookings || bookings[id].entity != entity {
        return Failed(NotFound);
      }
      var b := bookings[id];
      if b.version != version {
        return Failed(Stale);
      }
      if !CanTransition(b, to) {
        return Failed(IllegalMove);
      }
      b := b.(status := to);
      b := b.(version := b.version + 1);
      bookings := bookings[id := b];
      o := Done(b);
    }
  }

  // ----- Capacity at every instant -----

  /** Who holds seats of the resource at the instant t: whoever has booked or checked in and
      has t in their window. */
  function Present(bookings: Table, resource: int, t: int): map<int, int> {
    map i |
      && i in bookings && bookings[i].resource == resource
      && (bookings[i].status == BOOKED || bookings[i].status == CHECKED_IN)
      && bookings[i].start.Some? && bookings[i].end.Some? && bookings[i].start.value <= t < bookings[i].end.value
      :: bookings[i].seats
  }

  /** At every instant the seats in use stay within the capacity of the resource. */
  ghost predicate WithinCapacity(s: State) {
    forall r, t :: r in s.resources ==> Total(Present(s.bookings, r, t)) <= s.resources[r].capacity
  }

  ghost predicate Rooted(s: State) {
    && (forall r :: r in s.resources ==> s.resources[r].id == r && 0 < r <= s.lastId && s.resources[r].capacity >= 1)
    && (forall i :: i in s.bookings ==>
          && s.bookings[i].id == i && 0 < i <= s.lastId && s.bookings[i].seats >= 1 && s.bookings[i].resource < i
          && s.bookings[i].resource in s.resources
          && s.resources[s.bookings[i].resource].entity == s.bookings[i].entity)
  }

  ghost predicate Safe(s: State) {
    Rooted(s) && WithinCapacity(s)
  }

  /** Whoever is present at an instant of the new window competes for it. */
  lemma PresentCompetes(s: State, b: Booking, t: int)
    requires Rooted(s) && ValidBooking(b) && b.id !in s.bookings && Covers(b, t)
    requires b.resource in s.resources && s.resources[b.resource].entity == b.entity
    ensures Total(Present(s.bookings, b.resource, t)) <= Total(Competing(s.bookings, b))
  {
    var present, competing := Present(s.bookings, b.resource, t), Competing(s.bookings, b);
    forall i | i in present
      ensures i in competing && present[i] <= competing[i]
    {
      assert Competes(s.bookings[i], b);
    }
    TotalMonotone(present, competing);
  }

  /** An accepted booking whose incoming id names no stored booking keeps every resource
      within its capacity. */
  lemma CreateKeepsCapacity(s: State, b: Booking)
    requires Safe(s) && b.id !in s.bookings
    ensures Safe(Reserve(s, b).0)
  {
    if Reserve(s, b).1.Done? {
      var t, stored := Reserve(s, b).0, b.(id := s.lastId + 1, version := 1);
      assert t == State(s.resources, s.bookings[s.lastId + 1 := stored], s.lastId + 1);
      assert Fits(s, b) && b.resource in s.resources && s.resources[b.resource].entity == b.entity && ValidBooking(b);
      hide Reserve, Fits, WithinCapacity, ValidBooking, Present;
      RoomStays(s, b, t, stored);
    }
  }

  lemma RoomStays(s: State, b: Booking, t: State, stored: Booking)
    requires Safe(s) && b.id !in s.bookings && ValidBooking(b) && b.resource in s.resources && Fits(s, b)
    requires s.resources[b.resource].entity == b.entity && stored == b.(id := s.lastId + 1, version := 1)
    requires t == State(s.resources, s.bookings[s.lastId + 1 := stored], s.lastId + 1)
    ensures WithinCapacity(t)
  {
    forall r, x | r in t.resources
      ensures Total(Present(t.bookings, r, x)) <= t.resources[r].capacity
    {
      RoomAt(s, b, stored, r, x);
    }
  }

  lemma RoomAt(s: State, b: Booking, stored: Booking, r: int, x: int)
    requires Safe(s) && b.id !in s.bookings && ValidBooking(b) && b.resource in s.resources && Fits(s, b)
    requires s.resources[b.resource].entity == b.entity && stored == b.(id := s.lastId + 1, version := 1)
    requires r in s.resources
    ensures Total(Present(s.bookings[s.lastId + 1 := stored], r, x)) <= s.resources[r].capacity
  {
    var before, after := Present(s.bookings, r, x), Present(s.bookings[s.lastId + 1 := stored], r, x);
    assert s.lastId + 1 !in s.bookings;
    assert Total(before) <= s.resources[r].capacity;
    if r == b.resource && Live(b) && Covers(b, x) {
      PresentCompetes(s, b, x);
      hide Rooted, WithinCapacity, ValidBooking, Competing;
      assert after == before[s.lastId + 1 := b.seats];
      TotalSet(before, s.lastId + 1, b.seats);
    } else {
      hide Rooted, WithinCapacity, ValidBooking, Fits, Competing;
      assert after == before;
    }
  }

  lemma StatusKeepsCapacity(s: State, entity: int, id: int, to: int, version: int)
    requires Safe(s)
    ensures Safe(Advance(s, entity, id, to, version).0)
  {
    var t := Advance(s, entity, id, to, version).0;
    if t != s {
      forall r, x | r in t.resources
        ensures Total(Present(t.bookings, r, x)) <= t.resources[r].capacity
      {
        var before, after := Present(s.bookings, r, x), Present(t.bookings, r, x);
        assert forall i :: i in after ==> i in before && after[i] == before[i];
        TotalMonotone(after, before);
      }
    }
  }

  lemma ResourceKeepsCapacity(s: State, r: Resource)
    requires Safe(s)
    ensures Safe(OpenResource(s, r).0)
  {
    var t := OpenResource(s, r).0;
    if t != s {
      forall k, x | k in t.resources
        ensures Total(Present(t.bookings, k, x)) <= t.resources[k].capacity
      {
        if k == s.lastId + 1 {
          assert forall i :: i in s.bookings ==> s.bookings[i].resource in s.resources;
          assert forall i :: i in s.bookings ==> s.bookings[i].resource != k;
          assert Present(t.bookings, k, x) == map[];
        } else {
          assert Present(t.bookings, k, x) == Present(s.bookings, k, x);
        }
      }
    }
  }

  datatype Op =
    | AddResource(resource: Resource)
    | Book(booking: Booking)
    | Move(entity: int, id: int, to: int, version: int)

  ghost function Step(s: State, op: Op): State {
    match op
    case AddResource(r) => OpenResource(s, r).0
    case Book(b) => Reserve(s, b).0
    case Move(entity, id, to, version) => Advance(s, entity, id, to, version).0
  }

  ghost function Run(s: State, ops: seq<Op>): State
    decreases |ops|
  {
    if ops == [] then s else Run(Step(s, ops[0]), ops[1..])
  }

  /** The request handler clears the incoming id. */
  predicate NewIds(ops: seq<Op>) {
    forall i :: 0 <= i < |ops| && ops[i].Book? ==> ops[i].booking.id == 0
  }

  lemma {:induction false} RunKeepsCapacity(s: State, ops: seq<Op>)
    requires Safe(s) && NewIds(ops)
    ensures Safe(Run(s, ops))
    decreases |ops|
  {
    if ops != [] {
      match ops[0] {
        case AddResource(r) => ResourceKeepsCapacity(s, r);
        case Book(b) => CreateKeepsCapacity(s, b);
        case Move(entity, id, to, version) => StatusKeepsCapacity(s, entity, id, to, version);
      }
      hide Safe;
      RunKeepsCapacity(Step(s, ops[0]), ops[1..]);
    }
  }

  /** Over every run, at every instant, no resource is used beyond its capacity. */
  lemma NeverOverCapacity(ops: seq<Op>, resource: int, t: int)
    requires NewIds(ops) && resource in Run(EMPTY, ops).resources
    ensures var s := Run(EMPTY, ops); Total(Present(s.bookings, resource, t)) <= s.resources[resource].capacity
  {
    assert Safe(EMPTY);
    RunKeepsCapacity(EMPTY, ops);
  }

  /** Everyone at the instant t who has neither completed nor canceled. */
  function Unfinished(bookings: Table, resource: int, t: int): map<int, int> {
    map i |
      && i in bookings && bookings[i].resource == resource
      && bookings[i].status != COMPLETED && bookings[i].status != CANCELED
      && bookings[i].start.Some? && bookings[i].end.Some? && bookings[i].start.value <= t < bookings[i].end.value
      :: bookings[i].seats
  }

  /** The request handler also sets the status of a new booking. */
  predicate Requests(ops: seq<Op>) {
    NewIds(ops) && forall i :: 0 <= i < |ops| && ops[i].Book? ==> ops[i].booking.status == BOOKED
  }

  ghost predicate KnownStatuses(s: State) {
    forall i :: i in s.bookings ==> s.bookings[i].status in {BOOKED, CHECKED_IN, COMPLETED, CANCELED}
  }

  lemma {:induction false} StatusesStayKnown(s: State, ops: seq<Op>)
    requires KnownStatuses(s) && Requests(ops)
    ensures KnownStatuses(Run(s, ops))
    decreases |ops|
  {
    if ops != [] {
      StatusesStayKnown(Step(s, ops[0]), ops[1..]);
    }
  }

  lemma SameWhenKnown(s: State, resource: int, t: int)
    requires KnownStatuses(s)
    ensures Unfinished(s.bookings, resource, t) == Present(s.bookings, resource, t)
  {
    var u, p := Unfinished(s.bookings, resource, t), Present(s.bookings, resource, t);
    forall i | i in s.bookings
      ensures i in u <==> i in p
    {
      assert s.bookings[i].status in {BOOKED, CHECKED_IN, COMPLETED, CANCELED};
    }
    assert u.Keys == p.Keys;
  }

  /** Over every run of requests, at every instant, whoever has neither completed nor canceled
      finds a seat. */
  lemma UnfinishedFit(ops: seq<Op>, resource: int, t: int)
    requires Requests(ops) && resource in Run(EMPTY, ops).resources
    ensures var s := Run(EMPTY, ops); Total(Unfinished(s.bookings, resource, t)) <= s.resources[resource].capacity
  {
    NeverOverCapacity(ops, resource, t);
    StatusesStayKnown(EMPTY, ops);
    SameWhenKnown(Run(EMPTY, ops), resource, t);
  }

  // ----- When requests succeed -----

  /** The seats of the resource held by others at some time during the wanted window. */
  function HeldDuring(bookings: Table, want: Booking): map<int, int>
    requires want.start.Some? && want.end.Some?
  {
    map i |
      && i in bookings && i != want.id && bookings[i].resource == want.resource
      && (bookings[i].status == BOOKED || bookings[i].status == CHECKED_IN)
      && bookings[i].start.Some? && bookings[i].end.Some?
      && bookings[i].start.value < want.end.value && want.start.value < bookings[i].end.value
      :: bookings[i].seats
  }

  /** A valid booking of an active resource is refused exactly if the seats held by others
      during its window and its own exceed the capacity; otherwise it is stored as asked for. */
  lemma ReserveIff(s: State, b: Booking)
    requires Rooted(s) && ValidBooking(b)
    requires b.resource in s.resources && s.resources[b.resource].entity == b.entity && s.resources[b.resource].active
    ensures var (t, o) := Reserve(s, b);
            && (o == Failed(Full) <==>
                  Total(HeldDuring(s.bookings, b)) + b.seats > s.resources[b.resource].capacity)
            && (o.Failed? ==> o == Failed(Full) && t == s)
            && (o.Done? ==>
                  && o.value == s.lastId + 1 && o.value !in s.bookings
                  && t == State(s.resources, s.bookings[o.value := b.(id := o.value, version := 1)], o.value))
  {
    assert HeldDuring(s.bookings, b) == Competing(s.bookings, b);
  }

  /** No other booking is accepted. */
  lemma ReserveRefuses(s: State, b: Booking)
    ensures var (t, o) := Reserve(s, b);
            o.Done? ==>
              && b.entity > 0 && Paths.TrimSpace(b.login) != "" && b.seats >= 1
              && b.start.Some? && b.end.Some? && b.start.value < b.end.value
              && b.resource in s.resources && s.resources[b.resource].entity == b.entity
              && s.resources[b.resource].active
  {}

  /** A status change succeeds exactly on the entity's booking in its current version, and only
      forward: from booked to checked in, and from either to completed or canceled. */
  lemma AdvanceIff(s: State, entity: int, id: int, to: int, version: int)
    ensures var (t, o) := Advance(s, entity, id, to, version);
            && (o.Done? <==>
                  && id in s.bookings && s.bookings[id].entity == entity && s.bookings[id].version == version
                  && (s.bookings[id].status, to) in {
                       (BOOKED, CHECKED_IN), (BOOKED, COMPLETED), (BOOKED, CANCELED), (CHECKED_IN, COMPLETED),
                       (CHECKED_IN, CANCELED)})
            && (o.Failed? ==> t == s)
            && (o.Done? ==>
                  && o.value == s.bookings[id].(status := to, version := version + 1)
                  && t == s.(bookings := s.bookings[id := o.value]))
  {}

  /** A resource is opened exactly if it is valid and its entity has no other with its code. */
  lemma OpenIff(s: State, r: Resource)
    ensures var (t, o) := OpenResource(s, r);
            && (o.Done? <==>
                  && r.entity > 0 && Paths.TrimSpace(r.code) != "" && Paths.TrimSpace(r.text) != "" && r.capacity >= 1
                  && forall i :: i in s.resources && s.resources[i].entity == r.entity
                       ==> s.resources[i].code != r.code)
            && (o.Failed? ==> t == s)
            && (o.Done? ==>
                  o.value == s.lastId + 1 && t == State(s.resources[o.value := r.(id := o.value)], s.bookings, o.value))
  {}

  // ----- Bookings under the id of another -----

  const ROOM: Resource := Resource(0, 1, "R", "Room", 1, true)

  /** Visit k of the room for one, in a window of its own. */
  function Visit(k: int): Booking {
    Booking(0, 1, 1, "ann", Some(10 * k), Some(10 * k + 5), 1, BOOKED, 0)
  }

  /** Open the room, which is resource 1, then book the visits 2 to n. */
  function Visits(n: nat): seq<Op> {
    if n < 2 then [AddResource(ROOM)] else Visits(n - 1) + [Book(Visit(n))]
  }

  /** The store after them. */
  function Visited(n: nat): State {
    State(map[1 := ROOM.(id := 1)], map k | 2 <= k <= n :: Visit(k).(id := k, version := 1), if n < 2 then 1 else n)
  }

  lemma {:induction false} RunAppend(s: State, ops: seq<Op>, op: Op)
    ensures Run(s, ops + [op]) == Step(Run(s, ops), op)
    decreases |ops|
  {
    if ops == [] {
      assert ([op])[1..] == [];
    } else {
      assert (ops + [op])[1..] == ops[1..] + [op];
      RunAppend(Step(s, ops[0]), ops[1..], op);
    }
  }

  lemma VisitValid(k: int, id: int)
    ensures ValidBooking(Visit(k).(id := id)) && ValidResource(ROOM)
  {
    Paths.TrimIdentity("ann", Paths.Blanks);
    Paths.TrimIdentity("R", Paths.Blanks);
    Paths.TrimIdentity("Room", Paths.Blanks);
  }

  /** Nothing competes with a visit but itself. */
  lemma NoneCompete(n: nat, k: int, id: int)
    requires k > n || id == k
    ensures Competing(Visited(n).bookings, Visit(k).(id := id)) == map[]
  {}

  lemma {:induction false} VisitsReach(n: nat)
    ensures NewIds(Visits(n)) && Run(EMPTY, Visits(n)) == Visited(n)
  {
    VisitValid(n, 0);
    if n < 2 {
      assert Visits(n)[1..] == [];
      assert Run(EMPTY, Visits(n)) == Step(EMPTY, AddResource(ROOM));
    } else {
      VisitsReach(n - 1);
      RunAppend(EMPTY, Visits(n - 1), Book(Visit(n)));
      NoneCompete(n - 1, n, 0);
      VisitStep(n);
    }
  }

  lemma VisitStep(n: nat)
    requires n >= 2 && ValidBooking(Visit(n)) && Competing(Visited(n - 1).bookings, Visit(n)) == map[]
    ensures Step(Visited(n - 1), Book(Visit(n))) == Visited(n)
  {
    var s := Visited(n - 1);
    assert Fits(s, Visit(n));
    assert s.bookings[n := Visit(n).(id := n, version := 1)] == Visited(n).bookings;
  }

  /** A booking that arrives under the id of a live one does not count it: for every id a
      booking can have, a run after which the room for one takes the same visit twice. */
  lemma ReusedIdOverbooks(id: nat)
    requires id >= 2
    ensures NewIds(Visits(id))
    ensures var t := Reserve(Run(EMPTY, Visits(id)), Visit(id).(id := id)).0;
            1 in t.resources && Total(Present(t.bookings, 1, 10 * id)) == 2 > t.resources[1].capacity
  {
    VisitsReach(id);
    VisitValid(id, id);
    hide Present, Reserve, Visits, Run, Visited, NewIds;
    NoneCompete(id, id, id);
    AcceptedAgain(id);
    PresentTwice(id);
  }

  /** The visit with the given id, as stored. */
  function Stored(k: int, id: int): Booking {
    Visit(k).(id := id, version := 1)
  }

  lemma AcceptedAgain(id: nat)
    requires id >= 2 && ValidBooking(Visit(id).(id := id))
    requires Competing(Visited(id).bookings, Visit(id).(id := id)) == map[]
    ensures var t := Reserve(Visited(id), Visit(id).(id := id)).0;
            && t.resources == map[1 := ROOM.(id := 1)]
            && t.bookings == Visited(id).bookings[id + 1 := Stored(id, id + 1)]
  {
    assert Fits(Visited(id), Visit(id).(id := id));
  }

  lemma PresentTwice(id: nat)
    requires id >= 2
    ensures Total(Present(Visited(id).bookings[id + 1 := Stored(id, id + 1)], 1, 10 * id)) == 2
  {
    PresentOnce(id);
    var before, after := Visited(id).bookings, Visited(id).bookings[id + 1 := Stored(id, id + 1)];
    assert Present(after, 1, 10 * id) == Present(before, 1, 10 * id)[id + 1 := 1];
    hide Present, Visited;
    TotalSet(map[], id, 1);
    TotalSet(map[][id := 1], id + 1, 1);
  }

  lemma PresentOnce(id: nat)
    requires id >= 2
    ensures Present(Visited(id).bookings, 1, 10 * id) == map[][id := 1]
  {}

  /** After every run of requests with cleared ids, a booking that arrives under this id
      keeps every resource within its capacity. */
  ghost predicate SafeId(id: int) {
    forall ops: seq<Op>, b: Booking :: NewIds(ops) && b.id == id ==> WithinCapacity(Reserve(Run(EMPTY, ops), b).0)
  }

  /** The ids that are safe to arrive with are exactly those no booking can have: the first id
      the store hands out is a resource's. The request handler's 0 is one of them. */
  lemma SafeIdIff(id: int)
    ensures SafeId(id) <==> id <= 1
  {
    if id >= 2 {
      ReusedIdOverbooks(id);
      Overbooked(Visits(id), Visit(id).(id := id), 1, 10 * id);
    } else {
      forall ops: seq<Op>, b: Booking | NewIds(ops) && b.id == id
        ensures WithinCapacity(Reserve(Run(EMPTY, ops), b).0)
      {
        assert Safe(EMPTY);
        RunKeepsCapacity(EMPTY, ops);
        hide Run, Reserve, WithinCapacity;
        NoBookingUnder(Run(EMPTY, ops), id);
        CreateKeepsCapacity(Run(EMPTY, ops), b);
      }
    }
  }

  lemma NoBookingUnder(s: State, id: int)
    requires Safe(s) && id <= 1
    ensures id !in s.bookings
  {
    assert 1 in s.bookings ==> s.bookings[1].resource in s.resources;
  }

  lemma Overbooked(ops: seq<Op>, b: Booking, r: int, t: int)
    requires NewIds(ops) && r in Reserve(Run(EMPTY, ops), b).0.resources
    requires var after := Reserve(Run(EMPTY, ops), b).0;
             Total(Present(after.bookings, r, t)) > after.resources[r].capacity
    ensures !SafeId(b.id)
  {
    hide Reserve, Present, Run, NewIds;
  }

  // ----- Lifecycle -----

  /** How far a booking has got; a status change always goes further. */
  function Stage(b: Booking): int {
    if b.status == BOOKED then 0 else if b.status == CHECKED_IN then 1 else 2
  }

  /** Nothing a run does changes a booking's window, seats or resource; its status only
      advances, and its version counts the changes, so no change is applied to a stale copy. */
  lemma {:induction false} LifecycleAdvances(s: State, ops: seq<Op>, id: int)
    requires Safe(s) && NewIds(ops) && id in s.bookings
    ensures var t := Run(s, ops);
            && id in t.bookings
            && t.bookings[id] == s.bookings[id].(status := t.bookings[id].status, version := t.bookings[id].version)
            && Stage(s.bookings[id]) <= Stage(t.bookings[id])
            && t.bookings[id].version >= s.bookings[id].version
            && (t.bookings[id].version == s.bookings[id].version <==> t.bookings[id] == s.bookings[id])
            && t.bookings[id].version - s.bookings[id].version <= Stage(t.bookings[id]) - Stage(s.bookings[id])
    decreases |ops|
  {
    if ops != [] {
      StepAdvances(s, ops[0], id);
      RunKeepsCapacity(s, ops[..1]);
      assert ops[..1][1..] == [];
      assert Run(s, ops[..1]) == Step(s, ops[0]);
      hide Step, Safe, Rooted;
      LifecycleAdvances(Step(s, ops[0]), ops[1..], id);
    }
  }

  lemma StepAdvances(s: State, op: Op, id: int)
    requires Rooted(s) && id in s.bookings
    ensures var t := Step(s, op);
            && id in t.bookings
            && t.bookings[id] == s.bookings[id].(status := t.bookings[id].status, version := t.bookings[id].version)
            && (t.bookings[id] == s.bookings[id]
                || (Stage(s.bookings[id]) < Stage(t.bookings[id])
                    && t.bookings[id].version == s.bookings[id].version + 1))
  {}
}
