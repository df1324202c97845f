/** The books of MemoryStore as values (backend/internal/finance/store.go:344-511):
    posting with the year lock and the per-entity hash chain, and the trial balance. */
module Ledger {
  import opened Entries
  import opened Canonical
  import opened Chain
  import opened Sets

  datatype Kind = Asset | Liability | Equity | Revenue | Expense

  datatype Account = Account(id: int, entity: int, code: string, kind: Kind)

  datatype FiscalYear = FiscalYear(id: int, entity: int, name: string, start: int, end: int, locked: bool)

  datatype Error =
    | Invalid
    | YearLocked
    | NotFound
    | AlreadyClosed
    | OutsideYear
    | UnknownRetained
    | NothingToClose
    | ZeroIncome
    | NotLocked

  datatype Outcome<+T> = Done(value: T) | Failed(error: Error)

  datatype Books = Books(accounts: map<int, Account>, years: seq<FiscalYear>, entries: seq<Entry>, lastId: nat)

  const EMPTY_BOOKS: Books := Books(map[], [], [], 0)

  /** FiscalYear.Contains. */
  predicate Contains(y: FiscalYear, date: int) {
    y.start <= date <= y.end
  }

  predicate LockedFor(years: seq<FiscalYear>, entity: int, date: int) {
    exists i :: 0 <= i < |years| && years[i].entity == entity && Contains(years[i], date) && years[i].locked
  }

  /** An entity's entries in posting order. */
  function EntriesOf(entries: seq<Entry>, entity: int): seq<Entry> {
    if entries == [] then []
    else
      var e := entries[|entries| - 1];
      EntriesOf(entries[..|entries| - 1], entity) + if e.entity == entity then [e] else []
  }

  /** The entry as PostEntry stores it. */
  function Sealed(b: Books, e: Entry, hash: string -> string): Entry {
    var prev := Head(EntriesOf(b.entries, e.entity));
    var linked := e.(id := b.lastId + 1, status := Posted, prevHash := prev);
    linked.(chainHash := hash(ContentOf(linked)))
  }

  /** PostEntry (store.go:457-481). */
  function Post(b: Books, e: Entry, hash: string -> string): (Books, Outcome<Entry>) {
    if !Balanced(e.journal, e.lines) then (b, Failed(Invalid))
    else if LockedFor(b.years, e.entity, e.date) then (b, Failed(YearLocked))
    else
      var sealed := Sealed(b, e, hash);
      (b.(entries := b.entries + [sealed], lastId := b.lastId + 1), Done(sealed))
  }

  /** A date is open for the entity exactly if it is before the start or after the end of
      each of the entity's locked years. */
  lemma OpenIff(years: seq<FiscalYear>, entity: int, date: int)
    ensures !LockedFor(years, entity, date)
       <==> forall i :: 0 <= i < |years| && years[i].entity == entity && years[i].locked
              ==> date < years[i].start || years[i].end < date
  {}

  /** When posting succeeds, and all it changes. */
  lemma PostEffect(b: Books, e: Entry, hash: string -> string)
    ensures var (c, r) := Post(b, e, hash);
            && (r.Done? <==> Balanced(e.journal, e.lines) && !LockedFor(b.years, e.entity, e.date))
            && (r.Failed? ==> c == b)
            && (r.Done? ==>
                  && c == b.(entries := b.entries + [r.value], lastId := b.lastId + 1)
                  && r.value == e.(id := c.lastId, status := Posted, prevHash := r.value.prevHash,
                                   chainHash := r.value.chainHash))
  {
    hide Balanced, LockedFor;
  }

  /** A balanced entry posts exactly if its date is outside every locked year of its entity;
      nothing but its id, status and hashes differs from what was asked for. */
  lemma PostsIff(b: Books, e: Entry, hash: string -> string)
    requires Balanced(e.journal, e.lines)
    ensures var (c, r) := Post(b, e, hash);
            && (r.Done? <==>
                  forall i :: 0 <= i < |b.years| && b.years[i].entity == e.entity && b.years[i].locked
                    ==> e.date < b.years[i].start || b.years[i].end < e.date)
            && (r.Failed? ==> c == b && r == Failed(YearLocked))
            && (r.Done? ==>
                  && c == b.(entries := b.entries + [r.value], lastId := b.lastId + 1)
                  && r.value == e.(id := b.lastId + 1, status := Posted, prevHash := r.value.prevHash,
                                   chainHash := r.value.chainHash))
  {
    OpenIff(b.years, e.entity, e.date);
    PostEffect(b, e, hash);
    hide Balanced, LockedFor;
  }

  predicate AllPosted(entries: seq<Entry>) {
    forall i :: 0 <= i < |entries| ==> entries[i].status == Posted
  }

  predicate AllBalanced(entries: seq<Entry>) {
    forall i :: 0 <= i < |entries| ==> Balanced(entries[i].journal, entries[i].lines)
  }

  ghost predicate AllLinked(entries: seq<Entry>, hash: string -> string) {
    forall entity: int :: Linked(EntriesOf(entries, entity), hash)
  }

  /** Every stored entry is posted and balanced, and every entity's chain verifies. */
  ghost predicate Sound(entries: seq<Entry>, hash: string -> string) {
    AllPosted(entries) && AllBalanced(entries) && AllLinked(entries, hash)
  }

  lemma EntriesOfAppend(entries: seq<Entry>, e: Entry, entity: int)
    ensures EntriesOf(entries + [e], entity) == EntriesOf(entries, entity) + if e.entity == entity then [e] else []
  {
    assert (entries + [e])[..|entries|] == entries;
  }

  /** Posting keeps every entity's chain verifiable, whatever the interleaving of
      entities and journals. */
  lemma PostSound(b: Books, e: Entry, hash: string -> string)
    requires Sound(b.entries, hash)
    ensures Sound(Post(b, e, hash).0.entries, hash)
  {
    if Post(b, e, hash).1.Done? {
      var sealed := Sealed(b, e, hash);
      assert sealed.status == Posted && sealed.journal == e.journal && sealed.lines == e.lines;
      SealedLinked(b, e, hash);
      hide Sealed, Balanced, AllLinked;
      assert AllPosted(b.entries + [sealed]) && AllBalanced(b.entries + [sealed]);
    }
  }

  lemma SealedLinked(b: Books, e: Entry, hash: string -> string)
    requires AllLinked(b.entries, hash)
    ensures AllLinked(b.entries + [Sealed(b, e, hash)], hash)
  {
    var sealed := Sealed(b, e, hash);
    assert sealed.entity == e.entity;
    SealedLinks(b, e, hash);
    hide Linked, Sealed;
    forall entity: int
      ensures Linked(EntriesOf(b.entries + [sealed], entity), hash)
    {
      EntriesOfAppend(b.entries, sealed, entity);
      assert EntriesOf(b.entries, entity) + [] == EntriesOf(b.entries, entity);
    }
  }

  lemma SealedLinks(b: Books, e: Entry, hash: string -> string)
    requires Linked(EntriesOf(b.entries, e.entity), hash)
    ensures Linked(EntriesOf(b.entries, e.entity) + [Sealed(b, e, hash)], hash)
  {
    var prev := Head(EntriesOf(b.entries, e.entity));
    var linked := e.(id := b.lastId + 1, status := Posted, prevHash := prev);
    assert ContentOf(Sealed(b, e, hash)) == ContentOf(linked);
    LinkedExtend(EntriesOf(b.entries, e.entity), Sealed(b, e, hash), hash);
  }

  // ----- Trial balance -----

  /** Debit and credit sums by account. */
  type Trial = map<int, (int, int)>

  function AddLeg(t: Trial, l: EntryLine): Trial {
    var acc := if l.account in t then t[l.account] else (0, 0);
    t[l.account := (acc.0 + l.debit, acc.1 + l.credit)]
  }

  function AddLegs(t: Trial, lines: seq<EntryLine>): Trial {
    if lines == [] then t else AddLeg(AddLegs(t, lines[..|lines| - 1]), lines[|lines| - 1])
  }

  /** The trial balance of an entity's posted entries. */
  function TrialOf(entries: seq<Entry>, entity: int): Trial {
    if entries == [] then map[]
    else
      var e := entries[|entries| - 1];
      var before := TrialOf(entries[..|entries| - 1], entity);
      if e.entity == entity && e.status == Posted then AddLegs(before, e.lines) else before
  }

  /** What all posted entries of the entity put on one account, as (debits, credits). */
  function SumsOn(entries: seq<Entry>, entity: int, account: int): (int, int) {
    if entries == [] then (0, 0)
    else
      var e := entries[|entries| - 1];
      var (d, c) := SumsOn(entries[..|entries| - 1], entity, account);
      if e.entity == entity && e.status == Posted then (d + DebitOn(e.lines, account), c + CreditOn(e.lines, account))
      else (d, c)
  }

  function At(t: Trial, account: int): (int, int) {
    if account in t then t[account] else (0, 0)
  }

  lemma {:induction false} AddLegsAt(t: Trial, lines: seq<EntryLine>, account: int)
    ensures At(AddLegs(t, lines), account)
         == (At(t, account).0 + DebitOn(lines, account), At(t, account).1 + CreditOn(lines, account))
  {
    if lines != [] {
      AddLegsAt(t, lines[..|lines| - 1], account);
    }
  }

  /** The trial balance shows, for each account, the sums of its legs. */
  lemma {:induction false} TrialShowsSums(entries: seq<Entry>, entity: int, account: int)
    ensures At(TrialOf(entries, entity), account) == SumsOn(entries, entity, account)
  {
    if entries != [] {
      var n := |entries| - 1;
      TrialShowsSums(entries[..n], entity, account);
      AddLegsAt(TrialOf(entries[..n], entity), entries[n].lines, account);
    }
  }

  function DebitColumn(t: Trial): map<int, int> {
    map a | a in t :: t[a].0
  }

  function CreditColumn(t: Trial): map<int, int> {
    map a | a in t :: t[a].1
  }

  lemma {:induction false} ColumnTotals(t: Trial, lines: seq<EntryLine>)
    ensures Total(DebitColumn(AddLegs(t, lines))) == Total(DebitColumn(t)) + Debits(lines)
    ensures Total(CreditColumn(AddLegs(t, lines))) == Total(CreditColumn(t)) + Credits(lines)
  {
    if lines != [] {
      var before, l := AddLegs(t, lines[..|lines| - 1]), lines[|lines| - 1];
      ColumnTotals(t, lines[..|lines| - 1]);
      LegTotals(before, l);
      hide AddLeg, DebitColumn, CreditColumn;
    }
  }

  lemma LegTotals(t: Trial, l: EntryLine)
    ensures Total(DebitColumn(AddLeg(t, l))) == Total(DebitColumn(t)) + l.debit
    ensures Total(CreditColumn(AddLeg(t, l))) == Total(CreditColumn(t)) + l.credit
  {
    var (d, c) := At(t, l.account);
    assert DebitColumn(AddLeg(t, l)) == DebitColumn(t)[l.account := d + l.debit];
    assert CreditColumn(AddLeg(t, l)) == CreditColumn(t)[l.account := c + l.credit];
    TotalSet(DebitColumn(t), l.account, d + l.debit);
    TotalSet(CreditColumn(t), l.account, c + l.credit);
  }

  /** In books of balanced entries the two columns of every trial balance agree. */
  lemma {:induction false} TrialBalances(entries: seq<Entry>, entity: int)
    requires AllBalanced(entries)
    ensures Total(DebitColumn(TrialOf(entries, entity))) == Total(CreditColumn(TrialOf(entries, entity)))
  {
    if entries != [] {
      var n := |entries| - 1;
      TrialBalances(entries[..n], entity);
      assert Balanced(entries[n].journal, entries[n].lines);
      ColumnTotals(TrialOf(entries[..n], entity), entries[n].lines);
    } else {
      assert DebitColumn(map[]) == map[] && CreditColumn(map[]) == map[];
    }
  }
}
