/** Poster.PostValidated on the books (backend/internal/finance/autopost.go:216-283):
    one call running alone, and what a sequence of calls leaves in the ledger. */
module Posting {
  import AutoPost
  import opened Entries
  import Invoices
  import opened Ledger
  import LedgerStore
  import opened Options

  /** What a call finds in its environment: the journal of the family's code, the loaded
      invoice, and the account bindings. */
  datatype Context = Context(
    journal: Option<int>, doc: Option<Invoices.Invoice>, date: int, bindings: Invoices.Bindings)

  datatype Result =
    | Posted(entry: int, created: bool)
    | NotPostable
    | NotLoaded
    | JournalMissing
    | Unbound(error: Invoices.Error)
    | Rejected(reason: Error)

  type Rows = map<AutoPost.Key, int>

  function InvoiceEntry(k: AutoPost.Key, c: Context, doc: Invoices.Invoice, journal: int, lines: seq<EntryLine>): Entry
  {
    Entry(0, k.entity, journal, doc.ref, c.date, "auto-post " + k.docType + " " + doc.ref, Draft, lines, "", "")
  }

  /** PostValidated, for a caller that nobody interrupts. */
  function PostInvoice(b: Books, rows: Rows, k: AutoPost.Key, c: Context, hash: string -> string)
    : (Books, Rows, Result)
  {
    if !AutoPost.Postable(k) then (b, rows, NotPostable)
    else if k in rows then (b, rows, Result.Posted(rows[k], false))
    else if c.doc.None? then (b, rows, NotLoaded)
    else if c.journal.None? then (b, rows, JournalMissing)
    else
      var legs := Invoices.InvoiceLegs(c.bindings, c.doc.value);
      if legs.Failed? then (b, rows, Unbound(legs.error))
      else
        var (posted, r) := Post(b, InvoiceEntry(k, c, c.doc.value, c.journal.value, legs.value), hash);
        if r.Failed? then (posted, rows, Rejected(r.error))
        else (posted, rows[k := r.value.id], Result.Posted(r.value.id, true))
  }

  class Poster {
    const store: LedgerStore.Store
    var rows: Rows

    constructor (store: LedgerStore.Store)
      ensures this.store == store && rows == map[]
    {
      this.store := store;
      rows := map[];
    }

    /** MemoryPostingStore.FindPosting. */
    method FindPosting(k: AutoPost.Key) returns (r: Option<int>)
      ensures r == if k in rows then Some(rows[k]) else None
    {
      r := if k in rows then Some(rows[k]) else None;
    }

    /** MemoryPostingStore.RecordPosting: never overwrites a row. */
    method RecordPosting(k: AutoPost.Key, entry: int) returns (ok: bool)
      modifies this
      ensures ok <==> k !in old(rows)
      ensures rows == if ok then old(rows)[k := entry] else old(rows)
    {
      ok := k !in rows;
      if ok {
        rows := rows[k := entry];
      }
    }

    method PostValidated(k: AutoPost.Key, c: Context, hash: string -> string) returns (r: Result)
      requires store.Valid()
      modifies this, store
      ensures store.Valid() && store.log == old(store.log)
      ensures (store.Books(), rows, r) == PostInvoice(old(store.Books()), old(rows), k, c, hash)
    {
      hide Post, Invoices.InvoiceLegs;
      if !AutoPost.Postable(k) {
        return NotPostable;
      }
      var existing := FindPosting(k);
      if existing.Some? {
        return Result.Posted(existing.value, false);
      }
      if c.doc.None? {
        return NotLoaded;
      }
      if c.journal.None? {
        return JournalMissing;
      }
      var legs := Invoices.BuildLegs(c.bindings, c.doc.value);
      if legs.Failed? {
        return Unbound(legs.error);
      }
      var posted := store.PostEntry(InvoiceEntry(k, c, c.doc.value, c.journal.value, legs.value), hash);
      if posted.Failed? {
        return Rejected(posted.error);
      }
      var recorded := RecordPosting(k, posted.value.id);
      r := Result.Posted(posted.value.id, true);
    }
  }

  // ----- Sequences of calls -----

  datatype Op = Auto(key: AutoPost.Key, context: Context) | Manual(entry: Entry)

  /** Books, posting rows, and how many entries were posted by hand. */
  datatype State = State(books: Books, rows: Rows, manual: nat)

  function Step(s: State, op: Op, hash: string -> string): State {
    match op
    case Auto(k, c) =>
      var (b, rows, _) := PostInvoice(s.books, s.rows, k, c, hash);
      State(b, rows, s.manual)
    case Manual(e) =>
      var (b, r) := Post(s.books, e, hash);
      State(b, s.rows, if r.Done? then s.manual + 1 else s.manual)
  }

  function Run(s: State, ops: seq<Op>, hash: string -> string): State
    decreases |ops|
  {
    if ops == [] then s else Run(Step(s, ops[0], hash), ops[1..], hash)
  }

  predicate RowNames(b: Books, k: AutoPost.Key, id: int) {
    0 < id <= b.lastId && exists i :: 0 <= i < |b.entries| && b.entries[i].id == id && b.entries[i].entity == k.entity
  }

  /** One entry for each row and each manual posting, and different entries for different documents. */
  ghost predicate Counted(s: State) {
    && |s.books.entries| == |s.rows| + s.manual
    && (forall k :: k in s.rows ==> RowNames(s.books, k, s.rows[k]))
    && (forall k, l :: k in s.rows && l in s.rows && k != l ==> s.rows[k] != s.rows[l])
  }

  lemma RowsStay(b: Books, c: Books, k: AutoPost.Key, id: int)
    requires RowNames(b, k, id) && b.entries <= c.entries && b.lastId <= c.lastId
    ensures RowNames(c, k, id)
  {
    var i :| 0 <= i < |b.entries| && b.entries[i].id == id && b.entries[i].entity == k.entity;
    assert c.entries[i] == b.entries[i];
  }

  /** One more entry, at the next id. */
  predicate Grown(b: Books, c: Books, entity: int) {
    && |c.entries| == |b.entries| + 1 && b.entries <= c.entries && c.lastId == b.lastId + 1
    && c.entries[|b.entries|].id == c.lastId && c.entries[|b.entries|].entity == entity
  }

  /** A call either changes nothing or adds one entry and its row. */
  lemma CallEffect(b: Books, rows: Rows, k: AutoPost.Key, c: Context, hash: string -> string)
    ensures var (b', rows', _) := PostInvoice(b, rows, k, c, hash);
            (b' == b && rows' == rows) || (k !in rows && Grown(b, b', k.entity) && rows' == rows[k := b'.lastId])
  {
    hide Post, Invoices.InvoiceLegs;
    if c.doc.Some? && c.journal.Some? {
      var legs := Invoices.InvoiceLegs(c.bindings, c.doc.value);
      if legs.Done? {
        var e := InvoiceEntry(k, c, c.doc.value, c.journal.value, legs.value);
        EntryGrows(b, e, hash);
        if AutoPost.Postable(k) && k !in rows {
          assert PostInvoice(b, rows, k, c, hash).0 == Post(b, e, hash).0;
        }
      }
    }
  }

  lemma EntryGrows(b: Books, e: Entry, hash: string -> string)
    ensures var (c, r) := Post(b, e, hash); if r.Done? then Grown(b, c, e.entity) && r.value.id == c.lastId else c == b
  {
    PostEffect(b, e, hash);
    hide Post, Balanced, LockedFor;
    var (c, r) := Post(b, e, hash);
    assert r.Done? ==> c.entries == b.entries + [r.value];
  }

  lemma GrownCounted(s: State, t: State, entity: int)
    requires Counted(s) && Grown(s.books, t.books, entity)
    requires (t.rows == s.rows && t.manual == s.manual + 1)
          || (t.manual == s.manual && exists k: AutoPost.Key ::
              k !in s.rows && k.entity == entity && t.rows == s.rows[k := t.books.lastId])
    ensures Counted(t)
  {
    RowIds(s);
    hide RowNames;
    forall k | k in s.rows
      ensures RowNames(t.books, k, s.rows[k])
    {
      RowsStay(s.books, t.books, k, s.rows[k]);
    }
    if t.rows != s.rows {
      var k: AutoPost.Key :| k !in s.rows && k.entity == entity && t.rows == s.rows[k := t.books.lastId];
      NewRow(s.books, t.books, k);
      assert |t.rows| == |s.rows| + 1;
    }
  }

  lemma RowIds(s: State)
    requires Counted(s)
    ensures forall k :: k in s.rows ==> s.rows[k] <= s.books.lastId
  {
    forall k | k in s.rows
      ensures s.rows[k] <= s.books.lastId
    {
      assert RowNames(s.books, k, s.rows[k]);
    }
  }

  lemma NewRow(b: Books, c: Books, k: AutoPost.Key)
    requires Grown(b, c, k.entity)
    ensures RowNames(c, k, c.lastId)
  {}

  lemma StepCounted(s: State, op: Op, hash: string -> string)
    requires Counted(s)
    ensures Counted(Step(s, op, hash))
    ensures forall k :: k in s.rows ==> k in Step(s, op, hash).rows && Step(s, op, hash).rows[k] == s.rows[k]
  {
    var t := Step(s, op, hash);
    hide Counted, PostInvoice;
    match op
    case Auto(k, c) =>
      CallEffect(s.books, s.rows, k, c, hash);
      if t != s {
        GrownCounted(s, t, k.entity);
      }
    case Manual(e) =>
      EntryGrows(s.books, e, hash);
      hide Post;
      if t != s {
        GrownCounted(s, t, e.entity);
      }
  }

  /** Along every sequence of automatic and manual postings the ledger holds exactly one
      entry per recorded document besides the manual ones, and rows never change. */
  lemma {:induction false} OneEntryPerDocument(s: State, ops: seq<Op>, hash: string -> string)
    requires Counted(s)
    ensures Counted(Run(s, ops, hash))
    ensures forall k :: k in s.rows ==> k in Run(s, ops, hash).rows && Run(s, ops, hash).rows[k] == s.rows[k]
    decreases |ops|
  {
    if ops != [] {
      StepCounted(s, ops[0], hash);
      OneEntryPerDocument(Step(s, ops[0], hash), ops[1..], hash);
    }
  }

  /** Calling again changes nothing and answers with the same entry. */
  lemma ReplayAnswersTheSame(b: Books, rows: Rows, k: AutoPost.Key, c: Context, again: Context, hash: string -> string)
    requires PostInvoice(b, rows, k, c, hash).2.Posted?
    ensures var (b', rows', r) := PostInvoice(b, rows, k, c, hash);
            PostInvoice(b', rows', k, again, hash) == (b', rows', Result.Posted(r.entry, false))
  {
    hide Post, Invoices.InvoiceLegs;
  }

  /** As a sequence: repeating a call that was answered leaves books and rows as they are. */
  lemma RepeatedInRun(s: State, k: AutoPost.Key, c: Context, again: Context, hash: string -> string)
    requires PostInvoice(s.books, s.rows, k, c, hash).2.Posted?
    ensures Run(s, [Auto(k, c), Auto(k, again)], hash)
         == State(PostInvoice(s.books, s.rows, k, c, hash).0, PostInvoice(s.books, s.rows, k, c, hash).1, s.manual)
  {
    var ops := [Auto(k, c), Auto(k, again)];
    ReplayAnswersTheSame(s.books, s.rows, k, c, again, hash);
    hide PostInvoice;
    var t := Step(s, ops[0], hash);
    var rest := ops[1..];
    assert rest == [Auto(k, again)] && rest[1..] == [];
    assert Run(s, ops, hash) == Run(t, rest, hash) == Run(Step(t, rest[0], hash), rest[1..], hash);
    assert Step(t, rest[0], hash) == t;
  }

  /** A first call for a loaded document posts exactly when its net is positive and its
      date is not in a locked year. */
  lemma FirstCallPostsIff(
    b: Books, rows: Rows, k: AutoPost.Key, c: Context, lines: seq<Invoices.Line>, hash: string -> string)
    requires AutoPost.Postable(k) && k !in rows && c.journal.Some? && c.journal.value != 0
    requires c.doc.Some? && Invoices.ValidLines(lines) && Invoices.LoadedFrom(c.doc.value, lines)
    requires Invoices.GoodBindings(c.bindings) && Invoices.InvoiceLegs(c.bindings, c.doc.value).Done?
    ensures PostInvoice(b, rows, k, c, hash).2.Posted?
       <==> && Invoices.NetSum(lines) > 0
            && forall i :: 0 <= i < |b.years| && b.years[i].entity == k.entity && b.years[i].locked
                 ==> c.date < b.years[i].start || b.years[i].end < c.date
  {
    OpenIff(b.years, k.entity, c.date);
    Invoices.InvoiceEntryValid(c.bindings, c.doc.value, lines, c.journal.value);
    hide Balanced, LockedFor, Invoices.InvoiceLegs, Sealed, Invoices.NetSum;
  }

  /** Only invoices of customers and suppliers are posted. A recorded one is answered from its
      row; a call that creates an entry records it, and the entry carries the document's
      reference, date and legs. Every other call changes nothing. */
  lemma CallAnswers(b: Books, rows: Rows, k: AutoPost.Key, c: Context, hash: string -> string)
    ensures var (b', rows', r) := PostInvoice(b, rows, k, c, hash);
            && (r == NotPostable <==> k.docType !in {"sales_invoice", "supplier_invoice"})
            && (r.Posted? && !r.created <==> r != NotPostable && k in rows)
            && (r.Posted? && !r.created ==> r.entry == rows[k])
            && (!(r.Posted? && r.created) ==> b' == b && rows' == rows)
            && (r.Posted? && r.created ==>
                  && k !in rows && rows' == rows[k := r.entry] && c.doc.Some? && c.journal.Some?
                  && Invoices.InvoiceLegs(c.bindings, c.doc.value).Done?
                  && |b'.entries| > 0 && var e := b'.entries[|b'.entries| - 1];
                     && b' == b.(entries := b.entries + [e], lastId := b.lastId + 1) && e.id == r.entry
                     && e.entity == k.entity && e.journal == c.journal.value && e.ref == c.doc.value.ref
                     && e.date == c.date && e.lines == Invoices.InvoiceLegs(c.bindings, c.doc.value).value)
  {
    hide Post, Invoices.InvoiceLegs;
    if c.doc.Some? && c.journal.Some? && Invoices.InvoiceLegs(c.bindings, c.doc.value).Done? {
      var legs := Invoices.InvoiceLegs(c.bindings, c.doc.value).value;
      var e := InvoiceEntry(k, c, c.doc.value, c.journal.value, legs);
      PostEffect(b, e, hash);
      var (b', r) := Post(b, e, hash);
      assert r.Done? ==> b'.entries[|b'.entries| - 1] == r.value;
    }
  }

  /** A call that nobody interrupts is a call of the interleaving model. */
  lemma AloneMatches(b: Books, rows: Rows, k: AutoPost.Key, c: Context, hash: string -> string, s: AutoPost.State)
    requires s.rows == rows
    ensures var (b', rows', r) := PostInvoice(b, rows, k, c, hash);
            var id := if r.Posted? && r.created then Some(r.entry) else None;
            && rows' == AutoPost.After(s, AutoPost.Attempt(k, id)).rows
            && (id.None? ==> b'.entries == b.entries)
            && (id.Some? ==> |b'.entries| == |b.entries| + 1 && b'.entries[|b.entries|].id == id.value)
  {
    hide Post, Invoices.InvoiceLegs;
    if AutoPost.Postable(k) && k !in rows && c.doc.Some? && c.journal.Some? {
      var legs := Invoices.InvoiceLegs(c.bindings, c.doc.value);
      if legs.Done? {
        var e := InvoiceEntry(k, c, c.doc.value, c.journal.value, legs.value);
        EntryGrows(b, e, hash);
        assert PostInvoice(b, rows, k, c, hash).0 == Post(b, e, hash).0;
      }
    }
  }
}
