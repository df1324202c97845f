/** Auto-posting of validated invoices under concurrency: any number of callers, whose
    find, post and record steps interleave freely
    (backend/internal/finance/autopost.go:138-160, 216-283). */
module AutoPost {
  import opened Options
  import Sets

  datatype Key = Key(entity: int, docType: string, doc: int)

  const SALES: string := "sales_invoice"
  const SUPPLIER: string := "supplier_invoice"

  predicate Postable(k: Key) {
    k.docType == SALES || k.docType == SUPPLIER
  }

  datatype Phase =
    | Started
    | Missed                          // found no posting row
    | InLedger                        // its entry is in the ledger
    | Lost                            // recording met another caller's row
    | Finished(entry: int, created: bool)
    | Refused

  /** A call in progress; `posted` is the entry it put into the ledger. */
  datatype Caller = Caller(key: Key, posted: Option<int>, phase: Phase)

  /** Posting rows by document, and the documents of the ledger's auto-posted entries. */
  datatype State = State(rows: map<Key, int>, ledger: map<int, Key>, callers: seq<Caller>)

  const EMPTY: State := State(map[], map[], [])

  datatype Op =
    | Call(key: Key)
    | Find(c: nat)
    | PostEntry(c: nat, id: int)
    | Refuse(c: nat)                  // no loader, journal or binding, or the ledger refuses
    | Record(c: nat)
    | Refind(c: nat)

  predicate CanStep(s: State, op: Op) {
    match op
    case Call(_) => true
    case Find(c) => c < |s.callers| && s.callers[c].phase.Started?
    case PostEntry(c, id) => c < |s.callers| && s.callers[c].phase.Missed? && id !in s.ledger
    case Refuse(c) => c < |s.callers| && s.callers[c].phase.Missed?
    case Record(c) => c < |s.callers| && s.callers[c].phase.InLedger? && s.callers[c].posted.Some?
    case Refind(c) => c < |s.callers| && s.callers[c].phase.Lost?
  }

  function Enter(s: State, c: nat, phase: Phase): State
    requires c < |s.callers|
  {
    s.(callers := s.callers[c := s.callers[c].(phase := phase)])
  }

  function Step(s: State, op: Op): State
    requires CanStep(s, op)
  {
    match op
    case Call(k) => s.(callers := s.callers + [Caller(k, None, if Postable(k) then Started else Refused)])
    case Find(c) =>
      var k := s.callers[c].key;
      Enter(s, c, if k in s.rows then Finished(s.rows[k], false) else Missed)
    case PostEntry(c, id) =>
      State(s.rows, s.ledger[id := s.callers[c].key], s.callers[c := Caller(s.callers[c].key, Some(id), InLedger)])
    case Refuse(c) => Enter(s, c, Refused)
    case Record(c) =>
      var k, id := s.callers[c].key, s.callers[c].posted.value;
      if k in s.rows then Enter(s, c, Lost) else Enter(s.(rows := s.rows[k := id]), c, Finished(id, true))
    case Refind(c) =>
      var k := s.callers[c].key;
      Enter(s, c, if k in s.rows then Finished(s.rows[k], false) else Refused)
  }

  predicate CanRun(s: State, ops: seq<Op>)
    decreases |ops|
  {
    ops == [] || (CanStep(s, ops[0]) && CanRun(Step(s, ops[0]), ops[1..]))
  }

  function Run(s: State, ops: seq<Op>): State
    requires CanRun(s, ops)
    decreases |ops|
  {
    if ops == [] then s else Run(Step(s, ops[0]), ops[1..])
  }

  // ----- One row per document, one answer per document -----

  /** Whether the entry this caller put into the ledger is the one the row names. */
  predicate Won(c: Caller) {
    c.phase.Finished? && c.phase.created
  }

  predicate CallerOk(s: State, c: Caller) {
    && (c.posted.Some? ==> c.posted.value in s.ledger && s.ledger[c.posted.value] == c.key)
    && (c.phase.Finished? ==> c.key in s.rows && s.rows[c.key] == c.phase.entry)
    && (c.phase.Lost? ==> c.key in s.rows)
    && (c.phase.InLedger? || c.phase.Lost? || Won(c) ==> c.posted.Some?)
    && (c.phase.Started? || c.phase.Missed? ==> c.posted.None?)
    && (Won(c) ==> c.posted == Some(c.phase.entry))
    && (c.phase.Refused? ==> c.posted.None?)
  }

  predicate CallersOk(s: State) {
    forall i :: 0 <= i < |s.callers| ==> CallerOk(s, s.callers[i])
  }

  /** Different callers put different entries into the ledger. */
  predicate OwnEntries(callers: seq<Caller>) {
    forall i, j :: 0 <= i < j < |callers| && callers[i].posted.Some? ==> callers[i].posted != callers[j].posted
  }

  ghost predicate RowsOwned(s: State) {
    forall k :: k in s.rows ==>
      exists i :: 0 <= i < |s.callers| && s.callers[i].key == k && s.callers[i].phase == Finished(s.rows[k], true)
  }

  ghost predicate EntriesOwned(s: State) {
    forall id :: id in s.ledger ==>
      exists i :: 0 <= i < |s.callers| && s.callers[i].key == s.ledger[id] && s.callers[i].posted == Some(id)
  }

  ghost predicate Inv(s: State) {
    CallersOk(s) && OwnEntries(s.callers) && RowsOwned(s) && EntriesOwned(s)
  }

  /** A step keeps every row, every ledger entry and every finished call. */
  lemma StepGrows(s: State, op: Op)
    requires CanStep(s, op)
    ensures var t := Step(s, op);
            && (forall k :: k in s.rows ==> k in t.rows && t.rows[k] == s.rows[k])
            && (forall id :: id in s.ledger ==> id in t.ledger && t.ledger[id] == s.ledger[id])
            && |s.callers| <= |t.callers|
            && (forall i :: 0 <= i < |s.callers| ==> t.callers[i].key == s.callers[i].key)
            && (forall i :: 0 <= i < |s.callers| && s.callers[i].phase.Finished? ==> t.callers[i] == s.callers[i])
  {}

  lemma StepKeepsPosted(s: State, op: Op, i: nat)
    requires CallersOk(s) && CanStep(s, op) && i < |s.callers| && s.callers[i].posted.Some?
    ensures i < |Step(s, op).callers| && Step(s, op).callers[i].posted == s.callers[i].posted
  {
    assert CallerOk(s, s.callers[i]);
  }

  /** The only caller a step touches. */
  function Touched(s: State, op: Op): nat {
    if op.Call? then |s.callers| else op.c
  }

  lemma TouchedOk(s: State, op: Op)
    requires CallersOk(s) && CanStep(s, op)
    ensures var t := Step(s, op); Touched(s, op) < |t.callers| && CallerOk(t, t.callers[Touched(s, op)])
  {
    assert !op.Call? ==> CallerOk(s, s.callers[op.c]);
  }

  lemma UntouchedOk(s: State, op: Op, i: nat)
    requires CallersOk(s) && CanStep(s, op) && i < |Step(s, op).callers| && i != Touched(s, op)
    ensures i < |s.callers| && Step(s, op).callers[i] == s.callers[i] && CallerOk(Step(s, op), s.callers[i])
  {
    StepGrows(s, op);
    assert i < |s.callers| ==> CallerOk(s, s.callers[i]);
  }

  lemma StepOwnEntries(s: State, op: Op)
    requires Inv(s) && CanStep(s, op)
    ensures OwnEntries(Step(s, op).callers)
  {
    assert op.PostEntry? ==> forall i ::
        0 <= i < |s.callers| ==> CallerOk(s, s.callers[i]) && s.callers[i].posted != Some(op.id);
  }

  lemma StepCallersOk(s: State, op: Op)
    requires Inv(s) && CanStep(s, op)
    ensures CallersOk(Step(s, op)) && OwnEntries(Step(s, op).callers)
  {
    StepOwnEntries(s, op);
    var t := Step(s, op);
    forall i | 0 <= i < |t.callers|
      ensures CallerOk(t, t.callers[i])
    {
      if i == Touched(s, op) {
        TouchedOk(s, op);
      } else {
        UntouchedOk(s, op, i);
      }
    }
  }

  lemma StepOwned(s: State, op: Op)
    requires Inv(s) && CanStep(s, op)
    ensures RowsOwned(Step(s, op)) && EntriesOwned(Step(s, op))
  {
    StepGrows(s, op);
    var t := Step(s, op);
    forall k | k in t.rows
      ensures exists i ::
            0 <= i < |t.callers| && t.callers[i].key == k && t.callers[i].phase == Finished(t.rows[k], true)
    {
      if k in s.rows {
        var i :| 0 <= i < |s.callers| && s.callers[i].key == k && s.callers[i].phase == Finished(s.rows[k], true);
        assert t.callers[i] == s.callers[i];
      } else {
        assert t.callers[op.c].key == k && t.callers[op.c].phase == Finished(t.rows[k], true);
      }
    }
    forall id | id in t.ledger
      ensures exists i :: 0 <= i < |t.callers| && t.callers[i].key == t.ledger[id] && t.callers[i].posted == Some(id)
    {
      if id in s.ledger {
        var i :| 0 <= i < |s.callers| && s.callers[i].key == s.ledger[id] && s.callers[i].posted == Some(id);
        StepKeepsPosted(s, op, i);
      } else {
        assert t.callers[op.c].key == t.ledger[id] && t.callers[op.c].posted == Some(id);
      }
    }
  }

  lemma {:induction false} RunInv(s: State, ops: seq<Op>)
    requires Inv(s) && CanRun(s, ops)
    ensures Inv(Run(s, ops))
    decreases |ops|
  {
    if ops != [] {
      StepCallersOk(s, ops[0]);
      StepOwned(s, ops[0]);
      RunInv(Step(s, ops[0]), ops[1..]);
    }
  }

  /** Once a document has a row, no interleaving changes it. */
  lemma {:induction false} RowsNeverChange(s: State, ops: seq<Op>, k: Key)
    requires CanRun(s, ops) && k in s.rows
    ensures k in Run(s, ops).rows && Run(s, ops).rows[k] == s.rows[k]
    decreases |ops|
  {
    if ops != [] {
      StepGrows(s, ops[0]);
      RowsNeverChange(Step(s, ops[0]), ops[1..], k);
    }
  }

  /** In every interleaving all completed calls for a document answer with the entry of
      its one posting row, exactly one of them created it, and that entry is the document's. */
  lemma CompletedCallsAgree(ops: seq<Op>, i: nat, j: nat)
    requires CanRun(EMPTY, ops)
    requires var cs := Run(EMPTY, ops).callers;
             && i < |cs| && j < |cs| && cs[i].key == cs[j].key && cs[i].phase.Finished? && cs[j].phase.Finished?
    ensures var s := Run(EMPTY, ops);
            var k := s.callers[i].key;
            && s.callers[i].phase.entry == s.callers[j].phase.entry
            && k in s.rows && s.rows[k] == s.callers[i].phase.entry
            && s.rows[k] in s.ledger && s.ledger[s.rows[k]] == k
            && (Won(s.callers[i]) && Won(s.callers[j]) ==> i == j)
            && exists w :: 0 <= w < |s.callers| && s.callers[w].key == k && Won(s.callers[w])
  {
    RunInv(EMPTY, ops);
    var s := Run(EMPTY, ops);
    var k := s.callers[i].key;
    assert CallerOk(s, s.callers[i]) && CallerOk(s, s.callers[j]);
    var w :| 0 <= w < |s.callers| && s.callers[w].key == k && s.callers[w].phase == Finished(s.rows[k], true);
    assert Won(s.callers[w]) && CallerOk(s, s.callers[w]);
  }

  // ----- How many entries a document gets -----

  ghost function EntriesFor(s: State, k: Key): set<int> {
    set id | id in s.ledger && s.ledger[id] == k
  }

  function Posters(callers: seq<Caller>, k: Key): nat {
    if callers == [] then 0
    else
      var c := callers[|callers| - 1];
      Posters(callers[..|callers| - 1], k) + if c.key == k && c.posted.Some? then 1 else 0
  }

  lemma {:induction false} PostersUpdate(callers: seq<Caller>, i: nat, c: Caller, k: Key)
    requires i < |callers| && c.key == callers[i].key
    ensures Posters(callers[i := c], k) == Posters(callers, k)
              + (if c.key == k && c.posted.Some? then 1 else 0)
              - (if c.key == k && callers[i].posted.Some? then 1 else 0)
  {
    var n := |callers| - 1;
    if i < n {
      assert callers[i := c][..n] == callers[..n][i := c];
      PostersUpdate(callers[..n], i, c, k);
    } else {
      assert callers[i := c][..n] == callers[..n];
    }
  }

  /** One caller changes; the entries grow if and only if it has just posted for k. */
  lemma CallerCounts(callers: seq<Caller>, i: nat, c: Caller, k: Key, before: set<int>, id: int)
    requires i < |callers| && c.key == callers[i].key && |before| == Posters(callers, k) && id !in before
    requires callers[i].posted.Some? ==> c.posted.Some?
    ensures var posts := c.key == k && c.posted.Some? && callers[i].posted.None?;
            |if posts then before + {id} else before| == Posters(callers[i := c], k)
  {
    PostersUpdate(callers, i, c, k);
  }

  lemma StepCounts(s: State, op: Op, k: Key)
    requires Inv(s) && CanStep(s, op) && |EntriesFor(s, k)| == Posters(s.callers, k)
    ensures var t := Step(s, op); |EntriesFor(t, k)| == Posters(t.callers, k)
  {
    EntriesGrow(s, op, k);
    match op
    case Call(_) => assert Step(s, op).callers[..|s.callers|] == s.callers;
    case PostEntry(c, id) =>
      assert CallerOk(s, s.callers[c]) && id !in EntriesFor(s, k);
      hide Posters, EntriesFor, Inv, CallerOk;
      CallerCounts(s.callers, c, Step(s, op).callers[c], k, EntriesFor(s, k), id);
    case _ =>
      hide Posters, EntriesFor, Inv;
      PostersUpdate(s.callers, op.c, Step(s, op).callers[op.c], k);
  }

  lemma {:induction false} RunCounts(s: State, ops: seq<Op>, k: Key)
    requires Inv(s) && CanRun(s, ops) && |EntriesFor(s, k)| == Posters(s.callers, k)
    ensures var t := Run(s, ops); |EntriesFor(t, k)| == Posters(t.callers, k)
    decreases |ops|
  {
    if ops != [] {
      StepCallersOk(s, ops[0]);
      StepOwned(s, ops[0]);
      StepCounts(s, ops[0], k);
      RunCounts(Step(s, ops[0]), ops[1..], k);
    }
  }

  /** Conservation: the ledger holds one entry for each call that passed its post step. */
  lemma EntriesCountPosters(ops: seq<Op>, k: Key)
    requires CanRun(EMPTY, ops)
    ensures var s := Run(EMPTY, ops); |EntriesFor(s, k)| == Posters(s.callers, k)
  {
    assert EntriesFor(EMPTY, k) == {};
    RunCounts(EMPTY, ops, k);
  }

  lemma EntriesGrow(s: State, op: Op, k: Key)
    requires CanStep(s, op)
    ensures var t := Step(s, op);
            var added := op.PostEntry? && s.callers[op.c].key == k;
            EntriesFor(t, k) == if added then EntriesFor(s, k) + {op.id} else EntriesFor(s, k)
  {}

  /** Each post step for the document is taken while the ledger has no entry for it. */
  ghost predicate PostsAlone(s: State, ops: seq<Op>, k: Key)
    requires CanRun(s, ops)
    decreases |ops|
  {
    ops == [] ||
    (&& (ops[0].PostEntry? && s.callers[ops[0].c].key == k ==> EntriesFor(s, k) == {})
     && PostsAlone(Step(s, ops[0]), ops[1..], k))
  }

  lemma {:induction false} EntriesStay(s: State, ops: seq<Op>, k: Key)
    requires CanRun(s, ops)
    ensures EntriesFor(s, k) <= EntriesFor(Run(s, ops), k)
    decreases |ops|
  {
    if ops != [] {
      EntriesGrow(s, ops[0], k);
      hide Step, EntriesFor;
      EntriesStay(Step(s, ops[0]), ops[1..], k);
    }
  }

  lemma {:induction false} PostsAloneIff(s: State, ops: seq<Op>, k: Key)
    requires CanRun(s, ops) && |EntriesFor(s, k)| <= 1
    ensures PostsAlone(s, ops, k) <==> |EntriesFor(Run(s, ops), k)| <= 1
    decreases |ops|
  {
    if ops != [] {
      var t := Step(s, ops[0]);
      EntriesGrow(s, ops[0], k);
      if |EntriesFor(t, k)| <= 1 {
        PostsAloneIff(t, ops[1..], k);
      } else {
        EntriesStay(t, ops[1..], k);
        Sets.SubsetSize(EntriesFor(t, k), EntriesFor(Run(s, ops), k));
      }
      hide EntriesFor, Step;
    }
  }

  /** In every interleaving a recorded document has exactly one ledger entry if and only if
      each post step for it was taken while the ledger had none: the guard the code lacks. */
  lemma OneEntryIff(ops: seq<Op>, k: Key)
    requires CanRun(EMPTY, ops) && k in Run(EMPTY, ops).rows
    ensures var s := Run(EMPTY, ops); EntriesFor(s, k) == {s.rows[k]} <==> PostsAlone(EMPTY, ops, k)
  {
    assert EntriesFor(EMPTY, k) == {};
    PostsAloneIff(EMPTY, ops, k);
    RecordedEntry(ops, k);
    var s := Run(EMPTY, ops);
    hide EntriesFor, Run;
    if |EntriesFor(s, k)| <= 1 {
      Sets.OnlyElement(s.rows[k], EntriesFor(s, k));
    }
  }

  lemma RecordedEntry(ops: seq<Op>, k: Key)
    requires CanRun(EMPTY, ops) && k in Run(EMPTY, ops).rows
    ensures var s := Run(EMPTY, ops); s.rows[k] in EntriesFor(s, k)
  {
    RunInv(EMPTY, ops);
    var s := Run(EMPTY, ops);
    var w :| 0 <= w < |s.callers| && s.callers[w].key == k && s.callers[w].phase == Finished(s.rows[k], true);
    assert CallerOk(s, s.callers[w]);
  }

  // ----- A schedule that rules races out -----

  /** The call is between finding no row and recording its own. */
  predicate Pending(c: Caller, k: Key) {
    c.key == k && (c.phase.Missed? || c.phase.InLedger?)
  }

  predicate OthersPending(s: State, c: nat, k: Key) {
    exists i :: 0 <= i < |s.callers| && i != c && Pending(s.callers[i], k)
  }

  /** Calls for the document look for its row only while no other call for it is pending. */
  predicate Exclusive(s: State, ops: seq<Op>, k: Key)
    requires CanRun(s, ops)
    decreases |ops|
  {
    ops == [] ||
    (&& (ops[0].Find? && s.callers[ops[0].c].key == k ==> !OthersPending(s, ops[0].c, k))
     && Exclusive(Step(s, ops[0]), ops[1..], k))
  }

  /** At most one call is pending, and none once the document has its row and entry. */
  ghost predicate Orderly(s: State, k: Key) {
    && (forall i, j :: 0 <= i < j < |s.callers| && Pending(s.callers[i], k) ==> !Pending(s.callers[j], k))
    && (k in s.rows ==>
          EntriesFor(s, k) == {s.rows[k]} && forall i :: 0 <= i < |s.callers| ==> !Pending(s.callers[i], k))
  }

  /** Before the document has a row, its entries are those of pending calls. */
  lemma UnrecordedEntry(s: State, id: int, k: Key) returns (i: nat)
    requires Inv(s) && k !in s.rows && id in EntriesFor(s, k)
    ensures i < |s.callers| && Pending(s.callers[i], k) && s.callers[i].phase.InLedger?
         && s.callers[i].posted == Some(id)
  {
    i :| 0 <= i < |s.callers| && s.callers[i].key == s.ledger[id] && s.callers[i].posted == Some(id);
    assert CallerOk(s, s.callers[i]);
  }

  lemma StepPending(s: State, op: Op, k: Key)
    requires Inv(s) && CanStep(s, op) && Orderly(s, k)
    requires op.Find? && s.callers[op.c].key == k ==> !OthersPending(s, op.c, k)
    ensures var t := Step(s, op);
            forall i, j :: 0 <= i < j < |t.callers| && Pending(t.callers[i], k) ==> !Pending(t.callers[j], k)
  {
    var t := Step(s, op);
    forall i, j | 0 <= i < j < |t.callers| && Pending(t.callers[i], k)
      ensures !Pending(t.callers[j], k)
    {
      assert !op.Call? && i != op.c ==> t.callers[i] == s.callers[i];
      assert !op.Call? && j != op.c ==> t.callers[j] == s.callers[j];
    }
  }

  lemma StepRecorded(s: State, op: Op, k: Key)
    requires Inv(s) && CanStep(s, op) && Orderly(s, k) && k in Step(s, op).rows
    ensures var t := Step(s, op);
            EntriesFor(t, k) == {t.rows[k]} && forall i :: 0 <= i < |t.callers| ==> !Pending(t.callers[i], k)
  {
    var t := Step(s, op);
    EntriesGrow(s, op, k);
    if k in s.rows {
      assert !op.Call? ==> !Pending(s.callers[op.c], k);
    } else {
      var c := op.c;
      assert CallerOk(s, s.callers[c]) && Pending(s.callers[c], k);
      forall id | id in EntriesFor(s, k)
        ensures id == t.rows[k]
      {
        var i := UnrecordedEntry(s, id, k);
        assert i == c;
      }
      assert t.rows[k] in EntriesFor(s, k);
    }
  }

  lemma {:induction false} RunOrderly(s: State, ops: seq<Op>, k: Key)
    requires Inv(s) && CanRun(s, ops) && Orderly(s, k) && Exclusive(s, ops, k)
    ensures Inv(Run(s, ops)) && Orderly(Run(s, ops), k)
    decreases |ops|
  {
    if ops != [] {
      var t := Step(s, ops[0]);
      StepCallersOk(s, ops[0]);
      StepOwned(s, ops[0]);
      StepPending(s, ops[0], k);
      if k in t.rows {
        StepRecorded(s, ops[0], k);
      }
      hide Step, Inv, EntriesFor;
      RunOrderly(t, ops[1..], k);
    }
  }

  /** Whatever the other documents' calls do, and however the rest interleaves: if calls for
      one document look only while no other call for it is pending, it has exactly one entry
      once recorded, and at most one before. */
  lemma ExclusiveFindsPostOnce(ops: seq<Op>, k: Key)
    requires CanRun(EMPTY, ops) && Exclusive(EMPTY, ops, k)
    ensures var s := Run(EMPTY, ops);
            if k in s.rows then EntriesFor(s, k) == {s.rows[k]}
            else forall id, id' :: id in EntriesFor(s, k) && id' in EntriesFor(s, k) ==> id == id'
  {
    RunOrderly(EMPTY, ops, k);
    var s := Run(EMPTY, ops);
    hide EntriesFor, Inv, Run;
    if k !in s.rows {
      forall id, id' | id in EntriesFor(s, k) && id' in EntriesFor(s, k)
        ensures id == id'
      {
        var i := UnrecordedEntry(s, id, k);
        var j := UnrecordedEntry(s, id', k);
        assert i == j;
      }
    }
  }

  /** The condition cannot be dropped: whenever a call looks for the row of an unrecorded
      document while another call for it is pending, the steps that follow can leave the
      document two entries. */
  lemma OverlapDoublePosts(s: State, c: nat, k: Key, id: int, id': int) returns (ops: seq<Op>)
    requires Inv(s) && CanStep(s, Find(c)) && s.callers[c].key == k && k !in s.rows && OthersPending(s, c, k)
    requires id !in s.ledger && id' !in s.ledger && id != id'
    ensures CanRun(s, ops) && ops != [] && ops[0] == Find(c)
    ensures k in Run(s, ops).rows && |EntriesFor(Run(s, ops), k)| >= 2
  {
    var i :| 0 <= i < |s.callers| && i != c && Pending(s.callers[i], k);
    assert CallerOk(s, s.callers[i]) && CallerOk(s, s.callers[c]);
    var t := Step(s, Find(c));
    assert t.callers[c] == Caller(k, None, Missed) && t.callers[i] == s.callers[i];
    var rest, first;
    if s.callers[i].phase.Missed? {
      MissedOverlap(t, k, i, c, id, id');
      rest, first := [PostEntry(i, id), PostEntry(c, id'), Record(i)], id;
    } else {
      first := s.callers[i].posted.value;
      PostedOverlap(t, k, i, c, first, id');
      rest := [PostEntry(c, id'), Record(i)];
    }
    ops := [Find(c)] + rest;
    assert ops[1..] == rest;
    RunOne(s, ops, t);
    Sets.SubsetSize({first, id'}, EntriesFor(Run(s, ops), k));
  }

  lemma MissedOverlap(s: State, k: Key, i: nat, j: nat, id: int, id': int)
    requires i < |s.callers| && j < |s.callers| && i != j && k !in s.rows
    requires s.callers[i] == Caller(k, None, Missed) && s.callers[j] == Caller(k, None, Missed)
    requires id !in s.ledger && id' !in s.ledger && id != id'
    ensures var ops := [PostEntry(i, id), PostEntry(j, id'), Record(i)];
            CanRun(s, ops) && k in Run(s, ops).rows && {id, id'} <= EntriesFor(Run(s, ops), k)
  {
    var ops := [PostEntry(i, id), PostEntry(j, id'), Record(i)];
    var t := Step(s, ops[0]);
    assert ops[1..] == [PostEntry(j, id'), Record(i)];
    PostedOverlap(t, k, i, j, id, id');
    RunOne(s, ops, t);
  }

  lemma PostedOverlap(s: State, k: Key, i: nat, j: nat, id: int, id': int)
    requires i < |s.callers| && j < |s.callers| && i != j && k !in s.rows
    requires s.callers[i] == Caller(k, Some(id), InLedger) && s.callers[j] == Caller(k, None, Missed)
    requires id in s.ledger && s.ledger[id] == k && id' !in s.ledger
    ensures var ops := [PostEntry(j, id'), Record(i)];
            CanRun(s, ops) && k in Run(s, ops).rows && {id, id'} <= EntriesFor(Run(s, ops), k)
  {
    var ops := [PostEntry(j, id'), Record(i)];
    var t := Step(s, ops[0]);
    var u := Step(t, ops[1]);
    assert ops[1..][1..] == [];
    RunOne(t, ops[1..], u);
    RunOne(s, ops, t);
  }

  /** The first half of a race: both callers look before either posts. */
  const RACING: seq<Op> := [Find(0), Find(1), PostEntry(0, 1), PostEntry(1, 2)]
  const RECORDING: seq<Op> := [Record(0), Record(1), Refind(1)]

  function TwoCallers(k: Key): State {
    State(map[], map[], [Caller(k, None, Started), Caller(k, None, Started)])
  }

  function BothPosted(k: Key): State {
    State(map[], map[1 := k, 2 := k], [Caller(k, Some(1), InLedger), Caller(k, Some(2), InLedger)])
  }

  function RaceOver(k: Key): State {
    State(map[k := 1], map[1 := k, 2 := k],
          [Caller(k, Some(1), Finished(1, true)), Caller(k, Some(2), Finished(1, false))])
  }

  lemma RaceCalls(k: Key)
    requires Postable(k)
    ensures CanRun(EMPTY, [Call(k), Call(k)]) && Run(EMPTY, [Call(k), Call(k)]) == TwoCallers(k)
  {
    var s1 := State(map[], map[], [Caller(k, None, Started)]);
    var ops := [Call(k), Call(k)];
    assert Step(EMPTY, Call(k)) == s1 && Step(s1, Call(k)) == TwoCallers(k);
    assert ops[1..][1..] == [];
    RunOne(s1, ops[1..], TwoCallers(k));
    RunOne(EMPTY, ops, s1);
  }

  lemma RacePosts(k: Key)
    ensures CanRun(TwoCallers(k), RACING) && Run(TwoCallers(k), RACING) == BothPosted(k)
  {
    var s3 := State(map[], map[], [Caller(k, None, Missed), Caller(k, None, Started)]);
    var s4 := State(map[], map[], [Caller(k, None, Missed), Caller(k, None, Missed)]);
    var s5 := State(map[], map[1 := k], [Caller(k, Some(1), InLedger), Caller(k, None, Missed)]);
    assert Step(s5, PostEntry(1, 2)) == BothPosted(k);
    RunOne(s5, RACING[3..], BothPosted(k));
    assert Step(s4, PostEntry(0, 1)) == s5;
    RunOne(s4, RACING[2..], s5);
    assert Step(s3, Find(1)) == s4;
    RunOne(s3, RACING[1..], s4);
    assert Step(TwoCallers(k), Find(0)) == s3;
    RunOne(TwoCallers(k), RACING, s3);
  }

  lemma RaceRecords(k: Key)
    ensures CanRun(BothPosted(k), RECORDING) && Run(BothPosted(k), RECORDING) == RaceOver(k)
  {
    var s7 := State(map[k := 1], map[1 := k, 2 := k],
                    [Caller(k, Some(1), Finished(1, true)), Caller(k, Some(2), InLedger)]);
    var s8 := State(map[k := 1], map[1 := k, 2 := k],
                    [Caller(k, Some(1), Finished(1, true)), Caller(k, Some(2), Lost)]);
    assert Step(s8, Refind(1)) == RaceOver(k);
    RunOne(s8, RECORDING[2..], RaceOver(k));
    assert Step(s7, Record(1)) == s8;
    RunOne(s7, RECORDING[1..], s8);
    assert Step(BothPosted(k), Record(0)) == s7;
    RunOne(BothPosted(k), RECORDING, s7);
  }

  lemma {:induction false} RunConcat(s: State, a: seq<Op>, b: seq<Op>)
    requires CanRun(s, a) && CanRun(Run(s, a), b)
    ensures CanRun(s, a + b) && Run(s, a + b) == Run(Run(s, a), b)
    decreases |a|
  {
    if a == [] {
      assert a + b == b;
    } else {
      assert (a + b)[1..] == a[1..] + b;
      RunConcat(Step(s, a[0]), a[1..], b);
    }
  }

  /** The exception is reachable: two callers that both find no row leave two entries for
      one invoice, although both answer with the same entry. */
  lemma RaceDoublePosts(k: Key)
    requires Postable(k)
    ensures var ops := [Call(k), Call(k)] + RACING + RECORDING;
            && CanRun(EMPTY, ops) && Run(EMPTY, ops) == RaceOver(k) && EntriesFor(Run(EMPTY, ops), k) == {1, 2}
  {
    hide *;
    RaceCalls(k);
    RacePosts(k);
    RaceRecords(k);
    RunConcat(EMPTY, [Call(k), Call(k)], RACING);
    RunConcat(EMPTY, [Call(k), Call(k)] + RACING, RECORDING);
    TwoEntries(k);
  }

  lemma TwoEntries(k: Key)
    ensures EntriesFor(RaceOver(k), k) == {1, 2}
  {}

  lemma RunOne(s: State, ops: seq<Op>, t: State)
    requires ops != [] && CanStep(s, ops[0]) && Step(s, ops[0]) == t
    ensures CanRun(s, ops) <==> CanRun(t, ops[1..])
    ensures CanRun(s, ops) ==> Run(s, ops) == Run(t, ops[1..])
  {}

  // ----- Calls one after another -----

  /** What one call does when it runs alone; `id` is the entry the ledger would add, None if
      the invoice cannot be posted. */
  datatype Attempt = Attempt(key: Key, id: Option<int>)

  function Alone(s: State, a: Attempt): seq<Op> {
    var c := |s.callers|;
    if !Postable(a.key) then [Call(a.key)]
    else if a.key in s.rows then [Call(a.key), Find(c)]
    else if a.id.None? then [Call(a.key), Find(c), Refuse(c)]
    else [Call(a.key), Find(c), PostEntry(c, a.id.value), Record(c)]
  }

  function After(s: State, a: Attempt): State {
    var k := a.key;
    if !Postable(k) then s.(callers := s.callers + [Caller(k, None, Refused)])
    else if k in s.rows then s.(callers := s.callers + [Caller(k, None, Finished(s.rows[k], false))])
    else if a.id.None? then s.(callers := s.callers + [Caller(k, None, Refused)])
    else State(s.rows[k := a.id.value], s.ledger[a.id.value := k],
               s.callers + [Caller(k, a.id, Finished(a.id.value, true))])
  }

  /** A call that runs alone is one of the interleavings, with this effect: a replay leaves
      rows and ledger alone. */
  lemma AloneIsRun(s: State, a: Attempt)
    requires a.id.Some? ==> a.id.value !in s.ledger
    ensures CanRun(s, Alone(s, a)) && Run(s, Alone(s, a)) == After(s, a)
  {
    var c, k := |s.callers|, a.key;
    var ops := Alone(s, a);
    var s1 := s.(callers := s.callers + [Caller(k, None, if Postable(k) then Started else Refused)]);
    assert Step(s, ops[0]) == s1;
    if Postable(k) && k in s.rows {
      assert Step(s1, ops[1]) == After(s, a);
      RunOne(s1, ops[1..], After(s, a));
    } else if Postable(k) {
      AloneMissing(s, s1, a);
    }
    RunOne(s, ops, s1);
  }

  /** The steps after a fruitless look. */
  lemma AloneMissing(s: State, s1: State, a: Attempt)
    requires Postable(a.key) && a.key !in s.rows && (a.id.Some? ==> a.id.value !in s.ledger)
    requires s1 == s.(callers := s.callers + [Caller(a.key, None, Started)])
    ensures CanRun(s1, Alone(s, a)[1..]) && Run(s1, Alone(s, a)[1..]) == After(s, a)
  {
    var k, ops := a.key, Alone(s, a);
    var s2 := s.(callers := s.callers + [Caller(k, None, Missed)]);
    assert Step(s1, ops[1]) == s2;
    if a.id.Some? {
      var s3 := State(s.rows, s.ledger[a.id.value := k], s.callers + [Caller(k, a.id, InLedger)]);
      assert Step(s2, ops[2]) == s3;
      assert Step(s3, ops[3]) == After(s, a);
      RunOne(s3, ops[3..], After(s, a));
      RunOne(s2, ops[2..], s3);
    } else {
      assert Step(s2, ops[2]) == After(s, a);
      RunOne(s2, ops[2..], After(s, a));
    }
    RunOne(s1, ops[1..], s2);
  }

  predicate FreshIds(s: State, attempts: seq<Attempt>)
    decreases |attempts|
  {
    attempts == []
    || ((attempts[0].id.Some? ==> attempts[0].id.value !in s.ledger) && FreshIds(After(s, attempts[0]), attempts[1..]))
  }

  function InTurn(s: State, attempts: seq<Attempt>): State
    decreases |attempts|
  {
    if attempts == [] then s else InTurn(After(s, attempts[0]), attempts[1..])
  }

  ghost predicate Single(s: State) {
    forall k :: EntriesFor(s, k) == if k in s.rows then {s.rows[k]} else {}
  }

  /** Calls made one after another leave exactly one entry per recorded document and none
      for the others. */
  lemma {:induction false} SequentialSingle(s: State, attempts: seq<Attempt>)
    requires Single(s) && FreshIds(s, attempts)
    ensures Single(InTurn(s, attempts))
    decreases |attempts|
  {
    if attempts != [] {
      var a := attempts[0];
      var t := After(s, a);
      forall k
        ensures EntriesFor(t, k) == if k in t.rows then {t.rows[k]} else {}
      {
        assert EntriesFor(s, k) == if k in s.rows then {s.rows[k]} else {};
        if t.ledger != s.ledger {
          assert EntriesFor(t, k) == if k == a.key then EntriesFor(s, k) + {a.id.value} else EntriesFor(s, k);
        } else {
          assert EntriesFor(t, k) == EntriesFor(s, k);
        }
      }
      SequentialSingle(t, attempts[1..]);
    }
  }
}
