/** Journal entries and their validation (backend/internal/finance/domain.go:16-134).
    Amounts are mathematical integers; time counts nanoseconds since 1970. */
module Entries {
  import opened Options

  datatype Status = Draft | Posted | Void

  datatype EntryLine = EntryLine(account: int, text: string, debit: int, credit: int, vatRateBps: int)

  datatype Entry = Entry(
    id: int, entity: int, journal: int, ref: string, date: int, memo: string, status: Status,
    lines: seq<EntryLine>, prevHash: string, chainHash: string)

  datatype EntryError =
    | NoAccount
    | NegativeLeg
    | NegativeRate
    | NotOneSided
    | NoJournal
    | TooFewLegs
    | Unbalanced(debits: int, credits: int)
    | ZeroEntry

  /** EntryLine.Validate. */
  function LineError(l: EntryLine): Option<EntryError> {
    if l.account == 0 then Some(NoAccount)
    else if l.debit < 0 || l.credit < 0 then Some(NegativeLeg)
    else if l.vatRateBps < 0 then Some(NegativeRate)
    else if (l.debit == 0) == (l.credit == 0) then Some(NotOneSided)
    else None
  }

  /** A leg on an account with exactly one positive side. */
  predicate GoodLeg(l: EntryLine) {
    && l.account != 0 && l.vatRateBps >= 0
    && ((l.debit > 0 && l.credit == 0) || (l.debit == 0 && l.credit > 0))
  }

  predicate GoodLegs(lines: seq<EntryLine>) {
    forall i :: 0 <= i < |lines| ==> GoodLeg(lines[i])
  }

  function Debits(lines: seq<EntryLine>): int {
    if lines == [] then 0 else Debits(lines[..|lines| - 1]) + lines[|lines| - 1].debit
  }

  function Credits(lines: seq<EntryLine>): int {
    if lines == [] then 0 else Credits(lines[..|lines| - 1]) + lines[|lines| - 1].credit
  }

  function DebitOn(lines: seq<EntryLine>, account: int): int {
    if lines == [] then 0
    else
      var l := lines[|lines| - 1];
      DebitOn(lines[..|lines| - 1], account) + if l.account == account then l.debit else 0
  }

  function CreditOn(lines: seq<EntryLine>, account: int): int {
    if lines == [] then 0
    else
      var l := lines[|lines| - 1];
      CreditOn(lines[..|lines| - 1], account) + if l.account == account then l.credit else 0
  }

  /** An entry the ledger may hold: a journal, at least two good legs, and equal,
      positive totals on both sides. */
  predicate Balanced(journal: int, lines: seq<EntryLine>) {
    journal != 0 && |lines| >= 2 && GoodLegs(lines) && Debits(lines) == Credits(lines) && Debits(lines) > 0
  }

  lemma {:induction false} GoodDebitsPositive(lines: seq<EntryLine>)
    requires GoodLegs(lines)
    ensures Debits(lines) >= 0 && Credits(lines) >= 0
    ensures lines != [] ==> Debits(lines) + Credits(lines) > 0
  {
    if lines != [] {
      GoodDebitsPositive(lines[..|lines| - 1]);
    }
  }

  /** Appending a leg adds its sides. */
  lemma LegAdds(lines: seq<EntryLine>, l: EntryLine, a: int)
    ensures Debits(lines + [l]) == Debits(lines) + l.debit && Credits(lines + [l]) == Credits(lines) + l.credit
    ensures DebitOn(lines + [l], a) == DebitOn(lines, a) + (if l.account == a then l.debit else 0)
    ensures CreditOn(lines + [l], a) == CreditOn(lines, a) + (if l.account == a then l.credit else 0)
  {
    assert (lines + [l])[..|lines|] == lines;
  }

  lemma GoodAppend(lines: seq<EntryLine>, l: EntryLine)
    ensures GoodLegs(lines + [l]) <==> GoodLegs(lines) && GoodLeg(l)
  {
    assert (lines + [l])[|lines|] == l;
    assert forall i :: 0 <= i < |lines| ==> (lines + [l])[i] == lines[i];
  }

  /** One leg alone. */
  lemma OneLeg(x: EntryLine, a: int)
    ensures Debits([x]) == x.debit && Credits([x]) == x.credit
    ensures DebitOn([x], a) == (if x.account == a then x.debit else 0)
    ensures CreditOn([x], a) == (if x.account == a then x.credit else 0)
  {
    assert [x][..0] == [];
  }

  /** Joining two lists of legs adds all sums and joins validity. */
  lemma {:induction false} ConcatAdds(x: seq<EntryLine>, y: seq<EntryLine>, a: int)
    ensures Debits(x + y) == Debits(x) + Debits(y) && Credits(x + y) == Credits(x) + Credits(y)
    ensures DebitOn(x + y, a) == DebitOn(x, a) + DebitOn(y, a) && CreditOn(x + y, a) == CreditOn(x, a) + CreditOn(y, a)
    ensures GoodLegs(x + y) <==> GoodLegs(x) && GoodLegs(y)
  {
    if y == [] {
      assert x + y == x;
    } else {
      var n := |y| - 1;
      assert (x + y)[..|x + y| - 1] == x + y[..n];
      ConcatAdds(x, y[..n], a);
      LegAdds(x + y[..n], y[n], a);
      LegAdds(y[..n], y[n], a);
      assert x + y == x + y[..n] + [y[n]] && y == y[..n] + [y[n]];
      GoodAppend(x + y[..n], y[n]);
      GoodAppend(y[..n], y[n]);
      hide Debits, Credits, DebitOn, CreditOn, GoodLegs;
    }
  }

  /** Entry.Validate: accepts exactly the balanced entries. Its last check, against a
      zero entry, can never be the one that fails. */
  method Validate(journal: int, lines: seq<EntryLine>) returns (error: Option<EntryError>)
    ensures error.None? <==> Balanced(journal, lines)
    ensures error != Some(ZeroEntry)
    ensures error.Some? && error.value.Unbalanced? ==>
              GoodLegs(lines) && error.value == Unbalanced(Debits(lines), Credits(lines))
                  && Debits(lines) != Credits(lines)
  {
    if journal == 0 {
      return Some(NoJournal);
    }
    if |lines| < 2 {
      return Some(TooFewLegs);
    }
    var dr, cr := 0, 0;
    for i := 0 to |lines|
      invariant GoodLegs(lines[..i]) && dr == Debits(lines[..i]) && cr == Credits(lines[..i])
    {
      var e := LineError(lines[i]);
      if e.Some? {
        assert !GoodLeg(lines[i]);
        return e;
      }
      assert lines[..i + 1][..i] == lines[..i];
      dr := dr + lines[i].debit;
      cr := cr + lines[i].credit;
    }
    assert lines[..|lines|] == lines;
    GoodDebitsPositive(lines);
    if dr != cr {
      return Some(Unbalanced(dr, cr));
    }
    assert dr != 0;  // so the source's zero-entry check cannot fire
    error := None;
  }
}
