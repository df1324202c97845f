/** When two different entries have one canonical text
    (backend/internal/finance/domain.go:138-148): only if both separators occur in
    references and labels. */
module Ambiguity {
  import opened Calendar
  import opened Canonical
  import opened Entries
  import opened Text

  // ----- Labels that hide a boundary between legs -----

  const FOUR_LEGS: seq<EntryLine> :=
    [EntryLine(1, "", 2, 0, 0), EntryLine(2, "", 0, 5, 0), EntryLine(6, "", 5, 0, 0), EntryLine(7, "", 0, 2, 0)]

  const TWO_LEGS: seq<EntryLine> :=
    [EntryLine(1, "", 2, 0, 0), EntryLine(2, ":0:5|6::5:0|7:", 0, 2, 0)]

  /** With both separators in a label the text is ambiguous: two valid entries with different
      legs, of the same journal, reference and date, hash alike after any predecessor. */
  lemma SeparatorsMakeAmbiguous(prev: string, date: int)
    ensures Balanced(1, FOUR_LEGS) && Balanced(1, TWO_LEGS) && !SameLegs(FOUR_LEGS, TWO_LEGS)
    ensures Serialize(prev, 1, "REF", date, FOUR_LEGS) == Serialize(prev, 1, "REF", date, TWO_LEGS)
  {
    AmbiguousBalanced();
    AmbiguousLegs();
    hide LegsText, Rfc3339;
  }

  lemma AmbiguousBalanced()
    ensures Balanced(1, FOUR_LEGS) && Balanced(1, TWO_LEGS)
  {
    Pair(FOUR_LEGS[0], FOUR_LEGS[1]);
    Pair(FOUR_LEGS[2], FOUR_LEGS[3]);
    Pair(TWO_LEGS[0], TWO_LEGS[1]);
    ConcatAdds(FOUR_LEGS[..2], FOUR_LEGS[2..], 0);
    assert FOUR_LEGS == FOUR_LEGS[..2] + FOUR_LEGS[2..];
    assert FOUR_LEGS[..2] == [FOUR_LEGS[0], FOUR_LEGS[1]] && FOUR_LEGS[2..] == [FOUR_LEGS[2], FOUR_LEGS[3]];
    assert TWO_LEGS == [TWO_LEGS[0], TWO_LEGS[1]];
    hide Debits, Credits;
  }

  lemma Pair(a: EntryLine, b: EntryLine)
    ensures Debits([a, b]) == a.debit + b.debit && Credits([a, b]) == a.credit + b.credit
  {
    OneLeg(a, 0);
    OneLeg(b, 0);
    ConcatAdds([a], [b], 0);
    assert [a] + [b] == [a, b];
  }

  lemma AmbiguousLegs()
    ensures LegsText(FOUR_LEGS) == LegsText(TWO_LEGS)
  {
    var four, two := FOUR_LEGS, TWO_LEGS;
    Legs4(four[0], four[1], four[2], four[3]);
    Legs2(two[0], two[1]);
    LegTexts();
    hide LegText, LegsText;
    assert "|" + "2::0:5|6::5:0|7::0:2" == "|" + "2::0:5" + ("|" + "6::5:0" + ("|" + "7::0:2"));
  }

  lemma LegTexts()
    ensures LegText(FOUR_LEGS[1]) == "2::0:5" && LegText(FOUR_LEGS[2]) == "6::5:0" && LegText(FOUR_LEGS[3]) == "7::0:2"
    ensures LegText(TWO_LEGS[1]) == "2::0:5|6::5:0|7::0:2"
  {
    SmallLeg(FOUR_LEGS[1], "2", "0", "5");
    SmallLeg(FOUR_LEGS[2], "6", "5", "0");
    SmallLeg(FOUR_LEGS[3], "7", "0", "2");
    SmallLeg(TWO_LEGS[1], "2", "0", "2");
    hide LegText;
  }

  lemma SmallLeg(l: EntryLine, account: string, debit: string, credit: string)
    requires 0 <= l.account < 10 && 0 <= l.debit < 10 && 0 <= l.credit < 10
    requires account == [DigitChar(l.account)] && debit == [DigitChar(l.debit)] && credit == [DigitChar(l.credit)]
    ensures LegText(l) == account + ":" + l.text + ":" + debit + ":" + credit
  {}

  lemma Legs2(a: EntryLine, b: EntryLine)
    ensures LegsText([a, b]) == "|" + LegText(a) + ("|" + LegText(b))
  {
    assert [a, b][1..] == [b] && [b][1..] == [];
    assert LegsText([b]) == "|" + LegText(b) + "";
  }

  lemma Legs4(a: EntryLine, b: EntryLine, c: EntryLine, d: EntryLine)
    ensures LegsText([a, b, c, d]) == "|" + LegText(a) + ("|" + LegText(b) + ("|" + LegText(c) + ("|" + LegText(d))))
  {
    assert [a, b, c, d][1..] == [b, c, d] && [b, c, d][1..] == [c, d];
    Legs2(c, d);
  }

  // ----- References that hide a date -----

  const ELEVENS: Civil := Civil(1111, 11, 11, 11, 11, 11)
  const ELEVENS_TEXT: string :=
    "1111" + ("-" + "11" + "-" + "11" + "T" + "11" + ":" + "11" + ":" + "11" + "Z")

  lemma ElevensText()
    ensures InRange(ELEVENS) && Rfc3339(SecondOf(ELEVENS)) == ELEVENS_TEXT
  {
    assert Exists(ELEVENS);
    ElevensDigits();
    hide Rfc3339, SecondOf, PadNat, Digits4, Exists, IsLeap, DaysBeforeMonth;
    Rfc3339Of(ELEVENS);
  }

  lemma ElevensDigits()
    ensures PadNat(11, 2) == "11" && Digits4(1111) == "1111"
  {
    assert PadNat(1, 1) == "1" && PadNat(11, 2) == PadNat(1, 1) + "1";
    assert PadNat(111, 3) == PadNat(11, 2) + "1" && PadNat(1111, 4) == PadNat(111, 3) + "1";
  }

  /** The reference of one entry is empty; the other's holds a date and the start of a leg. */
  const SHORT_REF: string := ""
  const LONG_REF: string := "|" + ELEVENS_TEXT + "|1:"

  function PaidLegs(text: string): seq<EntryLine> {
    [EntryLine(1, text, 5, 0, 0), EntryLine(2, "", 0, 5, 0)]
  }

  function AtElevens(ref: string, text: string): Entry {
    Entry(1, 1, 1, ref, SecondOf(ELEVENS) * 1_000_000_000, "", Posted, PaidLegs(text), "", "")
  }

  lemma DatesMakeAmbiguous()
    ensures ContentOf(AtElevens(SHORT_REF, LONG_REF)) == ContentOf(AtElevens(LONG_REF, ""))
  {
    ElevensText();
    var date := SecondOf(ELEVENS) * 1_000_000_000;
    assert SecondOfDate(date) == SecondOf(ELEVENS);
    Legs2(PaidLegs(LONG_REF)[0], PaidLegs(LONG_REF)[1]);
    Legs2(PaidLegs("")[0], PaidLegs("")[1]);
    SmallLeg(PaidLegs(LONG_REF)[0], "1", "5", "0");
    SmallLeg(PaidLegs("")[0], "1", "5", "0");
    var last := "|" + LegText(PaidLegs("")[1]);
    hide LegText, LegsText, Rfc3339, SecondOf, SecondOfDate;
    Shifted(ELEVENS_TEXT, last);
  }

  /** The same text, cut in two ways. */
  lemma Shifted(d: string, last: string)
    ensures var long := "|" + d + "|1:";
            "" + "|" + (d + ("|" + ("1" + ":" + long + ":" + "5" + ":" + "0") + last))
            == long + "|" + (d + ("|" + ("1" + ":" + "" + ":" + "5" + ":" + "0") + last))
  {}

  // ----- Exactly the two separators -----

  /** Valid entries that avoid c in references and labels are determined by their texts. */
  ghost predicate Unambiguous(c: char) {
    forall e: Entry, f: Entry ::
      Comparable(e, c) && Comparable(f, c) && ContentOf(e) == ContentOf(f) ==> SameContent(e, f)
  }

  predicate Comparable(e: Entry, c: char) {
    Balanced(e.journal, e.lines) && Avoids(e, c) && '|' !in e.prevHash
  }

  function Plainly(lines: seq<EntryLine>): Entry {
    Entry(1, 1, 1, "", 0, "", Posted, lines, "", "")
  }

  lemma Refutes(e: Entry, f: Entry, c: char)
    requires Comparable(e, c) && Comparable(f, c) && ContentOf(e) == ContentOf(f) && !SameContent(e, f)
    ensures !Unambiguous(c)
  {}

  /** Forbidding one character in references and labels makes the text unambiguous if and
      only if that character is one of the two separators. */
  lemma UnambiguousIff(c: char)
    ensures Unambiguous(c) <==> Separates(c)
  {
    if Separates(c) {
      forall e: Entry, f: Entry | Comparable(e, c) && Comparable(f, c) && ContentOf(e) == ContentOf(f)
        ensures SameContent(e, f)
      {
        hide ContentOf, SameContent;
        SerializeInjective(e, f, c);
      }
    } else if c in {'0', '5', '6', '7'} {
      AmbiguousAtElevens(c);
    } else {
      AmbiguousByLabels(c);
    }
  }

  lemma AmbiguousByLabels(c: char)
    requires c !in {'|', ':', '0', '5', '6', '7'}
    ensures !Unambiguous(c)
  {
    var e, f := Plainly(FOUR_LEGS), Plainly(TWO_LEGS);
    AmbiguousBalanced();
    AmbiguousLegs();
    assert LegsAvoid(FOUR_LEGS, c) && LegsAvoid(TWO_LEGS, c);
    hide LegsText, Rfc3339, Balanced;
    assert ContentOf(e) == ContentOf(f);
    assert !SameContent(e, f);
    Refutes(e, f, c);
  }

  lemma AmbiguousAtElevens(c: char)
    requires c in {'0', '5', '6', '7'}
    ensures !Unambiguous(c)
  {
    hide ContentOf, SecondOf, Balanced;
    var e, f := AtElevens(SHORT_REF, LONG_REF), AtElevens(LONG_REF, "");
    PaidBalanced(LONG_REF);
    PaidBalanced("");
    DatesMakeAmbiguous();
    assert c !in ELEVENS_TEXT;
    assert c !in LONG_REF && SHORT_REF != LONG_REF;
    Refutes(e, f, c);
  }

  lemma PaidBalanced(text: string)
    ensures Balanced(1, PaidLegs(text))
  {
    Pair(PaidLegs(text)[0], PaidLegs(text)[1]);
    hide Debits, Credits;
  }
}
