/** The canonical text of an entry that the chain hashes
    (backend/internal/finance/domain.go:138-148): when it determines the entry. */
module Canonical {
  import opened Calendar
  import opened Entries
  import opened Text

  /** The second an instant falls into; nanoseconds are not formatted. */
  function SecondOfDate(date: int): int {
    date / 1_000_000_000
  }

  function LegText(l: EntryLine): string {
    FormatInt(l.account) + ":" + l.text + ":" + FormatInt(l.debit) + ":" + FormatInt(l.credit)
  }

  function LegsText(lines: seq<EntryLine>): string {
    if lines == [] then "" else "|" + LegText(lines[0]) + LegsText(lines[1..])
  }

  /** The canonical content Chain hashes. */
  function Serialize(prev: string, journal: int, ref: string, date: int, lines: seq<EntryLine>): string {
    prev + "|" + (FormatInt(journal) + "|" + (ref + "|" + (Rfc3339(SecondOfDate(date)) + LegsText(lines))))
  }

  function ContentOf(e: Entry): string {
    Serialize(e.prevHash, e.journal, e.ref, e.date, e.lines)
  }

  // ----- The serialisation is injective -----

  lemma NumberAlphabet(n: int)
    ensures '|' !in FormatInt(n) && ':' !in FormatInt(n)
  {
    FormatIntSign(n);
    var s := FormatInt(n);
    forall i | 0 <= i < |s|
      ensures s[i] != '|' && s[i] != ':'
    {
      assert i > 0 ==> s[i] == s[1..][i - 1];
    }
  }

  /** The part of a leg the hash covers; the VAT rate is not in it. */
  predicate SameLeg(k: EntryLine, l: EntryLine) {
    k.account == l.account && k.text == l.text && k.debit == l.debit && k.credit == l.credit
  }

  predicate SameLegs(k: seq<EntryLine>, l: seq<EntryLine>) {
    |k| == |l| && forall i :: 0 <= i < |k| ==> SameLeg(k[i], l[i])
  }

  predicate LegsAvoid(lines: seq<EntryLine>, c: char) {
    forall i :: 0 <= i < |lines| ==> c !in lines[i].text
  }

  /** The character occurs in no reference and no label. */
  predicate Avoids(e: Entry, c: char) {
    c !in e.ref && LegsAvoid(e.lines, c)
  }

  predicate Separates(c: char) {
    c == '|' || c == ':'
  }

  lemma LegTextInjective(k: EntryLine, l: EntryLine)
    requires LegText(k) == LegText(l)
    ensures SameLeg(k, l)
  {
    NumberAlphabet(k.account);
    NumberAlphabet(l.account);
    NumberAlphabet(k.debit);
    NumberAlphabet(l.debit);
    NumberAlphabet(k.credit);
    NumberAlphabet(l.credit);
    var ka, kd, kc := FormatInt(k.account), FormatInt(k.debit), FormatInt(k.credit);
    var la, ld, lc := FormatInt(l.account), FormatInt(l.debit), FormatInt(l.credit);
    SplitLast(':', ka + ":" + k.text + ":" + kd, kc, la + ":" + l.text + ":" + ld, lc);
    SplitLast(':', ka + ":" + k.text, kd, la + ":" + l.text, ld);
    SplitFirst(':', ka, k.text, la, l.text);
    FormatIntInjective(k.account, l.account);
    FormatIntInjective(k.debit, l.debit);
    FormatIntInjective(k.credit, l.credit);
  }

  lemma LegTextPlain(l: EntryLine)
    requires '|' !in l.text
    ensures '|' !in LegText(l)
  {
    NumberAlphabet(l.account);
    NumberAlphabet(l.debit);
    NumberAlphabet(l.credit);
  }

  lemma {:induction false} LegsTextInjective(k: seq<EntryLine>, l: seq<EntryLine>)
    requires LegsAvoid(k, '|') && LegsAvoid(l, '|') && LegsText(k) == LegsText(l)
    ensures SameLegs(k, l)
  {
    if k != [] && l != [] {
      LegTextPlain(k[0]);
      LegTextPlain(l[0]);
      LegsUncons(k);
      LegsUncons(l);
      SplitRest(LegText(k[0]), LegsText(k[1..]), LegText(l[0]), LegsText(l[1..]));
      LegTextInjective(k[0], l[0]);
      LegsTextInjective(k[1..], l[1..]);
    }
  }

  lemma LegsUncons(l: seq<EntryLine>)
    requires l != []
    ensures LegsText(l) != "" && LegsText(l)[1..] == LegText(l[0]) + LegsText(l[1..])
  {}

  /** Agreement on everything the hash covers: the dates lie in one second. */
  predicate SameContent(e: Entry, f: Entry) {
    && e.journal == f.journal && e.ref == f.ref && e.date / 1_000_000_000 == f.date / 1_000_000_000
    && SameLegs(e.lines, f.lines)
  }

  /** The fields before the date, which no separator in a label can blur. */
  lemma HeadFields(e: Entry, f: Entry)
    requires '|' !in e.prevHash && '|' !in f.prevHash && ContentOf(e) == ContentOf(f)
    ensures e.prevHash == f.prevHash && e.journal == f.journal
    ensures e.ref + "|" + (Rfc3339(SecondOfDate(e.date)) + LegsText(e.lines))
         == f.ref + "|" + (Rfc3339(SecondOfDate(f.date)) + LegsText(f.lines))
  {
    NumberAlphabet(e.journal);
    NumberAlphabet(f.journal);
    var re := e.ref + "|" + (Rfc3339(SecondOfDate(e.date)) + LegsText(e.lines));
    var rf := f.ref + "|" + (Rfc3339(SecondOfDate(f.date)) + LegsText(f.lines));
    hide Rfc3339, LegsText, FormatInt;
    SplitFirst('|', e.prevHash, FormatInt(e.journal) + "|" + re, f.prevHash, FormatInt(f.journal) + "|" + rf);
    SplitFirst('|', FormatInt(e.journal), re, FormatInt(f.journal), rf);
    FormatIntInjective(e.journal, f.journal);
  }

  lemma InjectiveWithoutBars(e: Entry, f: Entry)
    requires Avoids(e, '|') && Avoids(f, '|') && '|' !in e.prevHash && '|' !in f.prevHash
          && ContentOf(e) == ContentOf(f)
    ensures SameContent(e, f)
  {
    HeadFields(e, f);
    var de, df := Rfc3339(SecondOfDate(e.date)), Rfc3339(SecondOfDate(f.date));
    var le, lf := LegsText(e.lines), LegsText(f.lines);
    Rfc3339Alphabet(SecondOfDate(e.date));
    Rfc3339Alphabet(SecondOfDate(f.date));
    assert le != "" ==> le[0] == '|';
    assert lf != "" ==> lf[0] == '|';
    hide Rfc3339, LegsText, ContentOf;
    SplitFirst('|', e.ref, de + le, f.ref, df + lf);
    SplitRest(de, le, df, lf);
    Rfc3339Injective(SecondOfDate(e.date), SecondOfDate(f.date));
    LegsTextInjective(e.lines, f.lines);
  }

  /** Without colons the first one of the text is the date's, and it fixes the reference. */
  lemma InjectiveWithoutColons(e: Entry, f: Entry)
    requires Avoids(e, ':') && Avoids(f, ':') && '|' !in e.prevHash && '|' !in f.prevHash
          && ContentOf(e) == ContentOf(f)
    ensures SameContent(e, f)
  {
    HeadFields(e, f);
    var se, sf := SecondOfDate(e.date), SecondOfDate(f.date);
    var he, te := Rfc3339Parts(se);
    var hf, tf := Rfc3339Parts(sf);
    var le, lf := LegsText(e.lines), LegsText(f.lines);
    hide Rfc3339, LegsText, ContentOf;
    ColonFirst(e.ref, he, te, le);
    ColonFirst(f.ref, hf, tf, lf);
    SplitFirst(':', e.ref + "|" + he, te + le, f.ref + "|" + hf, tf + lf);
    SplitLast('|', e.ref, he, f.ref, hf);
    assert te == (te + le)[..6] && tf == (tf + lf)[..6] && le == (te + le)[6..] && lf == (tf + lf)[6..];
    Rfc3339Injective(se, sf);
    LegsTextInjectiveWithoutColons(e.lines, f.lines);
  }

  lemma ColonFirst(ref: string, head: string, tail: string, legs: string)
    ensures ref + "|" + (head + ":" + tail + legs) == ref + "|" + head + ":" + (tail + legs)
  {}

  lemma {:induction false} LegsTextInjectiveWithoutColons(k: seq<EntryLine>, l: seq<EntryLine>)
    requires LegsAvoid(k, ':') && LegsAvoid(l, ':') && LegsText(k) == LegsText(l)
    ensures SameLegs(k, l)
  {
    if k != [] && l != [] {
      LegsUncons(k);
      LegsUncons(l);
      assert k[1..] != [] ==> LegsText(k[1..])[0] == '|';
      assert l[1..] != [] ==> LegsText(l[1..])[0] == '|';
      FirstLegWithoutColons(k[0], LegsText(k[1..]), l[0], LegsText(l[1..]));
      LegsTextInjectiveWithoutColons(k[1..], l[1..]);
    }
  }

  lemma FirstLegWithoutColons(k: EntryLine, x: string, l: EntryLine, y: string)
    requires ':' !in k.text && ':' !in l.text && LegText(k) + x == LegText(l) + y
    requires (x != "" ==> x[0] == '|') && (y != "" ==> y[0] == '|')
    ensures SameLeg(k, l) && x == y
  {
    var ka, kd, kc := FormatInt(k.account), FormatInt(k.debit), FormatInt(k.credit);
    var la, ld, lc := FormatInt(l.account), FormatInt(l.debit), FormatInt(l.credit);
    NumberAlphabet(k.account);
    NumberAlphabet(l.account);
    NumberAlphabet(k.debit);
    NumberAlphabet(l.debit);
    NumberAlphabet(k.credit);
    NumberAlphabet(l.credit);
    hide FormatInt;
    LegFields(ka, k.text, kd, kc, x);
    LegFields(la, l.text, ld, lc, y);
    SplitFirst(':', ka, k.text + ":" + (kd + ":" + (kc + x)), la, l.text + ":" + (ld + ":" + (lc + y)));
    SplitFirst(':', k.text, kd + ":" + (kc + x), l.text, ld + ":" + (lc + y));
    SplitFirst(':', kd, kc + x, ld, lc + y);
    SplitRest(kc, x, lc, y);
    FormatIntInjective(k.account, l.account);
    FormatIntInjective(k.debit, l.debit);
    FormatIntInjective(k.credit, l.credit);
  }

  lemma LegFields(account: string, text: string, debit: string, credit: string, rest: string)
    ensures account + ":" + text + ":" + debit + ":" + credit + rest
         == account + ":" + (text + ":" + (debit + ":" + (credit + rest)))
  {}

  /** If one of the two separators occurs in no reference and no label, equal texts mean
      equal contents. */
  lemma SerializeInjective(e: Entry, f: Entry, c: char)
    requires Separates(c) && Avoids(e, c) && Avoids(f, c) && '|' !in e.prevHash && '|' !in f.prevHash
    requires ContentOf(e) == ContentOf(f)
    ensures e.prevHash == f.prevHash && SameContent(e, f)
  {
    hide ContentOf, Avoids, SameContent;
    HeadFields(e, f);
    if c == '|' {
      InjectiveWithoutBars(e, f);
    } else {
      InjectiveWithoutColons(e, f);
    }
  }

  /** Nothing else is in the text: entries that agree on their contents have the same one. */
  lemma SameContentSameText(e: Entry, f: Entry)
    requires e.prevHash == f.prevHash && SameContent(e, f)
    ensures ContentOf(e) == ContentOf(f)
  {
    hide Rfc3339, FormatInt, LegText;
    SameLegsText(e.lines, f.lines);
  }

  lemma {:induction false} SameLegsText(k: seq<EntryLine>, l: seq<EntryLine>)
    requires SameLegs(k, l)
    ensures LegsText(k) == LegsText(l)
  {
    if k != [] {
      SameLegsText(k[1..], l[1..]);
    }
  }

  /** The text of an entry whose date is a civil time and some nanoseconds. */
  lemma ContentAt(e: Entry, c: Civil, nanos: int)
    requires Exists(c) && 0 <= c.year <= 9999 && 0 <= nanos < 1_000_000_000
    requires e.date == SecondOf(c) * 1_000_000_000 + nanos
    ensures ContentOf(e) ==
            e.prevHash + "|" + (FormatInt(e.journal) + "|" + (e.ref + "|" +
            (PadNat(c.year, 4) + "-" + PadNat(c.month, 2) + "-" + PadNat(c.day, 2) + "T" + PadNat(c.hour, 2) + ":"
             + PadNat(c.minute, 2) + ":" + PadNat(c.second, 2) + "Z" + LegsText(e.lines))))
  {
    var year, rest := PadNat(c.year, 4), LegsText(e.lines);
    Rfc3339Of(c);
    Division(e.date, 1_000_000_000, SecondOf(c), nanos);
    hide SecondOf, Rfc3339, LegsText, FormatInt, PadNat, Exists;
    Joined(year, PadNat(c.month, 2), PadNat(c.day, 2), PadNat(c.hour, 2), PadNat(c.minute, 2), PadNat(c.second, 2));
  }

  lemma Joined(year: string, month: string, day: string, hour: string, minute: string, second: string)
    ensures year + ("-" + month + "-" + day + "T" + hour + ":" + minute + ":" + second + "Z")
         == year + "-" + month + "-" + day + "T" + hour + ":" + minute + ":" + second + "Z"
  {}

  /** Moving an entry to another second changes its text, whatever its reference and labels. */
  lemma OtherDateOtherText(e: Entry, date: int)
    requires date / 1_000_000_000 != e.date / 1_000_000_000
    ensures ContentOf(e.(date := date)) != ContentOf(e)
  {
    var f := e.(date := date);
    var head, legs := e.prevHash + "|" + FormatInt(e.journal) + "|" + e.ref + "|", LegsText(e.lines);
    var x, y := Rfc3339(SecondOfDate(e.date)), Rfc3339(SecondOfDate(date));
    hide Rfc3339, LegsText, FormatInt;
    if ContentOf(f) == ContentOf(e) {
      Between(e.prevHash, FormatInt(e.journal), e.ref, x, legs);
      Between(e.prevHash, FormatInt(e.journal), e.ref, y, legs);
      CutBoth(head, x, y, legs);
      Rfc3339Injective(SecondOfDate(e.date), SecondOfDate(date));
    }
  }

  lemma Between(prev: string, journal: string, ref: string, date: string, legs: string)
    ensures prev + "|" + (journal + "|" + (ref + "|" + (date + legs)))
         == prev + "|" + journal + "|" + ref + "|" + date + legs
  {}

  lemma CutBoth(head: string, x: string, y: string, tail: string)
    requires head + x + tail == head + y + tail
    ensures x == y
  {
    var s := head + x + tail;
    assert |x| == |y| && x == s[|head|..|head| + |x|] && y == s[|head|..|head| + |y|];
  }
}
