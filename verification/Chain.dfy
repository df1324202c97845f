/** The tamper-evident hash chain (backend/internal/finance/domain.go:136-166). The
    hash is any function with 64 hexadecimal digits as output; what the chain
    promises is stated as: agree, or exhibit a collision of the hash. */
module Chain {
  import opened Canonical
  import opened Entries

  const GENESIS: string := "ferp-genesis"

  predicate IsHex(s: string) {
    |s| == 64 && forall i :: 0 <= i < |s| ==> '0' <= s[i] <= '9' || 'a' <= s[i] <= 'f'
  }

  ghost predicate HexHash(hash: string -> string) {
    forall x :: IsHex(hash(x))
  }

  /** The hash the next entry must name as its predecessor. */
  function Head(entries: seq<Entry>): string {
    if entries == [] then GENESIS else entries[|entries| - 1].chainHash
  }

  /** Every entry names its predecessor's hash and carries the hash of its own content. */
  predicate Linked(entries: seq<Entry>, hash: string -> string) {
    entries == [] ||
    var e := entries[|entries| - 1];
    && Linked(entries[..|entries| - 1], hash)
    && e.prevHash == Head(entries[..|entries| - 1]) && e.chainHash == hash(ContentOf(e))
  }

  lemma {:induction false} LinkedPrefix(entries: seq<Entry>, hash: string -> string, n: nat)
    requires Linked(entries, hash) && n <= |entries|
    ensures Linked(entries[..n], hash)
  {
    if n < |entries| {
      var shorter := entries[..|entries| - 1];
      assert Linked(shorter, hash) && shorter[..n] == entries[..n];
      hide Linked;
      LinkedPrefix(shorter, hash, n);
    } else {
      assert entries[..n] == entries;
    }
  }

  lemma LinkedExtend(entries: seq<Entry>, e: Entry, hash: string -> string)
    requires Linked(entries, hash)
    ensures Linked(entries + [e], hash) <==> e.prevHash == Head(entries) && e.chainHash == hash(ContentOf(e))
  {
    assert (entries + [e])[..|entries|] == entries;
    hide ContentOf;
  }

  lemma LinkedStep(entries: seq<Entry>, hash: string -> string, i: nat)
    requires i < |entries| && Linked(entries[..i], hash)
    ensures var e := entries[i];
            Linked(entries[..i + 1], hash) <==> e.prevHash == Head(entries[..i]) && e.chainHash == hash(ContentOf(e))
    ensures !Linked(entries[..i + 1], hash) ==> !Linked(entries, hash)
  {
    hide *;
    assert entries[..i + 1] == entries[..i] + [entries[i]];
    LinkedExtend(entries[..i], entries[i], hash);
    if Linked(entries, hash) {
      LinkedPrefix(entries, hash, i + 1);
    }
  }

  /** VerifyChain: accepts exactly the linked sequences. */
  method VerifyChain(entries: seq<Entry>, hash: string -> string) returns (ok: bool)
    ensures ok <==> Linked(entries, hash)
  {
    var prev := GENESIS;
    assert Linked(entries[..0], hash);
    hide Linked, Serialize;
    for i := 0 to |entries|
      invariant Linked(entries[..i], hash) && prev == Head(entries[..i])
    {
      var e := entries[i];
      LinkedStep(entries, hash, i);
      if e.prevHash != prev {
        return false;
      }
      if hash(Serialize(e.prevHash, e.journal, e.ref, e.date, e.lines)) != e.chainHash {
        return false;
      }
      prev := e.chainHash;
    }
    assert entries[..|entries|] == entries;
    ok := true;
  }

  // ----- Tampering -----

  /** One entry of an accepted chain replaced by another that carries the same hashes. */
  lemma Replaced(entries: seq<Entry>, i: nat, e: Entry, hash: string -> string)
    requires Linked(entries, hash) && i < |entries| && e.chainHash == entries[i].chainHash
    requires Linked(entries[i := e], hash)
    ensures hash(ContentOf(e)) == hash(ContentOf(entries[i]))
    ensures e.prevHash == entries[i].prevHash
  {
    var after := entries[i := e];
    hide *;
    LinkedPrefix(entries, hash, i);
    LinkedPrefix(entries, hash, i + 1);
    LinkedPrefix(after, hash, i + 1);
    assert after[..i] == entries[..i];
    LinkedStep(entries, hash, i);
    LinkedStep(after, hash, i);
  }

  /** Moving any entry of an accepted chain to a date in another second, whatever its
      references and labels hold, makes the chain refused, or exhibits a hash collision. */
  lemma RedatedRefused(entries: seq<Entry>, i: nat, date: int, hash: string -> string)
    requires Linked(entries, hash) && i < |entries| && date / 1_000_000_000 != entries[i].date / 1_000_000_000
    ensures var e := entries[i].(date := date);
            || !Linked(entries[i := e], hash)
            || (ContentOf(e) != ContentOf(entries[i]) && hash(ContentOf(e)) == hash(ContentOf(entries[i])))
  {
    var e := entries[i].(date := date);
    hide ContentOf, Linked;
    OtherDateOtherText(entries[i], date);
    if Linked(entries[i := e], hash) {
      Replaced(entries, i, e, hash);
    }
  }

  /** The same for any change to journal, reference, date or legs, if one of the separators
      occurs in neither version of the entry. */
  lemma TamperedRefused(entries: seq<Entry>, i: nat, e: Entry, c: char, hash: string -> string)
    requires HexHash(hash) && Linked(entries, hash) && i < |entries| && Separates(c)
    requires Avoids(entries[i], c) && Avoids(e, c) && e.chainHash == entries[i].chainHash
    requires || e.journal != entries[i].journal || e.ref != entries[i].ref
             || e.date / 1_000_000_000 != entries[i].date / 1_000_000_000 || |e.lines| != |entries[i].lines|
             || exists k :: 0 <= k < |e.lines| && ChangedLeg(entries[i].lines[k], e.lines[k])
    ensures || !Linked(entries[i := e], hash)
            || (ContentOf(e) != ContentOf(entries[i]) && hash(ContentOf(e)) == hash(ContentOf(entries[i])))
  {
    var f := entries[i];
    assert !SameContent(f, e);
    hide ContentOf, Linked, Avoids, SameContent;
    if Linked(entries[i := e], hash) {
      Replaced(entries, i, e, hash);
      LinkedPrefix(entries, hash, i);
      HeadPlain(entries[..i], hash);
      LinkedPrefix(entries, hash, i + 1);
      LinkedStep(entries, hash, i);
      if ContentOf(e) == ContentOf(f) {
        SerializeInjective(f, e, c);
      }
    }
  }

  predicate ChangedLeg(k: EntryLine, l: EntryLine) {
    k.account != l.account || k.text != l.text || k.debit != l.debit || k.credit != l.credit
  }

  predicate AllAvoid(entries: seq<Entry>, c: char) {
    forall i :: 0 <= i < |entries| ==> Avoids(entries[i], c)
  }

  predicate SameHistory(es: seq<Entry>, fs: seq<Entry>) {
    |es| == |fs| && forall i :: 0 <= i < |es| ==> SameContent(es[i], fs[i])
  }

  /** Two different texts hashed in the chains have the same hash. */
  ghost predicate Collision(es: seq<Entry>, fs: seq<Entry>, hash: string -> string) {
    exists i, j :: 0 <= i < |es| && 0 <= j < |fs|
      && ContentOf(es[i]) != ContentOf(fs[j]) && hash(ContentOf(es[i])) == hash(ContentOf(fs[j]))
  }

  lemma HeadPlain(entries: seq<Entry>, hash: string -> string)
    requires HexHash(hash) && Linked(entries, hash)
    ensures '|' !in Head(entries)
    ensures Head(entries) == GENESIS <==> entries == []
  {
    if entries != [] {
      var h := Head(entries);
      assert IsHex(h);
      assert GENESIS[2] == 'r';
      forall i | 0 <= i < |h|
        ensures h[i] != '|'
      {
      }
    }
  }

  /** An accepted chain without the separator c in references and labels. */
  predicate PlainChain(entries: seq<Entry>, c: char, hash: string -> string) {
    Linked(entries, hash) && AllAvoid(entries, c)
  }

  lemma LastStep(entries: seq<Entry>, c: char, hash: string -> string)
    requires HexHash(hash) && PlainChain(entries, c, hash) && entries != []
    ensures var n := |entries| - 1;
            && PlainChain(entries[..n], c, hash) && Avoids(entries[n], c) && '|' !in entries[n].prevHash
            && entries[n].prevHash == Head(entries[..n]) && entries[n].chainHash == hash(ContentOf(entries[n]))
  {
    HeadPlain(entries[..|entries| - 1], hash);
  }

  /** Equal last hashes: the last contents and the hashes before them agree, or the hash collides. */
  lemma LastAgrees(es: seq<Entry>, fs: seq<Entry>, c: char, hash: string -> string)
    requires HexHash(hash) && PlainChain(es, c, hash) && PlainChain(fs, c, hash) && Separates(c)
    requires es != [] && fs != [] && Head(es) == Head(fs)
    ensures var m, n := |es| - 1, |fs| - 1;
            Collision(es, fs, hash) || (SameContent(es[m], fs[n]) && Head(es[..m]) == Head(fs[..n]))
  {
    var m, n := |es| - 1, |fs| - 1;
    LastStep(es, c, hash);
    LastStep(fs, c, hash);
    hide PlainChain, HexHash;
    if ContentOf(es[m]) == ContentOf(fs[n]) {
      SerializeInjective(es[m], fs[n], c);
    } else {
      CollisionAt(es, fs, hash, m, n);
    }
  }

  /** The last hash commits to the whole history: two accepted chains that end alike
      have the same length and contents throughout, unless the hash collides or both
      separators occur in references and labels. */
  lemma {:induction false} HeadCommitsToHistory(es: seq<Entry>, fs: seq<Entry>, c: char, hash: string -> string)
    requires HexHash(hash) && PlainChain(es, c, hash) && PlainChain(fs, c, hash) && Separates(c)
    requires Head(es) == Head(fs)
    ensures SameHistory(es, fs) || Collision(es, fs, hash)
    decreases |es|, 1
  {
    HeadPlain(es, hash);
    HeadPlain(fs, hash);
    if es != [] {
      LastAgrees(es, fs, c, hash);
      LastStep(es, c, hash);
      LastStep(fs, c, hash);
      HistoryStep(es, fs, c, hash);
    }
  }

  lemma {:induction false} HistoryStep(es: seq<Entry>, fs: seq<Entry>, c: char, hash: string -> string)
    requires HexHash(hash) && es != [] && fs != [] && Separates(c)
    requires PlainChain(es[..|es| - 1], c, hash) && PlainChain(fs[..|fs| - 1], c, hash)
    requires Collision(es, fs, hash)
          || (SameContent(es[|es| - 1], fs[|fs| - 1]) && Head(es[..|es| - 1]) == Head(fs[..|fs| - 1]))
    ensures SameHistory(es, fs) || Collision(es, fs, hash)
    decreases |es|, 0
  {
    hide *;
    var m, n := |es| - 1, |fs| - 1;
    if !Collision(es, fs, hash) {
      HeadCommitsToHistory(es[..m], fs[..n], c, hash);
      if Collision(es[..m], fs[..n], hash) {
        CollisionExtends(es, fs, hash, m, n);
      } else {
        HistoryExtends(es, fs);
      }
    }
  }

  lemma HistoryExtends(es: seq<Entry>, fs: seq<Entry>)
    requires es != [] && fs != [] && SameHistory(es[..|es| - 1], fs[..|fs| - 1])
    requires SameContent(es[|es| - 1], fs[|fs| - 1])
    ensures SameHistory(es, fs)
  {
    hide SameContent;
    forall i | 0 <= i < |es|
      ensures SameContent(es[i], fs[i])
    {
      if i < |es| - 1 {
        assert SameContent(es[..|es| - 1][i], fs[..|fs| - 1][i]);
      }
    }
  }

  lemma CollisionAt(es: seq<Entry>, fs: seq<Entry>, hash: string -> string, i: nat, j: nat)
    requires i < |es| && j < |fs|
    requires ContentOf(es[i]) != ContentOf(fs[j]) && hash(ContentOf(es[i])) == hash(ContentOf(fs[j]))
    ensures Collision(es, fs, hash)
  {}

  lemma CollisionExtends(es: seq<Entry>, fs: seq<Entry>, hash: string -> string, m: nat, n: nat)
    requires m <= |es| && n <= |fs| && Collision(es[..m], fs[..n], hash)
    ensures Collision(es, fs, hash)
  {
    hide ContentOf;
    var i, j :| 0 <= i < m && 0 <= j < n
      && ContentOf(es[..m][i]) != ContentOf(fs[..n][j]) && hash(ContentOf(es[..m][i])) == hash(ContentOf(fs[..n][j]));
    CollisionAt(es, fs, hash, i, j);
  }
}
