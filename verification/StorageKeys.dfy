/** The texts under which file bytes are stored (backend/internal/documentsvc/ecm.go:323,
    343, 402), and which names keep them apart. */
module StorageKeys {
  import opened Paths
  import opened Text

  /** What a key is formatted from: a file's first version carries the clock reading, a
      later one the file's id and the version number. */
  datatype Parts =
    | First(entity: int, scope: string, stamp: nat, name: string)
    | Revision(entity: int, scope: string, id: nat, version: nat, name: string)

  function Prefix(k: Parts): string {
    "e" + FormatInt(k.entity) + "/" + k.scope
  }

  function Number(k: Parts): nat {
    if k.First? then k.stamp else k.id
  }

  function RevisionTail(version: nat, name: string): string {
    "v" + FormatNat(version) + "-" + name
  }

  function Rest(k: Parts): string {
    if k.First? then k.name else RevisionTail(k.version, k.name)
  }

  function Tail(number: nat, rest: string): string {
    FormatNat(number) + "-" + rest
  }

  function KeyText(k: Parts): string {
    Prefix(k) + "/" + Tail(Number(k), Rest(k))
  }

  predicate NonBlank(s: string) {
    TrimSpace(s) != ""
  }

  /** A store that never has more than `files` files, opened at clock reading `epoch`. */
  datatype Bounds = Bounds(files: nat, epoch: nat)

  /** The keys of such a store. */
  predicate WellFormed(k: Parts, bounds: Bounds) {
    && NonBlank(k.name)
    && match k
       case First(_, _, stamp, _) => stamp > bounds.epoch
       case Revision(_, _, id, version, _) => 0 < id <= bounds.files && version >= 2
  }

  // ----- Names that look like keys -----

  /** The end of some key of the store: a clock reading with a name, or a file id with a
      revision. */
  ghost predicate EndsKey(number: nat, rest: string, bounds: Bounds) {
    || (number > bounds.epoch && NonBlank(rest))
    || (0 < number <= bounds.files && exists v: nat, m: string :: IsRevision(v, m, rest))
  }

  predicate IsRevision(version: nat, name: string, rest: string) {
    version >= 2 && NonBlank(name) && rest == RevisionTail(version, name)
  }

  ghost predicate CutsAt(name: string, before: string, number: nat, rest: string, bounds: Bounds) {
    name == before + "/" + Tail(number, rest) && EndsKey(number, rest, bounds)
  }

  /** The name holds a slash with the end of a key behind it. */
  ghost predicate KeyLike(name: string, bounds: Bounds) {
    exists before: string, number: nat, rest: string :: CutsAt(name, before, number, rest, bounds)
  }

  /** A name without a slash, or without a hyphen, is not like a key. */
  lemma NotKeyLike(name: string, bounds: Bounds)
    requires '/' !in name || '-' !in name
    ensures !KeyLike(name, bounds)
  {
    forall before: string, number: nat, rest: string
      ensures !CutsAt(name, before, number, rest, bounds)
    {
      var s := before + "/" + Tail(number, rest);
      assert s[|before|] == '/';
      assert Tail(number, rest)[|FormatNat(number)|] == '-';
      assert s[|before| + 1 + |FormatNat(number)|] == '-';
    }
  }

  lemma StartsNonBlank(s: string)
    requires s != "" && !IsSpace(s[0])
    ensures NonBlank(s)
  {
    TrimRightEnds(s, Blanks);
    KeepsFirst(s);
  }

  lemma {:induction false} KeepsFirst(s: string)
    requires s != "" && !IsSpace(s[0])
    ensures TrimRight(s, Blanks) != ""
  {
    if |s| > 1 {
      KeepsFirst(s[..|s| - 1]);
    }
  }

  /** Every well-formed key ends as one. */
  lemma RestEndsKey(k: Parts, bounds: Bounds)
    requires WellFormed(k, bounds)
    ensures EndsKey(Number(k), Rest(k), bounds)
  {
    if k.Revision? {
      assert IsRevision(k.version, k.name, Rest(k));
      StartsNonBlank(Rest(k));
    }
  }

  // ----- Equal texts, equal keys -----

  lemma NumberText(n: nat)
    ensures FormatNat(n) != "" && '/' !in FormatNat(n) && '-' !in FormatNat(n)
    ensures FormatInt(n) == FormatNat(n)
  {}

  /** Of two readings of one text, the one with the longer prefix cuts the other's rest. */
  lemma LaterCut(p: string, n: nat, r: string, q: string, m: nat, t: string) returns (before: string)
    requires p + "/" + Tail(n, r) == q + "/" + Tail(m, t) && |p| < |q|
    ensures r == before + "/" + Tail(m, t)
  {
    NumberText(n);
    var d, x := FormatNat(n), p + "/" + Tail(n, r);
    assert x[|q|] == '/';
    var at := |q| - |p| - 1;
    assert Tail(n, r)[at] == '/';
    assert Tail(n, r)[..|d|] == d && Tail(n, r)[|d|] == '-';
    hide FormatNat;
    assert at > |d|;
    before := r[..at - |d| - 1];
    assert x[|p| + 1 + |d| + 1..] == r;
    assert x[|q|..] == "/" + Tail(m, t);
    assert r[at - |d| - 1..] == x[|q|..];
  }

  /** What cuts a key's rest cuts its name. */
  lemma CutName(k: Parts, before: string, number: nat, rest: string, bounds: Bounds)
    requires Rest(k) == before + "/" + Tail(number, rest) && EndsKey(number, rest, bounds)
    ensures KeyLike(k.name, bounds)
  {
    if k.First? {
      assert CutsAt(k.name, before, number, rest, bounds);
    } else {
      NumberText(k.version);
      var lead := "v" + FormatNat(k.version) + "-";
      assert Rest(k) == lead + k.name && '/' !in lead;
      assert Rest(k)[|before|] == '/';
      assert forall i :: 0 <= i < |lead| ==> Rest(k)[i] == lead[i] != '/';
      assert |before| >= |lead|;
      assert k.name == Rest(k)[|lead|..];
      assert k.name == before[|lead|..] + "/" + Tail(number, rest);
      assert CutsAt(k.name, before[|lead|..], number, rest, bounds);
    }
  }

  lemma SamePrefix(j: Parts, k: Parts, bounds: Bounds)
    requires WellFormed(j, bounds) && WellFormed(k, bounds) && KeyText(j) == KeyText(k)
    requires !KeyLike(j.name, bounds)
    ensures |Prefix(j)| >= |Prefix(k)|
  {
    if |Prefix(j)| < |Prefix(k)| {
      RestEndsKey(k, bounds);
      hide FormatNat, EndsKey, KeyLike;
      var before := LaterCut(Prefix(j), Number(j), Rest(j), Prefix(k), Number(k), Rest(k));
      CutName(j, before, Number(k), Rest(k), bounds);
    }
  }

  lemma RestInjective(j: Parts, k: Parts)
    requires Rest(j) == Rest(k) && j.Revision? && k.Revision?
    ensures j.version == k.version && j.name == k.name
  {
    NumberText(j.version);
    NumberText(k.version);
    assert Rest(j)[1..] == FormatNat(j.version) + "-" + j.name;
    assert Rest(k)[1..] == FormatNat(k.version) + "-" + k.name;
    SplitFirst('-', FormatNat(j.version), j.name, FormatNat(k.version), k.name);
    FormatNatInjective(j.version, k.version);
  }

  lemma PrefixInjective(j: Parts, k: Parts)
    requires Prefix(j) == Prefix(k)
    ensures j.entity == k.entity && j.scope == k.scope
  {
    FormatIntSign(j.entity);
    FormatIntSign(k.entity);
    var a, b := FormatInt(j.entity), FormatInt(k.entity);
    assert '/' !in a && '/' !in b by {
      assert a == [a[0]] + a[1..] && b == [b[0]] + b[1..];
    }
    assert Prefix(j)[1..] == a + "/" + j.scope && Prefix(k)[1..] == b + "/" + k.scope;
    SplitFirst('/', a, j.scope, b, k.scope);
    FormatIntInjective(j.entity, k.entity);
  }

  /** Names unlike keys keep the texts apart: equal texts come from equal parts. */
  lemma KeysInjective(j: Parts, k: Parts, bounds: Bounds)
    requires WellFormed(j, bounds) && WellFormed(k, bounds) && KeyText(j) == KeyText(k)
    requires !KeyLike(j.name, bounds) && !KeyLike(k.name, bounds) && bounds.files <= bounds.epoch
    ensures j == k
  {
    SamePrefix(j, k, bounds);
    SamePrefix(k, j, bounds);
    hide KeyLike, FormatNat, FormatInt;
    var n := |Prefix(j)|;
    assert KeyText(j)[..n] == Prefix(j) && KeyText(k)[..n] == Prefix(k);
    assert KeyText(j)[n + 1..] == Tail(Number(j), Rest(j)) && KeyText(k)[n + 1..] == Tail(Number(k), Rest(k));
    PrefixInjective(j, k);
    NumberText(Number(j));
    NumberText(Number(k));
    SplitFirst('-', FormatNat(Number(j)), Rest(j), FormatNat(Number(k)), Rest(k));
    FormatNatInjective(Number(j), Number(k));
    if j.Revision? && k.Revision? {
      RestInjective(j, k);
    }
  }

  /** What is behind a cut whose own name is plain. */
  ghost predicate Innermost(number: nat, rest: string, bounds: Bounds) {
    || (number > bounds.epoch && NonBlank(rest) && !KeyLike(rest, bounds))
    || (0 < number <= bounds.files && exists v: nat, m: string :: IsRevision(v, m, rest) && !KeyLike(m, bounds))
  }

  /** A key-like name can be cut so that the name behind the cut is not key-like. */
  lemma {:induction false} InnermostCut(name: string, bounds: Bounds)
    returns (before: string, number: nat, rest: string)
    requires KeyLike(name, bounds)
    ensures name == before + "/" + Tail(number, rest) && Innermost(number, rest, bounds)
    decreases |name|
  {
    before, number, rest :| CutsAt(name, before, number, rest, bounds);
    if number > bounds.epoch && NonBlank(rest) {
      if KeyLike(rest, bounds) {
        var b, n, r := InnermostCut(rest, bounds);
        DeeperCut(name, before, number, "", rest, b, n, r);
        before, number, rest := before + "/" + Tail(number, "") + b, n, r;
      }
    } else {
      var v: nat, m: string :| IsRevision(v, m, rest);
      if KeyLike(m, bounds) {
        var b, n, r := InnermostCut(m, bounds);
        var lead := "v" + FormatNat(v) + "-";
        DeeperCut(name, before, number, lead, m, b, n, r);
        before, number, rest := before + "/" + Tail(number, lead) + b, n, r;
      }
    }
  }

  lemma DeeperCut(name: string, before: string, number: nat, lead: string, inner: string, b: string, n: nat, r: string)
    requires name == before + "/" + Tail(number, lead + inner) && inner == b + "/" + Tail(n, r)
    ensures name == before + "/" + Tail(number, lead) + b + "/" + Tail(n, r)
  {
    hide FormatNat;
    assert Tail(number, lead + inner) == Tail(number, lead) + inner;
  }
}
