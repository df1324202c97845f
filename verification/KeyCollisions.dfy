/** When two files' bytes share one storage key (backend/internal/documentsvc/ecm.go:323,
    343, 402): the names that can overwrite another file's bytes, exactly. */
module KeyCollisions {
  import opened FileHistory
  import FolderTree
  import opened Options
  import opened Paths
  import opened StorageKeys
  import opened Text

  const NO_FOLDERS: FolderTree.Table := map[]

  /** An upload into the root folder. */
  function RootUpload(entity: int, scope: string, name: string, body: Bytes, stamp: nat): Upload {
    Upload(entity, None, scope, 0, name, "", body, None, stamp)
  }

  lemma UploadsNew(s: Files, u: Upload, sha: Bytes -> string)
    requires Shaped(s) && u.folder.None? && !FileExists(s, u.entity, u.folder, u.name)
    ensures Store(s, NO_FOLDERS, u, sha).0 == FirstVersion(s, u, sha).0
  {
    StoreIs(s, NO_FOLDERS, u, sha);
  }

  lemma UploadsAgain(s: Files, u: Upload, i: int, sha: Bytes -> string)
    requires Shaped(s) && u.folder.None? && i in s.docs && SameFile(s.docs[i], u.entity, u.folder, u.name)
    ensures Store(s, NO_FOLDERS, u, sha).0
         == Append(s, s.docs[i], Limited(u.body), MimeOf(u.mime), u.createdBy, sha).0
  {
    StoreIs(s, NO_FOLDERS, u, sha);
    assert FindFile(s, u.entity, u.folder, u.name) == Some(i);
  }

  // ----- Runs of a bounded store -----

  /** A run on a store of these bounds, in which no key-like name but the given one occurs. */
  ghost predicate Fair(ops: seq<Op>, name: string, bounds: Bounds, sha: Bytes -> string) {
    && Rising(Clock(bounds, bounds.epoch), ops) && Run(NO_FILES, ops, sha).lastDoc <= bounds.files
    && MayName(ops, name, bounds)
  }

  ghost predicate MayName(ops: seq<Op>, name: string, bounds: Bounds) {
    forall i :: 0 <= i < |ops| && ops[i].UploadOp? ==> Allowed(ops[i].upload.name, name, bounds)
  }

  ghost predicate Allowed(other: string, name: string, bounds: Bounds) {
    other == name || !KeyLike(other, bounds)
  }

  /** Besides names that are not key-like this one may be used too: no run loses rows or bytes. */
  ghost predicate AlwaysSafe(name: string, bounds: Bounds, sha: Bytes -> string) {
    forall ops: seq<Op>, m: nat :: Fair(ops, name, bounds, sha) && m <= |ops| ==>
      Grows(Run(NO_FILES, ops[..m], sha), Run(NO_FILES, ops, sha))
  }

  lemma Refutes(ops: seq<Op>, m: nat, key: string, name: string, bounds: Bounds, sha: Bytes -> string)
    requires Fair(ops, name, bounds, sha) && m <= |ops|
    requires var s, t := Run(NO_FILES, ops[..m], sha), Run(NO_FILES, ops, sha);
             key in s.data && key in t.data && t.data[key] != s.data[key]
    ensures !AlwaysSafe(name, bounds, sha)
  {
    hide Fair, Run;
  }

  /** The state and the clock a run has reached. */
  ghost predicate Reached(
    ops: seq<Op>, s: Files, latest: nat, name: string, bounds: Bounds, sha: Bytes -> string)
  {
    && s == Run(NO_FILES, ops, sha) && Rising(Clock(bounds, bounds.epoch), ops)
    && After(Clock(bounds, bounds.epoch), ops).latest == latest && MayName(ops, name, bounds)
  }

  lemma StartReached(name: string, bounds: Bounds, sha: Bytes -> string)
    ensures Reached([], NO_FILES, bounds.epoch, name, bounds, sha) && Shaped(NO_FILES)
    ensures NO_FILES.docs == map[] && NO_FILES.lastDoc == 0
  {}

  /** One more upload. */
  lemma Uploaded(
    ops: seq<Op>, s: Files, latest: nat, u: Upload, name: string, bounds: Bounds, sha: Bytes -> string)
    requires Reached(ops, s, latest, name, bounds, sha) && latest < u.stamp && Allowed(u.name, name, bounds)
    requires NonBlank(u.scope) && NonBlank(u.name)
    ensures Shaped(s)
    ensures Reached(ops + [UploadOp(NO_FOLDERS, u)], Store(s, NO_FOLDERS, u, sha).0, u.stamp, name, bounds, sha)
  {
    var more := ops + [UploadOp(NO_FOLDERS, u)];
    assert more[..|ops|] == ops && more[|ops|] == UploadOp(NO_FOLDERS, u);
    hide Store, Shaped, KeyLike, Allowed;
    assert Run(NO_FILES, more, sha) == Step(s, UploadOp(NO_FOLDERS, u), sha);
  }

  /** A new file. */
  lemma AddFile(
    ops: seq<Op>, s: Files, latest: nat, u: Upload, name: string, bounds: Bounds, sha: Bytes -> string)
    returns (t: Files)
    requires Reached(ops, s, latest, name, bounds, sha) && latest < u.stamp && Allowed(u.name, name, bounds)
    requires NonBlank(u.scope) && NonBlank(u.name) && u.folder.None? && !FileExists(s, u.entity, None, u.name)
    ensures var id := s.lastDoc + 1;
            && Reached(ops + [UploadOp(NO_FOLDERS, u)], t, u.stamp, name, bounds, sha)
            && t.lastDoc == id && id in t.docs && t.docs == s.docs[id := t.docs[id]] && t.docs[id].entity == u.entity
            && t.docs[id].scope == u.scope && t.docs[id].name == u.name && t.docs[id].folder.None?
            && t.docs[id].version == 1
            && t.data == s.data[KeyText(First(u.entity, u.scope, u.stamp, u.name)) := Limited(u.body)]
  {
    hide KeyText, Reached, Store, Shaped, FileExists, FirstVersion, Limited, NonBlank, Allowed;
    Uploaded(ops, s, latest, u, name, bounds, sha);
    UploadsNew(s, u, sha);
    FirstIs(s, u, sha);
    t := Store(s, NO_FOLDERS, u, sha).0;
  }

  /** One more version of a file. */
  lemma AddVersion(
    ops: seq<Op>, s: Files, latest: nat, i: nat, body: Bytes, name: string, bounds: Bounds, sha: Bytes -> string)
    returns (more: seq<Op>, t: Files)
    requires Reached(ops, s, latest, name, bounds, sha) && i in s.docs && s.docs[i].folder.None? && |body| <= LIMIT
    requires var d := s.docs[i]; NonBlank(d.scope) && NonBlank(d.name) && Allowed(d.name, name, bounds)
    ensures var d := s.docs[i];
            && Reached(more, t, latest + 1, name, bounds, sha) && |more| == |ops| + 1 && ops <= more
            && t.lastDoc == s.lastDoc && t.docs.Keys == s.docs.Keys && SameIdentity(d, t.docs[i])
            && t.docs[i].version == d.version + 1
            && t.data == s.data[KeyText(Revision(d.entity, d.scope, i, d.version + 1, d.name)) := body]
  {
    var d := s.docs[i];
    var u := RootUpload(d.entity, d.scope, d.name, body, latest + 1);
    hide KeyText, Reached, Store, Append, NonBlank, Allowed;
    Uploaded(ops, s, latest, u, name, bounds, sha);
    more, t := ops + [UploadOp(NO_FOLDERS, u)], Store(s, NO_FOLDERS, u, sha).0;
    assert FileOk(s, i);
    hide Shaped;
    UploadsAgain(s, u, i, sha);
    AppendIs(s, d, Revision(d.entity, d.scope, i, d.version + 1, d.name), body, MimeOf(""), None, sha);
  }

  /** A file brought to a version. */
  lemma {:induction false} Revise(
    ops: seq<Op>, s: Files, latest: nat, i: nat, version: nat, body: Bytes,
    name: string, bounds: Bounds, sha: Bytes -> string)
    returns (more: seq<Op>, t: Files)
    requires Reached(ops, s, latest, name, bounds, sha) && i in s.docs && s.docs[i].folder.None? && |body| <= LIMIT
    requires var d := s.docs[i]; NonBlank(d.scope) && NonBlank(d.name) && Allowed(d.name, name, bounds)
    requires version >= s.docs[i].version == 1
    ensures var d := s.docs[i];
            && Reached(more, t, latest + version - 1, name, bounds, sha) && ops <= more && |more| == |ops| + version - 1
            && t.lastDoc == s.lastDoc && t.docs.Keys == s.docs.Keys && SameIdentity(d, t.docs[i])
            && t.docs[i].version == version
            && var key := KeyText(Revision(d.entity, d.scope, i, version, d.name));
               version > 1 ==> key in t.data && t.data[key] == body
    decreases version
  {
    hide KeyText, Reached, NonBlank, Allowed;
    if version == 1 {
      more, t := ops, s;
    } else {
      var before, r := Revise(ops, s, latest, i, version - 1, body, name, bounds, sha);
      more, t := AddVersion(before, r, latest + version - 2, i, body, name, bounds, sha);
    }
  }

  /** Each file belongs to the entity of its own number. */
  predicate OwnEntities(s: Files) {
    forall i :: i in s.docs ==> s.docs[i].entity == i <= s.lastDoc
  }

  /** More files, until there are `count`. */
  lemma {:induction false} Fill(
    ops: seq<Op>, s: Files, latest: nat, count: nat, name: string, bounds: Bounds, sha: Bytes -> string)
    returns (more: seq<Op>, t: Files)
    requires Reached(ops, s, latest, name, bounds, sha) && OwnEntities(s) && 1 <= s.lastDoc <= count && 1 in s.docs
    ensures Reached(more, t, latest + (count - s.lastDoc), name, bounds, sha) && ops <= more
    ensures OwnEntities(t) && t.lastDoc == count && 1 in t.docs && t.docs[1] == s.docs[1]
    decreases count
  {
    hide KeyText, Reached, NonBlank, Allowed;
    if count == s.lastDoc {
      more, t := ops, s;
    } else {
      var before, r := Fill(ops, s, latest, count - 1, name, bounds, sha);
      PlainD(name, bounds);
      var u := RootUpload(count, "d", "d", [], latest + (count - s.lastDoc));
      assert !FileExists(r, count, None, "d");
      t := AddFile(before, r, latest + (count - 1 - s.lastDoc), u, name, bounds, sha);
      more := before + [UploadOp(NO_FOLDERS, u)];
    }
  }

  lemma PlainD(name: string, bounds: Bounds)
    ensures NonBlank("d") && Allowed("d", name, bounds)
  {
    hide KeyLike;
    StartsNonBlank("d");
    NotKeyLike("d", bounds);
  }

  // ----- Every key-like name can overwrite -----

  /** The texts of the key of a first upload under a cut name, and of the key it repeats. */
  lemma CutKey(entity: int, scope: string, stamp: nat, name: string, before: string, k: Parts)
    requires name == before + "/" + Tail(Number(k), Rest(k))
    requires k.entity == entity && k.scope == scope + "/" + Tail(stamp, before)
    ensures KeyText(First(entity, scope, stamp, name)) == KeyText(k)
  {
    var e, end := "e" + FormatInt(entity) + "/", "/" + Tail(Number(k), Rest(k));
    var t, f := Tail(stamp, before), First(entity, scope, stamp, name);
    assert Number(f) == stamp && Rest(f) == name && name == before + end;
    assert Prefix(f) == e + scope && Prefix(k) == e + (scope + "/" + t);
    hide FormatInt, Rest, Number, Prefix;
    TailJoins(stamp, before, end);
    hide Tail;
    Regroup(e, scope, t, end);
    KeyTextIs(f, e + scope, t + end);
    KeyTextEnds(k, e + (scope + "/" + t), end);
  }

  lemma KeyTextIs(k: Parts, prefix: string, tail: string)
    requires Prefix(k) == prefix && Tail(Number(k), Rest(k)) == tail
    ensures KeyText(k) == prefix + "/" + tail
  {}

  lemma KeyTextEnds(k: Parts, prefix: string, end: string)
    requires Prefix(k) == prefix && end == "/" + Tail(Number(k), Rest(k))
    ensures KeyText(k) == prefix + end
  {
    hide Prefix, Tail, Rest, Number;
  }

  lemma Regroup(e: string, scope: string, t: string, end: string)
    ensures e + scope + "/" + (t + end) == e + (scope + "/" + t) + end
  {}

  lemma TailJoins(n: nat, a: string, b: string)
    ensures Tail(n, a + b) == Tail(n, a) + b
  {}

  /** The file and the bytes a first version adds. */
  lemma FirstIs(s: Files, u: Upload, sha: Bytes -> string)
    ensures var t, id := FirstVersion(s, u, sha).0, s.lastDoc + 1;
            && t.lastDoc == id && id in t.docs && t.docs == s.docs[id := t.docs[id]]
            && t.docs[id].entity == u.entity && t.docs[id].scope == u.scope && t.docs[id].name == u.name
            && t.docs[id].folder == u.folder && t.docs[id].version == 1 && t.docs[id].id == id
            && id in t.versions && |t.versions[id]| == 1 && t.versions == s.versions[id := t.versions[id]]
            && t.data == s.data[KeyText(First(u.entity, u.scope, u.stamp, u.name)) := Limited(u.body)]
  {
    hide KeyText;
  }

  /** The scope under which another file's key is repeated. */
  function RepeatedScope(stamp: nat, before: string): (r: string)
    ensures r == "s/" + Tail(stamp, before)
  {
    "s" + "/" + Tail(stamp, before)
  }

  lemma ScopesNonBlank(stamp: nat, before: string)
    ensures NonBlank("s") && NonBlank(RepeatedScope(stamp, before))
  {
    hide Tail;
    StartsNonBlank("s");
    StartsNonBlank(RepeatedScope(stamp, before));
  }

  lemma OtherNames(s: Files, entity: int, name: string)
    requires forall i :: i in s.docs && s.docs[i].entity == entity ==> s.docs[i].name != name
    ensures !FileExists(s, entity, None, name)
  {}

  /** The bytes of another file's first version, uploaded at the number read as a clock reading. */
  lemma RepeatsFirst(name: string, before: string, number: nat, rest: string, bounds: Bounds, sha: Bytes -> string)
    requires number > bounds.epoch && name == before + "/" + Tail(number, rest) && bounds.files >= 2
    requires NonBlank(name) && NonBlank(rest) && !KeyLike(rest, bounds)
    ensures !AlwaysSafe(name, bounds, sha)
  {
    var scope := RepeatedScope(number + 1, before);
    ScopesNonBlank(number + 1, before);
    CutKey(1, "s", number + 1, name, before, First(1, scope, number, rest));
    assert Allowed(rest, name, bounds) && Allowed(name, name, bounds) && rest != name;
    StartReached(name, bounds, sha);
    hide KeyText, KeyLike, Tail, NonBlank, AlwaysSafe, RepeatedScope, Reached, Allowed, FileExists;
    var u := RootUpload(1, scope, rest, [], number);
    OtherNames(NO_FILES, 1, rest);
    var s := AddFile([], NO_FILES, bounds.epoch, u, name, bounds, sha);
    UploadOverwrites([] + [UploadOp(NO_FOLDERS, u)], s, number, number + 1, name, bounds, sha);
  }

  /** Two states of one run with different bytes under a key. */
  lemma Loses(
    ops: seq<Op>, m: nat, s: Files, t: Files, early: nat, late: nat, key: string,
    name: string, bounds: Bounds, sha: Bytes -> string)
    requires m <= |ops| && Reached(ops[..m], s, early, name, bounds, sha) && Reached(ops, t, late, name, bounds, sha)
    requires t.lastDoc <= bounds.files && key in s.data && key in t.data && t.data[key] != s.data[key]
    ensures !AlwaysSafe(name, bounds, sha)
  {
    hide KeyLike, AlwaysSafe, Run;
    Refutes(ops, m, key, name, bounds, sha);
  }

  /** A file uploaded under the name over stored bytes. */
  lemma UploadOverwrites(
    ops: seq<Op>, s: Files, latest: nat, stamp: nat, name: string, bounds: Bounds, sha: Bytes -> string)
    requires Reached(ops, s, latest, name, bounds, sha) && latest < stamp && s.lastDoc < bounds.files && NonBlank(name)
    requires forall i :: i in s.docs ==> s.docs[i].name != name
    requires var key := KeyText(First(1, "s", stamp, name)); key in s.data && s.data[key] == []
    ensures !AlwaysSafe(name, bounds, sha)
  {
    hide KeyText, KeyLike, NonBlank, AlwaysSafe, Reached, FileExists;
    ScopesNonBlank(stamp, "");
    OtherNames(s, 1, name);
    var u := RootUpload(1, "s", name, [0], stamp);
    var t := AddFile(ops, s, latest, u, name, bounds, sha);
    var more := ops + [UploadOp(NO_FOLDERS, u)];
    assert more[..|ops|] == ops;
    Loses(more, |ops|, s, t, latest, stamp, KeyText(First(1, "s", stamp, name)), name, bounds, sha);
  }

  lemma RevisionCut(name: string, before: string, number: nat, v: nat, m: string, stamp: nat, bounds: Bounds)
    requires name == before + "/" + Tail(number, RevisionTail(v, m)) && !KeyLike(m, bounds)
    ensures KeyText(First(1, "s", stamp, name)) == KeyText(Revision(1, RepeatedScope(stamp, before), number, v, m))
    ensures Allowed(m, name, bounds) && Allowed(name, name, bounds) && m != name
  {
    hide KeyLike, KeyText;
    var k := Revision(1, RepeatedScope(stamp, before), number, v, m);
    assert Number(k) == number && Rest(k) == RevisionTail(v, m);
    assert |name| > |m|;
    CutKey(1, "s", stamp, name, before, k);
  }

  /** The bytes of version v of file 1, repeated by the first upload under the name. */
  lemma RepeatsFileOne(name: string, before: string, v: nat, m: string, bounds: Bounds, sha: Bytes -> string)
    requires name == before + "/" + Tail(1, RevisionTail(v, m)) && bounds.files >= 2
    requires v >= 2 && NonBlank(name) && NonBlank(m) && !KeyLike(m, bounds)
    ensures !AlwaysSafe(name, bounds, sha)
  {
    var stamp := bounds.epoch + v + 1;
    var scope := RepeatedScope(stamp, before);
    hide KeyText, KeyLike, Tail, RevisionTail, NonBlank, AlwaysSafe, RepeatedScope, Reached, Allowed, FileExists;
    ScopesNonBlank(stamp, before);
    RevisionCut(name, before, 1, v, m, stamp, bounds);
    StartReached(name, bounds, sha);
    hide NO_FILES;
    OtherNames(NO_FILES, 1, m);
    var ops, r := NewFileRevised([], NO_FILES, bounds.epoch, scope, m, v, [], name, bounds, sha);
    assert r.docs.Keys == {1} && r.docs[1].name == m;
    UploadOverwrites(ops, r, bounds.epoch + v, stamp, name, bounds, sha);
  }

  /** The bytes of the first upload under the name, repeated by version v of a later file. */
  lemma RepeatedByFile(
    name: string, before: string, number: nat, v: nat, m: string, bounds: Bounds, sha: Bytes -> string)
    requires name == before + "/" + Tail(number, RevisionTail(v, m)) && 2 <= number <= bounds.files
    requires v >= 2 && NonBlank(name) && NonBlank(m) && !KeyLike(m, bounds)
    ensures !AlwaysSafe(name, bounds, sha)
  {
    var stamp := bounds.epoch + 1;
    var scope := RepeatedScope(stamp, before);
    hide KeyText, KeyLike, Tail, RevisionTail, NonBlank, AlwaysSafe, RepeatedScope, Reached, Allowed, FileExists;
    ScopesNonBlank(stamp, before);
    RevisionCut(name, before, number, v, m, stamp, bounds);
    StartReached(name, bounds, sha);
    var u := RootUpload(1, "s", name, [], stamp);
    OtherNames(NO_FILES, 1, name);
    var s := AddFile([], NO_FILES, bounds.epoch, u, name, bounds, sha);
    RevisionOverwrites([] + [UploadOp(NO_FOLDERS, u)], s, stamp, scope, number, v, m, name, bounds, sha);
  }

  /** File `number`, brought to version v under a key that is in use. */
  lemma RevisionOverwrites(
    one: seq<Op>, s: Files, latest: nat, scope: string, number: nat, v: nat, m: string,
    name: string, bounds: Bounds, sha: Bytes -> string)
    requires Reached(one, s, latest, name, bounds, sha) && OwnEntities(s) && s.lastDoc == 1 && 1 in s.docs
    requires s.docs[1].name != m && 2 <= number <= bounds.files && v >= 2
    requires NonBlank(scope) && NonBlank(m) && Allowed(m, name, bounds)
    requires var key := KeyText(Revision(1, scope, number, v, m)); key in s.data && s.data[key] == []
    ensures !AlwaysSafe(name, bounds, sha)
  {
    hide KeyText, KeyLike, NonBlank, AlwaysSafe, Reached, Allowed, FileExists;
    var ops, r := Fill(one, s, latest, number - 1, name, bounds, sha);
    OtherNames(r, 1, m);
    var filled := latest + (number - 1 - s.lastDoc);
    var more, t := NewFileRevised(ops, r, filled, scope, m, v, [0], name, bounds, sha);
    assert more[..|one|] == one;
    Loses(more, |one|, s, t, latest, filled + v, KeyText(Revision(1, scope, number, v, m)), name, bounds, sha);
  }

  /** A new file, brought to version v. */
  lemma NewFileRevised(
    ops: seq<Op>, s: Files, latest: nat, scope: string, m: string, v: nat, body: Bytes,
    name: string, bounds: Bounds, sha: Bytes -> string)
    returns (more: seq<Op>, t: Files)
    requires Reached(ops, s, latest, name, bounds, sha) && !FileExists(s, 1, None, m) && |body| <= LIMIT
    requires NonBlank(scope) && NonBlank(m) && Allowed(m, name, bounds) && v >= 2
    ensures Reached(more, t, latest + v, name, bounds, sha) && ops <= more && |more| == |ops| + v
    ensures t.lastDoc == s.lastDoc + 1 && t.docs.Keys == s.docs.Keys + {t.lastDoc} && t.docs[t.lastDoc].name == m
    ensures var key := KeyText(Revision(1, scope, t.lastDoc, v, m)); key in t.data && t.data[key] == body
  {
    hide KeyText, NonBlank, Reached, Allowed, FileExists;
    var u := RootUpload(1, scope, m, [], latest + 1);
    var r := AddFile(ops, s, latest, u, name, bounds, sha);
    more, t := Revise(ops + [UploadOp(NO_FOLDERS, u)], r, latest + 1, r.lastDoc, v, body, name, bounds, sha);
  }

  lemma KeyLikeLoses(name: string, bounds: Bounds, sha: Bytes -> string)
    requires KeyLike(name, bounds) && NonBlank(name) && 2 <= bounds.files
    ensures !AlwaysSafe(name, bounds, sha)
  {
    var before, number, rest := InnermostCut(name, bounds);
    hide KeyLike, AlwaysSafe, Tail, RevisionTail, NonBlank;
    if number > bounds.epoch && NonBlank(rest) && !KeyLike(rest, bounds) {
      RepeatsFirst(name, before, number, rest, bounds, sha);
    } else {
      var v: nat, m: string :| IsRevision(v, m, rest) && !KeyLike(m, bounds);
      if number == 1 {
        RepeatsFileOne(name, before, v, m, bounds, sha);
      } else {
        RepeatedByFile(name, before, number, v, m, bounds, sha);
      }
    }
  }

  /** In a store of two files or more, opened at any clock reading, a name can be allowed
      besides those that are not key-like, without any run losing rows or bytes, if and only
      if it is not key-like itself. */
  lemma UploadSafeIff(name: string, bounds: Bounds, sha: Bytes -> string)
    requires NonBlank(name) && 2 <= bounds.files <= bounds.epoch
    ensures AlwaysSafe(name, bounds, sha) <==> !KeyLike(name, bounds)
  {
    if KeyLike(name, bounds) {
      KeyLikeLoses(name, bounds, sha);
    } else {
      var c := Clock(bounds, bounds.epoch);
      EmptyIsConsistent(c, sha);
      forall ops: seq<Op>, m: nat | Fair(ops, name, bounds, sha) && m <= |ops|
        ensures Grows(Run(NO_FILES, ops[..m], sha), Run(NO_FILES, ops, sha))
      {
        assert PlainOps(ops, bounds);
        hide Grows, KeyLike, Consistent, NonBlank, Run;
        HistoryIsAppendOnly(NO_FILES, ops, m, c, sha);
      }
    }
  }

  // ----- A run that loses bytes -----

  const ONE: Upload := RootUpload(1, "s", "a/2-v2-b", [], 0)
  const TWO: Upload := RootUpload(1, "s/1-v2-a", "b", [], 0)
  const SHARED: string := "e1/s/1-v2-a/2-v2-b"

  lemma SharedKey()
    ensures KeyText(Revision(1, "s", 1, 2, "a/2-v2-b")) == SHARED == KeyText(Revision(1, "s/1-v2-a", 2, 2, "b"))
  {
    hide KeyText;
    FirstFilesKey();
    SecondFilesKey();
  }

  lemma FirstFilesKey()
    ensures KeyText(Revision(1, "s", 1, 2, "a/2-v2-b")) == SHARED
  {
    SmallNumbers();
    SmallPrefixes();
    hide FormatNat, FormatInt, Prefix;
    Spelled();
  }

  lemma SecondFilesKey()
    ensures KeyText(Revision(1, "s/1-v2-a", 2, 2, "b")) == SHARED
  {
    SmallNumbers();
    SmallPrefixes();
    hide FormatNat, FormatInt, Prefix;
    Spelled();
  }

  lemma Spelled()
    ensures "e1/s" + "/" + ("1" + "-" + ("v" + "2" + "-" + "a/2-v2-b")) == SHARED
    ensures "e1/s/1-v2-a" + "/" + ("2" + "-" + ("v" + "2" + "-" + "b")) == SHARED
  {}

  lemma SmallNumbers()
    ensures FormatNat(1) == "1" == FormatInt(1) && FormatNat(2) == "2"
  {}

  lemma SmallPrefixes()
    ensures Prefix(Revision(1, "s", 1, 2, "a/2-v2-b")) == "e1/s"
    ensures Prefix(Revision(1, "s/1-v2-a", 2, 2, "b")) == "e1/s/1-v2-a"
  {
    SmallNumbers();
    hide FormatInt;
  }

  /** Four uploads under two names, of which one is key-like. */
  function Uploads(a: Bytes, b: Bytes, c: Bytes, d: Bytes): seq<Op> {
    [UploadOp(NO_FOLDERS, ONE.(body := a, stamp := 11)), UploadOp(NO_FOLDERS, TWO.(body := b, stamp := 12)),
     UploadOp(NO_FOLDERS, ONE.(body := c, stamp := 13)), UploadOp(NO_FOLDERS, TWO.(body := d, stamp := 14))]
  }

  lemma StepUpload(s: Files, u: Upload, sha: Bytes -> string)
    requires Shaped(s) && (u.scope == "s" || u.scope == "s/1-v2-a") && (u.name == "a/2-v2-b" || u.name == "b")
    ensures Step(s, UploadOp(NO_FOLDERS, u), sha) == Store(s, NO_FOLDERS, u, sha).0
  {
    StartsNonBlank(u.scope);
    StartsNonBlank(u.name);
    hide Store, Shaped;
  }

  /** After four uploads the second versions of both files have one key, and the bytes
      recorded for the first file are gone. */
  lemma NamesWithSlashLoseBytes(a: Bytes, b: Bytes, c: Bytes, d: Bytes, sha: Bytes -> string)
    requires |a| <= LIMIT && |b| <= LIMIT && |c| <= LIMIT && |d| <= LIMIT
    ensures var three, four := Run(NO_FILES, Uploads(a, b, c, d)[..3], sha), Run(NO_FILES, Uploads(a, b, c, d), sha);
            && {1, 2} <= four.versions.Keys && |four.versions[1]| == 2 && |four.versions[2]| == 2
            && four.versions[1][1].content.key == SHARED == four.versions[2][1].content.key
            && SHARED in three.data && three.data[SHARED] == c && SHARED in four.data && four.data[SHARED] == d
            && four.versions[1][1].content.sha == sha(c)
  {
    var ops := Uploads(a, b, c, d);
    assert ops[2].upload == ONE.(body := c, stamp := 13) && ops[3].upload == TWO.(body := d, stamp := 14);
    RunUnfolds(ops, sha);
    SharedKey();
    AfterTwo(a, b, c, d, sha);
    hide Uploads, Run, Step, KeyText;
    Revisions(Run(NO_FILES, ops[..2], sha), Run(NO_FILES, ops[..3], sha), Run(NO_FILES, ops, sha), c, d, sha);
  }

  /** The two files after their first uploads. */
  ghost predicate TwoFiles(s: Files) {
    && Shaped(s) && {1, 2} <= s.docs.Keys && {1, 2} <= s.versions.Keys && |s.versions[1]| == 1 && |s.versions[2]| == 1
    && s.docs[1].id == 1 && s.docs[1].version == 1 && s.docs[1].scope == "s" && SameFile(s.docs[1], 1, None, ONE.name)
    && s.docs[2].id == 2 && s.docs[2].version == 1 && s.docs[2].scope == "s/1-v2-a"
    && SameFile(s.docs[2], 1, None, TWO.name)
  }

  lemma AfterTwo(a: Bytes, b: Bytes, c: Bytes, d: Bytes, sha: Bytes -> string)
    ensures TwoFiles(Run(NO_FILES, Uploads(a, b, c, d)[..2], sha))
  {
    var ops := Uploads(a, b, c, d);
    var u1, u2 := ONE.(body := a, stamp := 11), TWO.(body := b, stamp := 12);
    assert ops[0] == UploadOp(NO_FOLDERS, u1) && ops[1] == UploadOp(NO_FOLDERS, u2);
    RunUnfolds(ops, sha);
    hide KeyText, Shaped, Run, FirstVersion, Store, Step, FileExists, Limited, Uploads;
    StepUpload(NO_FILES, u1, sha);
    StepUpload(Run(NO_FILES, ops[..1], sha), u2, sha);
    TwoNew(u1, u2, sha);
  }

  lemma TwoNew(u1: Upload, u2: Upload, sha: Bytes -> string)
    requires u1.folder.None? && u2.folder.None? && u1.name != u2.name && u1.entity == u2.entity
    ensures var s1 := Store(NO_FILES, NO_FOLDERS, u1, sha).0;
            var s2 := Store(s1, NO_FOLDERS, u2, sha).0;
            && Shaped(s2) && {1, 2} <= s2.docs.Keys && {1, 2} <= s2.versions.Keys
            && |s2.versions[1]| == 1 && |s2.versions[2]| == 1
            && s2.docs[1].id == 1 && s2.docs[1].version == 1 && s2.docs[1].scope == u1.scope
            && SameFile(s2.docs[1], u1.entity, None, u1.name)
            && s2.docs[2].id == 2 && s2.docs[2].version == 1 && s2.docs[2].scope == u2.scope
            && SameFile(s2.docs[2], u2.entity, None, u2.name)
  {
    hide KeyText, Shaped, FirstVersion, Store, FileExists, Limited;
    NothingThere(u1);
    StoreShaped(NO_FILES, NO_FOLDERS, u1, sha);
    UploadsNew(NO_FILES, u1, sha);
    FirstIs(NO_FILES, u1, sha);
    var s1 := Store(NO_FILES, NO_FOLDERS, u1, sha).0;
    OtherName(s1, u2);
    StoreShaped(s1, NO_FOLDERS, u2, sha);
    UploadsNew(s1, u2, sha);
    FirstIs(s1, u2, sha);
  }

  lemma Revisions(two: Files, three: Files, four: Files, c: Bytes, d: Bytes, sha: Bytes -> string)
    requires TwoFiles(two) && |c| <= LIMIT && |d| <= LIMIT
    requires three == Step(two, UploadOp(NO_FOLDERS, ONE.(body := c, stamp := 13)), sha)
    requires four == Step(three, UploadOp(NO_FOLDERS, TWO.(body := d, stamp := 14)), sha)
    ensures {1, 2} <= four.versions.Keys && |four.versions[1]| == 2 && |four.versions[2]| == 2
    ensures four.versions[1][1].content.key == KeyText(Revision(1, "s", 1, 2, ONE.name))
    ensures four.versions[2][1].content.key == KeyText(Revision(1, "s/1-v2-a", 2, 2, TWO.name))
    ensures four.versions[1][1].content.sha == sha(c)
    ensures three.data == two.data[KeyText(Revision(1, "s", 1, 2, ONE.name)) := c]
    ensures four.data == three.data[KeyText(Revision(1, "s/1-v2-a", 2, 2, TWO.name)) := d]
  {
    assert Limited(c) == c && Limited(d) == d;
    hide KeyText, Shaped, Append, Store, Step, Limited;
    var u3, u4 := ONE.(body := c, stamp := 13), TWO.(body := d, stamp := 14);
    StepUpload(two, u3, sha);
    UploadsAgain(two, u3, 1, sha);
    AppendIs(two, two.docs[1], Revision(1, "s", 1, 2, ONE.name), c, MimeOf(""), None, sha);
    StepUpload(three, u4, sha);
    UploadsAgain(three, u4, 2, sha);
    AppendIs(three, three.docs[2], Revision(1, "s/1-v2-a", 2, 2, TWO.name), d, MimeOf(""), None, sha);
  }

  lemma OtherName(s: Files, u: Upload)
    requires forall i :: i in s.docs ==> s.docs[i].name != u.name
    ensures !FileExists(s, u.entity, u.folder, u.name)
  {}

  lemma RunUnfolds(ops: seq<Op>, sha: Bytes -> string)
    requires |ops| == 4
    ensures Run(NO_FILES, ops[..1], sha) == Step(NO_FILES, ops[0], sha)
    ensures Run(NO_FILES, ops[..2], sha) == Step(Run(NO_FILES, ops[..1], sha), ops[1], sha)
    ensures Run(NO_FILES, ops[..3], sha) == Step(Run(NO_FILES, ops[..2], sha), ops[2], sha)
    ensures Run(NO_FILES, ops, sha) == Step(Run(NO_FILES, ops[..3], sha), ops[3], sha)
  {
    hide Step, Shaped;
    assert ops[..1][..0] == [] && ops[..2][..1] == ops[..1] && ops[..3][..2] == ops[..2];
  }

  lemma NothingThere(u: Upload)
    ensures Shaped(NO_FILES) && !FileExists(NO_FILES, u.entity, u.folder, u.name)
  {}
}
