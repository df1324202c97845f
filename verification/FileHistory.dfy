/** Versioned files (backend/internal/documentsvc/ecm.go:271-425, ecm_memory.go:84-148,
    service.go:59-94, 199-231) as values: the steps of upload and restore on the
    metadata rows and the byte store, and the history they keep. */
module FileHistory {
  import opened FolderTree
  import opened Options
  import opened Paths
  import opened StorageKeys

  type Byte = b: int | 0 <= b < 256
  type Bytes = seq<Byte>

  /** Uploads and restores read at most 64 MiB. */
  const LIMIT: nat := 0x400_0000

  function Limited(body: Bytes): Bytes {
    if |body| <= LIMIT then body else body[..LIMIT]
  }

  /** What a revision records about its bytes. */
  datatype Content = Content(key: string, mime: string, size: nat, sha: string)

  datatype Document = Document(
    id: nat, entity: int, scope: string, objectId: int, folder: Option<int>, name: string,
    content: Content, version: nat, createdBy: Option<int>)

  datatype Version = Version(id: int, fileId: int, version: nat, content: Content, createdBy: Option<int>)

  datatype Files = Files(
    docs: map<int, Document>, lastDoc: nat, versions: map<int, seq<Version>>, lastVersion: nat,
    data: map<string, Bytes>)

  /** The parts of an upload after its target folder is known. */
  datatype Upload = Upload(
    entity: int, folder: Option<int>, scope: string, objectId: int, name: string, mime: string,
    body: Bytes, createdBy: Option<int>, stamp: nat)

  const NO_FILES: Files := Files(map[], 0, map[], 0, map[])

  // ----- Steps -----

  predicate SameFile(d: Document, entity: int, folder: Option<int>, name: string) {
    d.entity == entity && d.folder == folder && d.name == name
  }

  ghost predicate FileExists(s: Files, entity: int, folder: Option<int>, name: string) {
    exists i :: i in s.docs && SameFile(s.docs[i], entity, folder, name)
  }

  ghost function FindFile(s: Files, entity: int, folder: Option<int>, name: string): (r: Option<int>)
    ensures r.Some? ==> r.value in s.docs && SameFile(s.docs[r.value], entity, folder, name)
    ensures r.None? <==> !FileExists(s, entity, folder, name)
  {
    if FileExists(s, entity, folder, name) then
      var i :| i in s.docs && SameFile(s.docs[i], entity, folder, name);
      Some(i)
    else None
  }

  function MimeOf(mime: string): string {
    if mime == "" then "application/octet-stream" else mime
  }

  /** A new file: its bytes, its row and version 1. */
  function FirstVersion(s: Files, u: Upload, sha: Bytes -> string): (Files, Document) {
    var body := Limited(u.body);
    var content := Content(KeyText(First(u.entity, u.scope, u.stamp, u.name)), MimeOf(u.mime), |body|, sha(body));
    var d := Document(s.lastDoc + 1, u.entity, u.scope, u.objectId, u.folder, u.name, content, 1, u.createdBy);
    var v := Version(s.lastVersion + 1, d.id, 1, content, u.createdBy);
    (Files(s.docs[d.id := d], d.id, s.versions[d.id := [v]], v.id, s.data[content.key := body]), d)
  }

  /** One more version of file d with the given bytes. */
  function Append(s: Files, d: Document, body: Bytes, mime: string, actor: Option<int>, sha: Bytes -> string)
      : (Files, Document)
    requires d.id in s.versions
  {
    var next := d.version + 1;
    var content := Content(KeyText(Revision(d.entity, d.scope, d.id, next, d.name)), mime, |body|, sha(body));
    var v := Version(s.lastVersion + 1, d.id, next, content, actor);
    var d' := d.(content := content, version := next);
    var t := Files(s.docs[d.id := d'], s.lastDoc, s.versions[d.id := s.versions[d.id] + [v]], v.id,
                   s.data[content.key := body]);
    (t, d')
  }

  /** Service.UploadEx from the resolved folder on (ecm.go:303-364). */
  ghost function Store(s: Files, f: Table, u: Upload, sha: Bytes -> string): (Files, Outcome<Document>)
    requires Shaped(s)
  {
    if !HasParent(f, u.entity, u.folder) then (s, Failed(NotFound))
    else
      var existing := FindFile(s, u.entity, u.folder, u.name);
      var (t, d) :=
        if existing.None? then FirstVersion(s, u, sha)
        else Append(s, s.docs[existing.value], Limited(u.body), MimeOf(u.mime), u.createdBy, sha);
      (t, Done(d))
  }

  /** The name and scope checks of UploadEx (ecm.go:281-283). */
  predicate Named(scope: string, name: string) {
    TrimSpace(name) != "" && TrimSpace(scope) != ""
  }

  /** Service.RestoreVersion (ecm.go:377-425). */
  ghost function Restore(s: Files, entity: int, id: int, version: int, actor: Option<int>, sha: Bytes -> string)
    : (Files, Outcome<Document>)
    requires Shaped(s)
  {
    if version <= 0 then (s, Failed(Validation))
    else if id !in s.docs || s.docs[id].entity != entity then (s, Failed(NotFound))
    else if version > s.docs[id].version then (s, Failed(NotFound))
    else if version == s.docs[id].version then (s, Done(s.docs[id]))
    else
      var source := s.versions[id][version - 1].content;
      var (t, d) := Append(s, s.docs[id], s.data[source.key], source.mime, actor, sha);
      (t, Done(d))
  }

  // ----- What every run keeps, whatever the files are called -----

  /** File i has version rows 1..current without gaps, each naming stored bytes, and its
      row repeats the last of them. */
  predicate FileOk(s: Files, i: int)
    requires i in s.docs && i in s.versions
  {
    var d, vs := s.docs[i], s.versions[i];
    && d.id == i && 1 <= d.version == |vs| && d.content == vs[|vs| - 1].content
    && forall k :: 0 <= k < |vs| ==> RowOk(s, i, vs[k], k + 1)
  }

  predicate RowOk(s: Files, i: int, v: Version, n: nat) {
    v.version == n && v.fileId == i && v.content.key in s.data
  }

  /** A folder holds at most one file of a name. */
  ghost predicate DistinctFiles(docs: map<int, Document>) {
    forall i, j :: i in docs && j in docs && SameFile(docs[i], docs[j].entity, docs[j].folder, docs[j].name) ==> i == j
  }

  ghost predicate Shaped(s: Files) {
    && s.versions.Keys == s.docs.Keys
    && (forall i :: i in s.docs ==> 0 < i <= s.lastDoc && FileOk(s, i))
    && DistinctFiles(s.docs)
    && (forall key :: key in s.data ==> |s.data[key]| <= LIMIT)
  }

  predicate SameIdentity(d: Document, e: Document) {
    e.(content := d.content, version := d.version) == d
  }

  /** t keeps every file and every version row of s. */
  ghost predicate RowsGrow(s: Files, t: Files) {
    && (forall i :: i in s.docs ==> i in t.docs && SameIdentity(s.docs[i], t.docs[i]))
    && (forall i :: i in s.versions ==> i in t.versions && s.versions[i] <= t.versions[i])
  }

  /** t keeps all stored bytes of s. */
  predicate BytesStay(s: Files, t: Files) {
    forall key :: key in s.data ==> key in t.data && t.data[key] == s.data[key]
  }

  lemma RowsGrowTrans(s: Files, t: Files, u: Files)
    requires RowsGrow(s, t) && RowsGrow(t, u)
    ensures RowsGrow(s, u)
  {}

  /** A file whose rows are untouched stays in order as long as no stored bytes vanish. */
  lemma FileOkKept(s: Files, t: Files, i: int)
    requires i in s.docs && i in s.versions && FileOk(s, i) && s.data.Keys <= t.data.Keys
    requires i in t.docs && i in t.versions && t.docs[i] == s.docs[i] && t.versions[i] == s.versions[i]
    ensures FileOk(t, i)
  {
    assert forall k :: 0 <= k < |t.versions[i]| ==> RowOk(s, i, t.versions[i][k], k + 1);
  }

  lemma AppendShaped(s: Files, i: int, body: Bytes, mime: string, actor: Option<int>, sha: Bytes -> string)
    requires Shaped(s) && i in s.docs && |body| <= LIMIT
    ensures var t := Append(s, s.docs[i], body, mime, actor, sha).0;
            && Shaped(t) && RowsGrow(s, t)
            && |t.versions[i]| == |s.versions[i]| + 1
            && t.data[t.docs[i].content.key] == body
  {
    var t := Append(s, s.docs[i], body, mime, actor, sha).0;
    assert FileOk(s, i);
    assert forall k :: 0 <= k < |s.versions[i]| ==> RowOk(s, i, s.versions[i][k], k + 1);
    assert FileOk(t, i);
    hide FileOk, KeyText;
    forall j | j in t.docs && j != i
      ensures FileOk(t, j)
    {
      FileOkKept(s, t, j);
    }
    assert DistinctFiles(t.docs);
  }

  lemma FirstShaped(s: Files, u: Upload, sha: Bytes -> string)
    requires Shaped(s) && !FileExists(s, u.entity, u.folder, u.name)
    ensures var (t, d) := FirstVersion(s, u, sha);
            && Shaped(t) && RowsGrow(s, t) && d.id in t.docs
            && |t.versions[d.id]| == 1 && t.data[d.content.key] == Limited(u.body)
  {
    var (t, d) := FirstVersion(s, u, sha);
    assert RowOk(t, d.id, t.versions[d.id][0], 1);
    assert FileOk(t, d.id);
    hide FileOk, KeyText;
    forall j | j in s.docs
      ensures FileOk(t, j)
    {
      FileOkKept(s, t, j);
    }
    FirstDistinct(s, u, d);
  }

  lemma FirstDistinct(s: Files, u: Upload, d: Document)
    requires DistinctFiles(s.docs) && !FileExists(s, u.entity, u.folder, u.name)
    requires d.id !in s.docs && SameFile(d, u.entity, u.folder, u.name)
    ensures DistinctFiles(s.docs[d.id := d])
  {
    assert forall i :: i in s.docs ==> !SameFile(s.docs[i], u.entity, u.folder, u.name);
  }

  /** The first 64 MiB of the upload, with their true size and hash, under the type it names. */
  predicate Uploaded(c: Content, bytes: Bytes, u: Upload, sha: Bytes -> string) {
    && bytes <= u.body && |bytes| == (if |u.body| <= 0x400_0000 then |u.body| else 0x400_0000)
    && c.size == |bytes| && c.sha == sha(bytes)
    && c.mime == (if u.mime != "" then u.mime else "application/octet-stream")
  }

  /** An upload keeps all rows and adds exactly one version, holding the uploaded bytes. */
  lemma StoreShaped(s: Files, f: Table, u: Upload, sha: Bytes -> string)
    requires Shaped(s)
    ensures var (t, r) := Store(s, f, u, sha);
            && Shaped(t) && RowsGrow(s, t)
            && (r.Failed? ==> t == s)
            && (r.Done? ==>
                 var d := r.value;
                 && d.id in t.docs && t.docs[d.id] == d
                 && d.entity == u.entity && d.folder == u.folder && d.name == u.name
                 && |t.versions[d.id]| == (if d.id in s.versions then |s.versions[d.id]| else 0) + 1
                 && d.content.key in t.data && Uploaded(d.content, t.data[d.content.key], u, sha))
  {
    var existing := FindFile(s, u.entity, u.folder, u.name);
    hide KeyText;
    if existing.None? {
      FirstShaped(s, u, sha);
    } else {
      AppendShaped(s, existing.value, Limited(u.body), MimeOf(u.mime), u.createdBy, sha);
    }
  }

  /** An upload fails only for a folder that does not exist in the entity. A new file is recorded
      as asked for; a further version keeps the file as it is, and its author is noted. */
  lemma StoreRecords(s: Files, f: Table, u: Upload, sha: Bytes -> string)
    requires Shaped(s)
    ensures var (t, r) := Store(s, f, u, sha);
            && (r.Done? <==> (u.folder.Some? ==> u.folder.value in f && f[u.folder.value].entity == u.entity))
            && (r.Done? ==>
                 var d := r.value;
                 && (d.id !in s.docs ==>
                       && d.scope == u.scope && d.objectId == u.objectId && d.createdBy == u.createdBy
                       && d.content.key == KeyText(First(u.entity, u.scope, u.stamp, u.name)))
                 && (d.id in s.docs ==>
                       && d == s.docs[d.id].(content := d.content, version := s.docs[d.id].version + 1)
                       && d.content.key == KeyText(Revision(d.entity, d.scope, d.id, d.version, d.name)))
                 && d.id in t.versions && t.versions[d.id] != []
                 && t.versions[d.id][|t.versions[d.id]| - 1].createdBy == u.createdBy)
  {
    var existing := FindFile(s, u.entity, u.folder, u.name);
    assert existing.Some? ==> FileOk(s, existing.value);
    hide KeyText, Limited, DistinctFiles, RowOk;
  }

  /** A restore succeeds exactly for versions 1..current; it appends one version with the
      bytes now stored for version k, or changes nothing for the current one. */
  lemma RestoreShaped(s: Files, entity: int, id: int, version: int, actor: Option<int>, sha: Bytes -> string)
    requires Shaped(s)
    ensures var (t, r) := Restore(s, entity, id, version, actor, sha);
            && Shaped(t) && RowsGrow(s, t)
            && (r.Done? <==> id in s.docs && s.docs[id].entity == entity && 1 <= version <= s.docs[id].version)
            && (r.Failed? || version == s.docs[id].version ==> t == s)
            && (r.Done? && version < s.docs[id].version ==>
                 var before, after := s.versions[id][version - 1], t.versions[id];
                 var last := after[|after| - 1].content;
                 && |after| == |s.versions[id]| + 1
                 && last.key in t.data && t.data[last.key] == s.data[before.content.key]
                 && last.mime == before.content.mime && last.size == |t.data[last.key]|
                 && last.sha == sha(t.data[last.key]) && after[|after| - 1].createdBy == actor
                 && t.docs == s.docs[id := s.docs[id].(content := last, version := s.docs[id].version + 1)])
  {
    if version > 0 && id in s.docs && s.docs[id].entity == entity && version < s.docs[id].version {
      var v := s.versions[id][version - 1];
      assert FileOk(s, id) && RowOk(s, id, v, version);
      AppendShaped(s, id, s.data[v.content.key], v.content.mime, actor, sha);
    }
  }

  // ----- What runs keep if no name looks like a key -----

  /** The bounds of the store, and the latest clock reading used. */
  datatype Clock = Clock(bounds: Bounds, latest: nat)

  /** There are no more files than nanoseconds had passed since 1970 when the store was opened. */
  predicate Runs(c: Clock) {
    c.bounds.files <= c.bounds.epoch <= c.latest
  }

  /** The parts from which the key of file d's version n was formatted. */
  ghost predicate KeyOf(d: Document, n: nat, key: string, k: Parts, c: Clock) {
    && key == KeyText(k) && WellFormed(k, c.bounds) && k.name == d.name
    && if n == 1 then k.First? && k.stamp <= c.latest else k == Revision(d.entity, d.scope, d.id, n, d.name)
  }

  ghost predicate HasKey(d: Document, n: nat, key: string, c: Clock) {
    exists k :: KeyOf(d, n, key, k, c)
  }

  /** The bytes recorded by the row are the ones stored. */
  predicate Stored(data: map<string, Bytes>, c: Content, sha: Bytes -> string) {
    c.key in data && |data[c.key]| == c.size && sha(data[c.key]) == c.sha
  }

  ghost predicate VersionOk(s: Files, d: Document, v: Version, n: nat, c: Clock, sha: Bytes -> string) {
    HasKey(d, n, v.content.key, c) && Stored(s.data, v.content, sha)
  }

  ghost predicate VersionsOk(s: Files, i: int, c: Clock, sha: Bytes -> string)
    requires i in s.docs && i in s.versions
  {
    && NonBlank(s.docs[i].name) && !KeyLike(s.docs[i].name, c.bounds)
    && forall k :: 0 <= k < |s.versions[i]| ==> VersionOk(s, s.docs[i], s.versions[i][k], k + 1, c, sha)
  }

  /** The key is that of version k of file i. */
  predicate Owns(s: Files, i: int, k: nat, key: string) {
    i in s.versions && k < |s.versions[i]| && s.versions[i][k].content.key == key
  }

  ghost predicate Owned(s: Files, key: string) {
    exists i: int, k: nat :: Owns(s, i, k, key)
  }

  /** Every version's bytes are those it records, and nothing else is stored. */
  ghost predicate Consistent(s: Files, c: Clock, sha: Bytes -> string) {
    && Shaped(s) && Runs(c) && s.lastDoc <= c.bounds.files
    && (forall i :: i in s.docs ==> VersionsOk(s, i, c, sha))
    && (forall key :: key in s.data ==> Owned(s, key))
  }

  /** t keeps every file, version row and stored byte of s. */
  ghost predicate Grows(s: Files, t: Files) {
    RowsGrow(s, t) && BytesStay(s, t)
  }

  /** A key whose parts differ from those of every version is not in use. */
  lemma FreshKey(s: Files, c: Clock, k: Parts, sha: Bytes -> string)
    requires Consistent(s, c, sha) && WellFormed(k, c.bounds) && !KeyLike(k.name, c.bounds)
    requires k.First? ==> k.stamp > c.latest
    requires k.Revision? ==> k.id in s.docs ==> k.version > s.docs[k.id].version
    ensures KeyText(k) !in s.data
  {
    hide KeyText, KeyLike, NonBlank, DistinctFiles, Stored, WellFormed;
    if KeyText(k) in s.data {
      assert Owned(s, KeyText(k));
      var i: int, n: nat :| Owns(s, i, n, KeyText(k));
      assert FileOk(s, i) && VersionsOk(s, i, c, sha);
      assert VersionOk(s, s.docs[i], s.versions[i][n], n + 1, c, sha);
      var j :| KeyOf(s.docs[i], n + 1, KeyText(k), j, c);
      KeysInjective(j, k, c.bounds);
    }
  }

  lemma VersionsOkKept(s: Files, t: Files, i: int, c: Clock, c': Clock, sha: Bytes -> string)
    requires i in s.docs && i in s.versions && VersionsOk(s, i, c, sha) && BytesStay(s, t)
    requires c'.bounds == c.bounds && c'.latest >= c.latest
    requires i in t.docs && i in t.versions && SameIdentity(s.docs[i], t.docs[i]) && t.versions[i] == s.versions[i]
    ensures VersionsOk(t, i, c', sha)
  {
    hide KeyText, KeyLike, WellFormed;
    forall k | 0 <= k < |t.versions[i]|
      ensures VersionOk(t, t.docs[i], t.versions[i][k], k + 1, c', sha)
    {
      assert VersionOk(s, s.docs[i], s.versions[i][k], k + 1, c, sha);
      KeyKept(s.docs[i], t.docs[i], k + 1, s.versions[i][k].content.key, c, c');
    }
  }

  lemma KeyKept(d: Document, e: Document, n: nat, key: string, c: Clock, c': Clock)
    requires HasKey(d, n, key, c) && SameIdentity(d, e) && c'.bounds == c.bounds && c'.latest >= c.latest
    ensures HasKey(e, n, key, c')
  {
    hide KeyText, WellFormed;
    var k :| KeyOf(d, n, key, k, c);
    assert KeyOf(e, n, key, k, c');
  }

  lemma OwnedKept(s: Files, t: Files, key: string)
    requires Owned(s, key) && RowsGrow(s, t)
    ensures Owned(t, key)
  {
    var i: int, k: nat :| Owns(s, i, k, key);
    assert Owns(t, i, k, key);
  }

  /** One more version of one file, under a key not used before. */
  lemma ExtendKeeps(s: Files, t: Files, i: int, k: Parts, c: Clock, c': Clock, sha: Bytes -> string)
    requires Consistent(s, c, sha) && Shaped(t) && RowsGrow(s, t)
    requires c'.bounds == c.bounds && c'.latest >= c.latest && t.lastDoc <= c.bounds.files
    requires i in t.docs && t.docs.Keys == s.docs.Keys + {i}
    requires NonBlank(t.docs[i].name) && !KeyLike(t.docs[i].name, c.bounds)
    requires forall j :: j in s.docs && j != i ==> t.docs[j] == s.docs[j] && t.versions[j] == s.versions[j]
    requires var before := if i in s.docs then s.versions[i] else [];
             && |t.versions[i]| == |before| + 1 && before <= t.versions[i]
    requires var last := t.versions[i][|t.versions[i]| - 1].content;
             && KeyText(k) !in s.data && last.key == KeyText(k) && KeyOf(t.docs[i], |t.versions[i]|, last.key, k, c')
             && last.key in t.data && t.data == s.data[last.key := t.data[last.key]] && Stored(t.data, last, sha)
    ensures Consistent(t, c', sha) && Grows(s, t)
  {
    hide KeyText, KeyLike, WellFormed, Shaped, NonBlank;
    ShapedKeys(s);
    ShapedKeys(t);
    var vs := t.versions[i];
    assert BytesStay(s, t);
    assert HasKey(t.docs[i], |vs|, vs[|vs| - 1].content.key, c');
    forall n | 0 <= n < |vs|
      ensures VersionOk(t, t.docs[i], vs[n], n + 1, c', sha)
    {
      if n < |vs| - 1 {
        assert vs[n] == s.versions[i][n] && VersionsOk(s, i, c, sha);
        assert VersionOk(s, s.docs[i], s.versions[i][n], n + 1, c, sha);
        KeyKept(s.docs[i], t.docs[i], n + 1, vs[n].content.key, c, c');
      }
    }
    forall j | j in t.docs && j != i
      ensures VersionsOk(t, j, c', sha)
    {
      VersionsOkKept(s, t, j, c, c', sha);
    }
    forall key | key in t.data
      ensures Owned(t, key)
    {
      if key in s.data {
        OwnedKept(s, t, key);
      } else {
        assert Owns(t, i, |vs| - 1, key);
      }
    }
  }

  lemma ShapedKeys(s: Files)
    requires Shaped(s)
    ensures s.versions.Keys == s.docs.Keys
  {}

  lemma AppendIs(
    s: Files, d: Document, k: Parts, body: Bytes, mime: string, actor: Option<int>, sha: Bytes -> string)
    requires d.id in s.versions && d.id in s.docs && k == Revision(d.entity, d.scope, d.id, d.version + 1, d.name)
    ensures var t := Append(s, d, body, mime, actor, sha).0;
            var content := Content(KeyText(k), mime, |body|, sha(body));
            var v := Version(s.lastVersion + 1, d.id, d.version + 1, content, actor);
            && t.docs == s.docs[d.id := d.(content := content, version := d.version + 1)] && t.lastDoc == s.lastDoc
            && t.versions == s.versions[d.id := s.versions[d.id] + [v]]
            && t.data == s.data[KeyText(k) := body]
  {
    hide KeyText;
  }

  lemma AppendKeeps(
    s: Files, i: int, body: Bytes, mime: string, actor: Option<int>, c: Clock, c': Clock, sha: Bytes -> string)
    requires Consistent(s, c, sha) && i in s.docs && |body| <= LIMIT && c'.bounds == c.bounds && c'.latest >= c.latest
    ensures var t := Append(s, s.docs[i], body, mime, actor, sha).0;
            Consistent(t, c', sha) && Grows(s, t)
  {
    hide KeyText, KeyLike, RowsGrow, Owned, DistinctFiles, VersionOk;
    var d := s.docs[i];
    var t := Append(s, d, body, mime, actor, sha).0;
    var k := Revision(d.entity, d.scope, d.id, d.version + 1, d.name);
    assert FileOk(s, i) && VersionsOk(s, i, c, sha);
    AppendShaped(s, i, body, mime, actor, sha);
    FreshKey(s, c, k, sha);
    AppendIs(s, d, k, body, mime, actor, sha);
    assert WellFormed(k, c'.bounds);
    hide Append, WellFormed, Shaped, NonBlank, VersionsOk, FileOk, Consistent;
    ExtendKeeps(s, t, i, k, c, c', sha);
  }

  lemma FirstKeeps(s: Files, u: Upload, c: Clock, sha: Bytes -> string)
    requires Consistent(s, c, sha) && !FileExists(s, u.entity, u.folder, u.name)
    requires InTime(c, u) && s.lastDoc < c.bounds.files && NonBlank(u.name) && !KeyLike(u.name, c.bounds)
    ensures var t := FirstVersion(s, u, sha).0;
            Consistent(t, Clock(c.bounds, u.stamp), sha) && Grows(s, t)
  {
    var (t, d) := FirstVersion(s, u, sha);
    var k := First(u.entity, u.scope, u.stamp, u.name);
    FirstShaped(s, u, sha);
    FreshKey(s, c, k, sha);
    assert d.id !in s.docs;
    assert KeyOf(d, 1, KeyText(k), k, Clock(c.bounds, u.stamp));
    hide KeyText, KeyLike, WellFormed, Shaped, NonBlank, VersionsOk, FileOk, Consistent, RowsGrow, Owned;
    ExtendKeeps(s, t, d.id, k, c, Clock(c.bounds, u.stamp), sha);
  }

  /** The clock has moved on since the last upload. */
  predicate InTime(c: Clock, u: Upload) {
    c.latest < u.stamp
  }

  /** An upload under a name that is not key-like keeps all history and bytes, and adds
      exactly one version, holding the uploaded bytes. */
  lemma StoreKeeps(s: Files, f: Table, u: Upload, c: Clock, sha: Bytes -> string)
    requires Consistent(s, c, sha) && InTime(c, u) && NonBlank(u.name) && !KeyLike(u.name, c.bounds)
    requires Store(s, f, u, sha).0.lastDoc <= c.bounds.files
    ensures var (t, r) := Store(s, f, u, sha);
            && Consistent(t, Clock(c.bounds, u.stamp), sha) && Grows(s, t)
            && (r.Failed? ==> t == s)
            && (r.Done? ==>
                 var d := r.value;
                 && d.id in t.docs && t.docs[d.id] == d && SameFile(d, u.entity, u.folder, u.name)
                 && |t.versions[d.id]| == (if d.id in s.versions then |s.versions[d.id]| else 0) + 1
                 && t.data[d.content.key] == Limited(u.body))
  {
    StoreShaped(s, f, u, sha);
    hide Store, Consistent, Grows, KeyLike, NonBlank, InTime;
    StoreGrows(s, f, u, c, sha);
  }

  lemma StoreIs(s: Files, f: Table, u: Upload, sha: Bytes -> string)
    requires Shaped(s)
    ensures var t, existing := Store(s, f, u, sha).0, FindFile(s, u.entity, u.folder, u.name);
            if !HasParent(f, u.entity, u.folder) then t == s
            else if existing.None? then t == FirstVersion(s, u, sha).0
            else t == Append(s, s.docs[existing.value], Limited(u.body), MimeOf(u.mime), u.createdBy, sha).0
  {
    hide FirstVersion, Append, FileExists;
  }

  lemma StoreGrows(s: Files, f: Table, u: Upload, c: Clock, sha: Bytes -> string)
    requires Consistent(s, c, sha) && InTime(c, u) && NonBlank(u.name) && !KeyLike(u.name, c.bounds)
    requires Store(s, f, u, sha).0.lastDoc <= c.bounds.files
    ensures var t := Store(s, f, u, sha).0; Consistent(t, Clock(c.bounds, u.stamp), sha) && Grows(s, t)
  {
    assert Shaped(s) && c.latest <= u.stamp;
    hide KeyLike, FirstVersion, Append, NonBlank, Grows, Shaped, Consistent, FileExists, InTime, Store, HasParent;
    StoreIs(s, f, u, sha);
    var existing := FindFile(s, u.entity, u.folder, u.name);
    if !HasParent(f, u.entity, u.folder) {
      Later(s, c, Clock(c.bounds, u.stamp), sha);
      GrowsSelf(s);
    } else if existing.None? {
      FirstKeeps(s, u, c, sha);
    } else {
      AppendKeeps(s, existing.value, Limited(u.body), MimeOf(u.mime), u.createdBy, c, Clock(c.bounds, u.stamp), sha);
    }
  }

  lemma GrowsSelf(s: Files)
    ensures Grows(s, s)
  {}

  lemma Later(s: Files, c: Clock, c': Clock, sha: Bytes -> string)
    requires Consistent(s, c, sha) && c'.bounds == c.bounds && c'.latest >= c.latest
    ensures Consistent(s, c', sha)
  {
    hide KeyText, KeyLike, WellFormed, NonBlank;
    forall i | i in s.docs
      ensures VersionsOk(s, i, c', sha)
    {
      VersionsOkKept(s, s, i, c, c', sha);
    }
  }

  /** Restoring version k keeps all history and bytes and appends one version with k's
      bytes, type, size and hash; restoring the current version changes nothing. */
  lemma RestoreKeeps(s: Files, entity: int, id: int, version: int, actor: Option<int>, c: Clock, sha: Bytes -> string)
    requires Consistent(s, c, sha)
    ensures var (t, r) := Restore(s, entity, id, version, actor, sha);
            && Consistent(t, c, sha) && Grows(s, t)
            && (r.Done? <==> id in s.docs && s.docs[id].entity == entity && 1 <= version <= s.docs[id].version)
            && (r.Failed? || version == s.docs[id].version ==> t == s)
            && (r.Done? && version < s.docs[id].version ==>
                 var before, after := s.versions[id][version - 1].content, t.versions[id];
                 var last := after[|after| - 1].content;
                 && |after| == |s.versions[id]| + 1
                 && last.key in t.data && t.data[last.key] == s.data[before.key]
                 && last == before.(key := last.key))
  {
    RestoreShaped(s, entity, id, version, actor, sha);
    GrowsSelf(s);
    if version > 0 && id in s.docs && s.docs[id].entity == entity && version < s.docs[id].version {
      var v := s.versions[id][version - 1];
      assert FileOk(s, id) && RowOk(s, id, v, version);
      assert VersionsOk(s, id, c, sha) && VersionOk(s, s.docs[id], v, version, c, sha);
      hide KeyText, KeyLike, WellFormed, NonBlank, Grows, Consistent;
      AppendKeeps(s, id, s.data[v.content.key], v.content.mime, actor, c, c, sha);
    }
  }

  // ----- Runs -----

  datatype Op =
    | UploadOp(folders: Table, upload: Upload)
    | RestoreOp(entity: int, id: int, version: int, actor: Option<int>)

  ghost function Step(s: Files, op: Op, sha: Bytes -> string): (t: Files)
    requires Shaped(s)
    ensures Shaped(t) && RowsGrow(s, t)
  {
    match op
    case UploadOp(f, u) =>
      StoreShaped(s, f, u, sha);
      if Named(u.scope, u.name) then Store(s, f, u, sha).0 else s
    case RestoreOp(entity, id, version, actor) =>
      RestoreShaped(s, entity, id, version, actor, sha);
      Restore(s, entity, id, version, actor, sha).0
  }

  ghost function Run(s: Files, ops: seq<Op>, sha: Bytes -> string): (t: Files)
    requires Shaped(s)
    ensures Shaped(t)
  {
    if ops == [] then s else Step(Run(s, ops[..|ops| - 1], sha), ops[|ops| - 1], sha)
  }

  /** In every run, under whatever names, each file has versions 1..current and its row
      equals the last one, and no version row recorded earlier is missing or different later. */
  lemma {:induction false} RowsAreAppendOnly(s: Files, ops: seq<Op>, m: nat, sha: Bytes -> string)
    requires Shaped(s) && m <= |ops|
    ensures Shaped(Run(s, ops, sha)) && RowsGrow(Run(s, ops[..m], sha), Run(s, ops, sha))
  {
    hide Step, Shaped;
    if m < |ops| {
      var shorter := ops[..|ops| - 1];
      assert shorter[..m] == ops[..m];
      RowsAreAppendOnly(s, shorter, m, sha);
      RowsGrowTrans(Run(s, ops[..m], sha), Run(s, shorter, sha), Run(s, ops, sha));
    } else {
      assert ops[..m] == ops;
    }
  }

  /** The clock after the run. */
  function After(c: Clock, ops: seq<Op>): Clock {
    if ops == [] then c
    else
      var before, op := After(c, ops[..|ops| - 1]), ops[|ops| - 1];
      if op.UploadOp? then Clock(c.bounds, op.upload.stamp) else before
  }

  /** Each upload has a later clock reading than the one before. */
  predicate Rising(c: Clock, ops: seq<Op>) {
    ops == [] ||
    var op := ops[|ops| - 1];
    Rising(c, ops[..|ops| - 1]) && (op.UploadOp? ==> After(c, ops[..|ops| - 1]).latest < op.upload.stamp)
  }

  /** No name is key-like. */
  ghost predicate PlainOps(ops: seq<Op>, bounds: Bounds) {
    forall i :: 0 <= i < |ops| && ops[i].UploadOp? ==> !KeyLike(ops[i].upload.name, bounds)
  }

  lemma StepKeeps(s: Files, op: Op, c: Clock, sha: Bytes -> string)
    requires Consistent(s, c, sha)
    requires op.UploadOp? ==> InTime(c, op.upload) && !KeyLike(op.upload.name, c.bounds)
    requires Step(s, op, sha).lastDoc <= c.bounds.files
    ensures var t, c' := Step(s, op, sha), if op.UploadOp? then Clock(c.bounds, op.upload.stamp) else c;
            Consistent(t, c', sha) && Grows(s, t)
  {
    GrowsSelf(s);
    hide KeyText, KeyLike, WellFormed, Grows, Consistent;
    match op
    case UploadOp(f, u) =>
      if Named(u.scope, u.name) {
        StoreKeeps(s, f, u, c, sha);
      } else {
        Later(s, c, Clock(c.bounds, u.stamp), sha);
      }
    case RestoreOp(entity, id, version, actor) => RestoreKeeps(s, entity, id, version, actor, c, sha);
  }

  lemma FilesGrow(s: Files, op: Op, sha: Bytes -> string)
    requires Shaped(s)
    ensures s.lastDoc <= Step(s, op, sha).lastDoc
  {
    hide KeyText, Shaped;
  }

  lemma {:induction false} RunKeeps(s: Files, ops: seq<Op>, c: Clock, sha: Bytes -> string)
    requires Consistent(s, c, sha) && Rising(c, ops) && PlainOps(ops, c.bounds)
    requires Run(s, ops, sha).lastDoc <= c.bounds.files
    ensures Consistent(Run(s, ops, sha), After(c, ops), sha) && After(c, ops).bounds == c.bounds
  {
    if ops != [] {
      LastStepKeeps(s, ops, c, sha);
    }
  }

  lemma {:induction false} LastStepKeeps(s: Files, ops: seq<Op>, c: Clock, sha: Bytes -> string)
    requires ops != [] && Consistent(s, c, sha) && Rising(c, ops) && PlainOps(ops, c.bounds)
    requires Run(s, ops, sha).lastDoc <= c.bounds.files
    ensures Run(s, ops[..|ops| - 1], sha).lastDoc <= c.bounds.files && PlainOps(ops[..|ops| - 1], c.bounds)
    ensures Consistent(Run(s, ops, sha), After(c, ops), sha) && After(c, ops).bounds == c.bounds
    ensures Grows(Run(s, ops[..|ops| - 1], sha), Run(s, ops, sha))
    decreases |ops|, 0
  {
    var shorter := ops[..|ops| - 1];
    hide Step, Consistent, KeyLike, Grows;
    FilesGrow(Run(s, shorter, sha), ops[|ops| - 1], sha);
    if shorter != [] {
      LastStepKeeps(s, shorter, c, sha);
    }
    StepKeeps(Run(s, shorter, sha), ops[|ops| - 1], After(c, shorter), sha);
  }

  /** In every run whose names are not key-like each state is consistent, and no version
      row and no stored byte of an earlier state is missing or different in a later one. */
  lemma {:induction false} HistoryIsAppendOnly(s: Files, ops: seq<Op>, m: nat, c: Clock, sha: Bytes -> string)
    requires Consistent(s, c, sha) && Rising(c, ops) && PlainOps(ops, c.bounds) && m <= |ops|
    requires Run(s, ops, sha).lastDoc <= c.bounds.files
    ensures Consistent(Run(s, ops, sha), After(c, ops), sha)
    ensures Grows(Run(s, ops[..m], sha), Run(s, ops, sha))
  {
    RunKeeps(s, ops, c, sha);
    hide Step, Consistent, KeyLike, Grows;
    if m < |ops| {
      var shorter := ops[..|ops| - 1];
      assert shorter[..m] == ops[..m];
      LastStepKeeps(s, ops, c, sha);
      HistoryIsAppendOnly(s, shorter, m, c, sha);
      GrowsTrans(Run(s, ops[..m], sha), Run(s, shorter, sha), Run(s, ops, sha));
    } else {
      assert ops[..m] == ops;
      GrowsSelf(Run(s, ops, sha));
    }
  }

  lemma GrowsTrans(s: Files, t: Files, u: Files)
    requires Grows(s, t) && Grows(t, u)
    ensures Grows(s, u)
  {
    RowsGrowTrans(s, t, u);
  }

  lemma EmptyIsConsistent(c: Clock, sha: Bytes -> string)
    requires Runs(c)
    ensures Consistent(NO_FILES, c, sha) && NO_FILES.lastDoc == 0 && NO_FILES.docs == map[]
  {}

  /** The same from the empty store, where names without a slash meet the condition: the
      upload handler passes on a file's base name. */
  lemma BaseNamesKeepHistory(ops: seq<Op>, m: nat, c: Clock, sha: Bytes -> string)
    requires Runs(c) && Rising(c, ops) && m <= |ops| && Run(NO_FILES, ops, sha).lastDoc <= c.bounds.files
    requires forall i :: 0 <= i < |ops| && ops[i].UploadOp? ==> '/' !in ops[i].upload.name
    ensures Consistent(Run(NO_FILES, ops, sha), After(c, ops), sha)
    ensures Grows(Run(NO_FILES, ops[..m], sha), Run(NO_FILES, ops, sha))
  {
    EmptyIsConsistent(c, sha);
    forall i | 0 <= i < |ops| && ops[i].UploadOp?
      ensures !KeyLike(ops[i].upload.name, c.bounds)
    {
      NotKeyLike(ops[i].upload.name, c.bounds);
    }
    hide Consistent, Grows, KeyLike;
    HistoryIsAppendOnly(NO_FILES, ops, m, c, sha);
  }
}
