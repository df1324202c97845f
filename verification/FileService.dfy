/** Upload and restore over the in-memory stores
    (backend/internal/documentsvc/ecm.go:273-425, ecm_memory.go:84-148, service.go:59-94,
    199-231), updated in place and proved against the steps of `FileHistory`. */
module FileService {
  import opened FileHistory
  import FolderStore
  import opened FolderTree
  import opened Options
  import opened Paths
  import opened StorageKeys
  import Sets

  /** The outcome of looking up an automatic filing rule; a rule comes with its rendered path. */
  datatype Filing = NoAutoFile | NoRule | Rule(path: string)

  /** Which folder an upload goes to (ecm.go:284-302): an explicit path wins over the
      filing rule, which wins over the folder id. */
  ghost function Resolve(tree: State, entity: int, folder: Option<int>, path: string, filing: Filing)
    : (State, Outcome<Option<int>>)
  {
    if path != "" then EnsurePath(tree, entity, path)
    else
      match filing
      case NoAutoFile => (tree, Done(folder))
      case NoRule => (tree, Failed(Validation))
      case Rule(rendered) => EnsurePath(tree, entity, rendered)
  }

  /** The path an upload asks for: its own, or else that of the filing rule. */
  function AskedPath(path: string, filing: Filing): Option<string> {
    if path != "" then Some(path) else if filing.Rule? then Some(filing.path) else None
  }

  /** Where an upload lands. Its own path wins over the filing rule's, and either over the folder
      id; the folder's path is then the canonical text of the one asked for. */
  lemma UploadLands(tree: State, s: Files, u: Upload, folder: Option<int>, path: string, filing: Filing,
                    sha: Bytes -> string)
    requires Valid(tree) && Shaped(s)
    requires Resolve(tree, u.entity, folder, path, filing).1 == Done(u.folder)
    requires Store(s, Resolve(tree, u.entity, folder, path, filing).0.folders, u, sha).1.Done?
    ensures var forest := Resolve(tree, u.entity, folder, path, filing).0;
            var d, asked := Store(s, forest.folders, u, sha).1.value, AskedPath(path, filing);
            && Valid(forest) && Extends(tree.folders, forest.folders) && d.entity == u.entity && d.name == u.name
            && (if asked.None? then
                  && filing.NoAutoFile? && forest == tree && d.folder == folder
                  && (folder.Some? ==>
                        folder.value in tree.folders && tree.folders[folder.value].entity == u.entity)
                else
                  var segs := PathSegments(asked.value);
                  && segs.Done? && (segs.value == [] <==> d.folder.None?)
                  && (d.folder.Some? && |segs.value| <= 256 ==>
                        FolderPath(forest, u.entity, d.folder.value) == Done(PathText(segs.value))))
  {
    var forest := Resolve(tree, u.entity, folder, path, filing).0;
    var asked := AskedPath(path, filing);
    StoreShaped(s, forest.folders, u, sha);
    if asked.Some? && PathSegments(asked.value).Done? {
      PathOfEnsured(tree, u.entity, asked.value, PathSegments(asked.value).value);
    }
    assert Store(s, forest.folders, u, sha).1.Done? ==> HasParent(forest.folders, u.entity, u.folder);
    hide PathSegments, Store, Shaped, Valid, FolderPath;
  }

  /** An upload is refused before anything is stored if its path is bad, or if it is to be filed
      by a rule and there is none. */
  lemma RefusedUpload(tree: State, entity: int, folder: Option<int>, path: string, filing: Filing)
    requires Valid(tree)
    ensures var (forest, r), asked := Resolve(tree, entity, folder, path, filing), AskedPath(path, filing);
            && (r.Failed? <==> if asked.Some? then PathSegments(asked.value).Failed? else filing.NoRule?)
            && (r.Failed? ==> forest == tree)
  {
    var asked := AskedPath(path, filing);
    if asked.Some? && PathSegments(asked.value).Done? {
      PathOfEnsured(tree, entity, asked.value, PathSegments(asked.value).value);
    }
    hide PathSegments, Valid;
  }

  /** The scan of FindByFolderName over all documents, in any order. */
  method FindByFolderName(docs: map<int, Document>, entity: int, folder: Option<int>, name: string)
      returns (r: Option<int>)
    ensures r.Some? ==> r.value in docs && SameFile(docs[r.value], entity, folder, name)
    ensures r.None? ==> forall i :: i in docs ==> !SameFile(docs[i], entity, folder, name)
  {
    var ids := docs.Keys;
    while ids != {}
      invariant ids <= docs.Keys
      invariant forall i :: i in docs && i !in ids ==> !SameFile(docs[i], entity, folder, name)
      decreases ids
    {
      Sets.NonEmpty(ids);
      var i :| i in ids;
      ids := ids - {i};
      if SameFile(docs[i], entity, folder, name) {
        return Some(i);
      }
    }
    r := None;
  }

  /** The scan of VersionByNumber and of CreateVersion's duplicate check. */
  method FindVersion(vs: seq<Version>, version: int) returns (r: Option<Version>)
    ensures r.Some? ==> r.value in vs && r.value.version == version
    ensures r.None? ==> forall k :: 0 <= k < |vs| ==> vs[k].version != version
  {
    for k := 0 to |vs|
      invariant forall j :: 0 <= j < k ==> vs[j].version != version
    {
      if vs[k].version == version {
        return Some(vs[k]);
      }
    }
    r := None;
  }

  lemma FindFileUnique(s: Files, entity: int, folder: Option<int>, name: string, i: int)
    requires DistinctFiles(s.docs) && i in s.docs && SameFile(s.docs[i], entity, folder, name)
    ensures FindFile(s, entity, folder, name) == Some(i)
  {}

  class Service {
    const tree: FolderStore.Store
    const sha: Bytes -> string
    var docs: map<int, Document>
    var lastDoc: nat
    var versions: map<int, seq<Version>>
    var lastVersion: nat
    var data: map<string, Bytes>

    ghost function Abs(): Files
      reads this
    {
      Files(docs, lastDoc, versions, lastVersion, data)
    }

    ghost predicate Good()
      reads this, tree
    {
      tree.Good() && Shaped(Abs())
    }

    constructor (tree: FolderStore.Store, sha: Bytes -> string)
      requires tree.Good()
      ensures Good() && Abs() == NO_FILES && this.tree == tree && this.sha == sha
    {
      this.tree, this.sha := tree, sha;
      docs, lastDoc, versions, lastVersion, data := map[], 0, map[], 0, map[];
    }

    /** MemoryStore.CreateVersion: refuses a version number the file already has. */
    method CreateVersion(fileId: int, version: nat, content: Content, createdBy: Option<int>) returns (r: Outcome<()>)
      modifies this`versions, this`lastVersion
      ensures var before := if fileId in old(versions) then old(versions)[fileId] else [];
              if exists k :: 0 <= k < |before| && before[k].version == version then
                r == Failed(Conflict) && versions == old(versions) && lastVersion == old(lastVersion)
              else
                && r == Done(()) && lastVersion == old(lastVersion) + 1
                && versions
                   == old(versions)[fileId := before + [Version(lastVersion, fileId, version, content, createdBy)]]
    {
      var before := if fileId in versions then versions[fileId] else [];
      var duplicate := FindVersion(before, version);
      if duplicate.Some? {
        return Failed(Conflict);
      }
      lastVersion := lastVersion + 1;
      versions := versions[fileId := before + [Version(lastVersion, fileId, version, content, createdBy)]];
      r := Done(());
    }

    /** Writing the next version of a file: bytes, version row, then the file row. */
    method AppendVersion(d: Document, body: Bytes, mime: string, actor: Option<int>) returns (r: Outcome<Document>)
      requires Good() && d.id in docs && docs[d.id] == d
      modifies this
      ensures var (t, e) := Append(old(Abs()), d, body, mime, actor, sha); Abs() == t && r == Done(e)
    {
      assert FileOk(Abs(), d.id);
      assert forall k :: 0 <= k < |versions[d.id]| ==> RowOk(Abs(), d.id, versions[d.id][k], k + 1);
      hide KeyText, Shaped, FileOk, FolderTree.Valid;
      var next := d.version + 1;
      var key := KeyText(Revision(d.entity, d.scope, d.id, next, d.name));
      data := data[key := body];
      var content := Content(key, mime, |body|, sha(body));
      var created := CreateVersion(d.id, next, content, actor);
      assert created.Done?;  // the history ends at d.version
      var e := d.(content := content, version := next);
      docs := docs[d.id := e];
      r := Done(e);
    }

    /** Service.UploadEx. `stamp` is the clock reading in a new file's storage key. */
    method UploadEx(entity: int, scope: string, objectId: int, name: string, mime: string, body: Bytes,
                    actor: Option<int>, folderId: Option<int>, folderPath: string, filing: Filing, stamp: nat)
      returns (r: Outcome<Document>)
      requires Good()
      modifies this, tree
      ensures tree.Good()
      ensures if TrimSpace(name) == "" || TrimSpace(scope) == "" then
                r == Failed(Validation) && Abs() == old(Abs()) && tree.Abs() == old(tree.Abs())
              else
                var (forest, folder) := Resolve(old(tree.Abs()), entity, folderId, folderPath, filing);
                && tree.Abs() == forest
                && (if folder.Failed? then r == Failed(folder.error) && Abs() == old(Abs())
                    else
                      var u := Upload(entity, folder.value, scope, objectId, name, mime, body, actor, stamp);
                      (Abs(), r) == Store(old(Abs()), forest.folders, u, sha))
      ensures Good()
    {
      var content := Limited(body);
      if TrimSpace(name) == "" || TrimSpace(scope) == "" {
        return Failed(Validation);
      }
      var folder := folderId;
      if folderPath != "" {
        var ensured := tree.EnsureFolderPath(entity, folderPath);
        if ensured.Failed? {
          return Failed(ensured.error);
        }
        folder := ensured.value;
      } else if filing.NoRule? {
        return Failed(Validation);
      } else if filing.Rule? {
        var ensured := tree.EnsureFolderPath(entity, filing.path);
        if ensured.Failed? {
          return Failed(ensured.error);
        }
        folder := ensured.value;
      }
      ghost var u := Upload(entity, folder, scope, objectId, name, mime, body, actor, stamp);
      StoreShaped(Abs(), tree.folders, u, sha);
      r := StoreBytes(entity, folder, scope, objectId, name, mime, content, actor, stamp, u);
    }

    /** UploadEx from the resolved folder on. */
    method StoreBytes(entity: int, folder: Option<int>, scope: string, objectId: int, name: string, mime: string,
                      body: Bytes, actor: Option<int>, stamp: nat, ghost u: Upload)
      returns (r: Outcome<Document>)
      requires Good()
      requires u == Upload(entity, folder, scope, objectId, name, mime, u.body, actor, stamp) && body == Limited(u.body)
      modifies this
      ensures (Abs(), r) == Store(old(Abs()), tree.folders, u, sha)
    {
      if folder.Some? {
        var found := tree.FolderByID(entity, folder.value);
        if found.Failed? {
          return Failed(found.error);
        }
      }
      var existing := FindByFolderName(docs, entity, folder, name);
      if existing.Some? {
        FindFileUnique(Abs(), entity, folder, name, existing.value);
        r := AppendVersion(docs[existing.value], body, MimeOf(mime), actor);
        return;
      }
      assert !FileExists(Abs(), entity, folder, name);
      var key := KeyText(First(entity, scope, stamp, name));
      data := data[key := body];
      lastDoc := lastDoc + 1;
      var content := Content(key, MimeOf(mime), |body|, sha(body));
      var d := Document(lastDoc, entity, scope, objectId, folder, name, content, 1, actor);
      docs := docs[lastDoc := d];
      assert lastDoc !in versions;
      ghost var v := Version(lastVersion + 1, lastDoc, 1, content, actor);
      assert [] + [v] == [v];
      var created := CreateVersion(lastDoc, 1, content, actor);
      assert created.Done?;
      r := Done(d);
    }

    /** Service.RestoreVersion. */
    method RestoreVersion(entity: int, id: int, version: int, actor: Option<int>) returns (r: Outcome<Document>)
      requires Good()
      modifies this
      ensures Good() && (Abs(), r) == Restore(old(Abs()), entity, id, version, actor, sha)
    {
      RestoreShaped(Abs(), entity, id, version, actor, sha);
      hide RowsGrow, DistinctFiles, KeyText, FolderTree.Valid;
      if version <= 0 {
        return Failed(Validation);
      }
      if id !in docs || docs[id].entity != entity {
        return Failed(NotFound);
      }
      var d := docs[id];
      assert FileOk(Abs(), id);
      assert forall k :: 0 <= k < |versions[id]| ==> RowOk(Abs(), id, versions[id][k], k + 1);
      assert version <= d.version ==> versions[id][version - 1].version == version;
      var source := FindVersion(versions[id], version);
      if source.None? {
        return Failed(NotFound);
      }
      if version == d.version {
        return Done(d);
      }
      assert source.value == versions[id][version - 1];
      var body := Limited(data[source.value.content.key]);
      r := AppendVersion(d, body, source.value.content.mime, actor);
    }
  }
}
