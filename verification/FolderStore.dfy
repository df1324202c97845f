/** The folder tables of MemoryStore and the Service methods over them
    (backend/internal/documentsvc/ecm.go:149-254, ecm_memory.go:15-82), updated in
    place and proved against the steps of `FolderTree`. */
module FolderStore {
  import opened FolderTree
  import opened Options
  import opened Paths
  import Sets

  /** The scan over all folders for an occupied slot, in any order. */
  method FindSlot(f: Table, entity: int, parent: Option<int>, name: string, except: Option<int>)
      returns (r: Option<int>)
    ensures r.Some? ==> r.value in f && r != except && SameSlot(f[r.value], entity, parent, name)
    ensures r.None? ==> forall i :: i in f && SameSlot(f[i], entity, parent, name) ==> Some(i) == except
  {
    var ids := f.Keys;
    while ids != {}
      invariant ids <= f.Keys
      invariant forall i :: i in f && i !in ids && SameSlot(f[i], entity, parent, name) ==> Some(i) == except
      decreases ids
    {
      Sets.NonEmpty(ids);
      var i :| i in ids;
      ids := ids - {i};
      if Some(i) != except && SameSlot(f[i], entity, parent, name) {
        return Some(i);
      }
    }
    r := None;
  }

  class Store {
    var folders: Table
    var lastId: nat

    ghost function Abs(): State
      reads this
    {
      State(folders, lastId)
    }

    ghost predicate Good()
      reads this
    {
      Valid(Abs())
    }

    constructor ()
      ensures Good() && Abs() == State(map[], 0)
    {
      folders, lastId := map[], 0;
    }

    /** MemoryStore.FolderByID. */
    method FolderByID(entity: int, id: int) returns (r: Outcome<Folder>)
      ensures r == if HasParent(folders, entity, Some(id)) then Done(folders[id]) else Failed(NotFound)
    {
      if id !in folders || folders[id].entity != entity {
        return Failed(NotFound);
      }
      r := Done(folders[id]);
    }

    /** MemoryStore.FindFolder: sibling names are unique, so the scan order is immaterial. */
    method FindFolder(entity: int, parent: Option<int>, name: string) returns (r: Option<int>)
      requires Good()
      ensures r == Find(folders, entity, parent, name)
    {
      r := FindSlot(folders, entity, parent, name, None);
      if r.Some? {
        FindUnique(folders, entity, parent, name, r.value);
      }
    }

    /** MemoryStore.CreateFolder, which checks neither the parent nor blanks around the name:
        the forest is kept if the caller did. */
    method StoreFolder(entity: int, parent: Option<int>, name: string) returns (r: Outcome<int>)
      modifies this
      ensures (Abs(), r) ==
              if !ValidName(name) then (old(Abs()), Failed(Validation))
              else if Taken(old(folders), entity, parent, name) then (old(Abs()), Failed(Conflict))
              else (Insert(old(Abs()), entity, parent, name), Done(old(lastId) + 1))
      ensures old(Good()) && HasParent(old(folders), entity, parent) && TrimSpace(name) == name ==> Good()
    {
      if !ValidName(name) {
        return Failed(Validation);
      }
      var taken := FindSlot(folders, entity, parent, name, None);
      if taken.Some? {
        TakenBy(folders, entity, parent, name, taken.value);
        return Failed(Conflict);
      }
      if Good() && HasParent(folders, entity, parent) && TrimSpace(name) == name {
        InsertKeeps(Abs(), entity, parent, name);
      }
      lastId := lastId + 1;
      folders := folders[lastId := Folder(lastId, entity, parent, name)];
      r := Done(lastId);
    }

    /** Service.CreateFolder. */
    method CreateFolder(entity: int, parent: Option<int>, rawName: string) returns (r: Outcome<int>)
      requires Good()
      modifies this
      ensures Good() && (Abs(), r) == Create(old(Abs()), entity, parent, rawName)
    {
      var name := TrimSpace(rawName);
      TrimTrims(rawName, Blanks);
      TrimIdentity(name, Blanks);
      if !ValidName(name) {
        return Failed(Validation);
      }
      if parent.Some? {
        var p := FolderByID(entity, parent.value);
        if p.Failed? {
          return Failed(p.error);
        }
      }
      r := StoreFolder(entity, parent, name);
    }

    /** Service.MoveFolder: the walk up from the new parent ends because every folder is rooted. */
    method MoveFolder(entity: int, id: int, newParent: Option<int>) returns (r: Outcome<Folder>)
      requires Good()
      modifies this
      ensures Good() && (Abs(), r) == Move(old(Abs()), entity, id, newParent)
    {
      var f := FolderByID(entity, id);
      if f.Failed? {
        return Failed(f.error);
      }
      if newParent.Some? {
        if newParent.value == id {
          return Failed(Validation);
        }
        var p := FolderByID(entity, newParent.value);
        if p.Failed? {
          return Failed(p.error);
        }
        var cur := newParent;
        while cur.Some?
          invariant Abs() == old(Abs())
          invariant HasParent(folders, entity, cur)
          invariant Under(folders, newParent.value, id) == (cur.Some? && Under(folders, cur.value, id))
          decreases if cur.Some? then Depth(folders, cur.value) + 1 else 0
        {
          ParentDepth(folders, cur.value);
          if cur.value == id {
            return Failed(Validation);
          }
          var up := FolderByID(entity, cur.value);
          assert up.Done?;  // parents always exist in the same entity
          cur := up.value.parent;
        }
      }
      if f.value.parent == newParent {
        return f;
      }
      var taken := FindSlot(folders, entity, newParent, f.value.name, Some(id));
      if taken.Some? {
        TakenBy(folders, entity, newParent, f.value.name, taken.value);
        return Failed(Conflict);
      }
      assert !SameSlot(folders[id], entity, newParent, f.value.name);
      MoveKeeps(folders, id, newParent);
      folders := folders[id := folders[id].(parent := newParent)];
      r := Done(f.value.(parent := newParent));
    }

    /** Service.FolderPath: collect the names up to the root, at most 256 of them. */
    method RenderPath(entity: int, id: int) returns (r: Outcome<string>)
      requires Good()
      ensures r == FolderPath(Abs(), entity, id)
    {
      var segs: seq<string> := [];
      var cur := Some(id);
      while cur.Some?
        invariant |segs| <= 256
        invariant if segs == [] then cur == Some(id) else HasParent(folders, entity, Some(id))
        invariant segs != [] ==> HasParent(folders, entity, cur)
        invariant HasParent(folders, entity, Some(id)) ==> Names(folders, id) == NamesOf(folders, cur) + segs
        decreases if cur.Some? && cur.value in folders then Depth(folders, cur.value) + 1
                  else if cur.Some? then 1 else 0
      {
        var f := FolderByID(entity, cur.value);
        if f.Failed? {
          return Failed(f.error);
        }
        ParentDepth(folders, cur.value);
        ChildNames(folders, cur.value);
        hide Names, Depth, RootedIn;
        Prepend(NamesOf(folders, f.value.parent), f.value.name, segs);
        segs := [f.value.name] + segs;
        cur := f.value.parent;
        if |segs| > 256 {
          return Failed(Validation);
        }
      }
      assert [] + segs == segs;
      r := Done("/" + Join(segs));
    }

    /** Service.EnsureFolderPath. A create never conflicts here, since it follows a failed find. */
    method EnsureFolderPath(entity: int, path: string) returns (r: Outcome<Option<int>>)
      requires Good()
      modifies this
      ensures Good() && (Abs(), r) == EnsurePath(old(Abs()), entity, path)
    {
      var split := SplitPath(path);
      if split.Failed? {
        return Failed(split.error);
      }
      var segs := split.value;
      SegmentsAreClean(path);
      var parent: Option<int> := None;
      for k := 0 to |segs|
        invariant Good() && HasParent(folders, entity, parent)
        invariant Ensure(old(Abs()), entity, None, segs) == Ensure(Abs(), entity, parent, segs[k..])
      {
        assert CleanName(segs[k]) && segs[k..][0] == segs[k] && segs[k..][1..] == segs[k + 1..];
        var existing := FindFolder(entity, parent, segs[k]);
        if existing.Some? {
          parent := existing;
        } else {
          var created := StoreFolder(entity, parent, segs[k]);
          parent := Some(created.value);
        }
      }
      r := Done(parent);
    }
  }

  lemma TakenBy(f: Table, entity: int, parent: Option<int>, name: string, i: int)
    requires i in f && SameSlot(f[i], entity, parent, name)
    ensures Taken(f, entity, parent, name)
  {}

  lemma Prepend(names: seq<string>, name: string, segs: seq<string>)
    ensures names + [name] + segs == names + ([name] + segs)
  {}

  /** In a forest at most one folder occupies a slot. */
  lemma FindUnique(f: Table, entity: int, parent: Option<int>, name: string, i: int)
    requires Forest(f) && i in f && SameSlot(f[i], entity, parent, name)
    ensures Find(f, entity, parent, name) == Some(i)
  {
    assert DistinctSlots(f);
  }
}
