/** The per-entity folder forest (backend/internal/documentsvc/ecm.go:24-254,
    ecm_memory.go:15-82) as values: the steps on a table of folders, the forest
    they keep, and the paths of its folders. */
module FolderTree {
  import opened Options
  import opened Paths

  datatype Folder = Folder(id: int, entity: int, parent: Option<int>, name: string)

  type Table = map<int, Folder>

  datatype State = State(folders: Table, lastId: nat)

  // ----- The forest -----

  /** i reaches a root in exactly n parent steps. */
  ghost predicate RootedIn(f: Table, i: int, n: nat)
    decreases n
  {
    && i in f
    && if f[i].parent.None? then n == 0 else n > 0 && RootedIn(f, f[i].parent.value, n - 1)
  }

  ghost predicate Rooted(f: Table, i: int) {
    exists n: nat :: RootedIn(f, i, n)
  }

  lemma {:induction false} RootedOnce(f: Table, i: int, n: nat, m: nat)
    requires RootedIn(f, i, n) && RootedIn(f, i, m)
    ensures n == m
    decreases n
  {
    if f[i].parent.Some? {
      RootedOnce(f, f[i].parent.value, n - 1, m - 1);
    }
  }

  ghost function Depth(f: Table, i: int): (n: nat)
    requires Rooted(f, i)
    ensures RootedIn(f, i, n)
  {
    var n: nat :| RootedIn(f, i, n);
    n
  }

  lemma ParentDepth(f: Table, i: int)
    requires Rooted(f, i)
    ensures i in f
    ensures f[i].parent.Some? ==> Rooted(f, f[i].parent.value) && Depth(f, i) == Depth(f, f[i].parent.value) + 1
    ensures f[i].parent.None? ==> Depth(f, i) == 0
  {
    var n := Depth(f, i);
    if f[i].parent.Some? {
      assert RootedIn(f, f[i].parent.value, n - 1);
      RootedOnce(f, f[i].parent.value, n - 1, Depth(f, f[i].parent.value));
    }
  }

  lemma IsRooted(f: Table, i: int, n: nat)
    requires RootedIn(f, i, n)
    ensures Rooted(f, i) && Depth(f, i) == n
  {
    RootedOnce(f, i, n, Depth(f, i));
  }

  predicate SameSlot(a: Folder, entity: int, parent: Option<int>, name: string) {
    a.entity == entity && a.parent == parent && a.name == name
  }

  /** Ids are keys, parents live in the same entity, siblings have distinct clean
      names, and every folder reaches a root. */
  ghost predicate Forest(f: Table) {
    && (forall i :: i in f ==> f[i].id == i && CleanName(f[i].name))
    && (forall i :: i in f && f[i].parent.Some? ==>
          f[i].parent.value in f && f[f[i].parent.value].entity == f[i].entity)
    && DistinctSlots(f)
    && AllRooted(f)
  }

  /** Sibling names are unique within an entity. */
  ghost predicate DistinctSlots(f: Table) {
    forall i, j :: i in f && j in f && SameSlot(f[i], f[j].entity, f[j].parent, f[j].name) ==> i == j
  }

  /** No folder is its own ancestor: each reaches a root. */
  ghost predicate AllRooted(f: Table) {
    forall i :: i in f ==> Rooted(f, i)
  }

  ghost predicate Valid(s: State) {
    Forest(s.folders) && forall i :: i in s.folders ==> 0 < i <= s.lastId
  }

  /** i is a or one of its descendants. */
  ghost predicate Under(f: Table, i: int, a: int)
    requires Rooted(f, i)
    decreases Depth(f, i)
  {
    ParentDepth(f, i);
    i == a || (f[i].parent.Some? && Under(f, f[i].parent.value, a))
  }

  /** The names from the root down to i. */
  ghost function Names(f: Table, i: int): (segs: seq<string>)
    requires Rooted(f, i)
    ensures |segs| == Depth(f, i) + 1
    decreases Depth(f, i)
  {
    ParentDepth(f, i);
    if f[i].parent.None? then [f[i].name] else Names(f, f[i].parent.value) + [f[i].name]
  }

  ghost function NamesOf(f: Table, folder: Option<int>): seq<string>
    requires folder.Some? ==> Rooted(f, folder.value)
  {
    if folder.None? then [] else Names(f, folder.value)
  }

  // ----- The store's and the service's steps -----

  predicate HasParent(f: Table, entity: int, parent: Option<int>) {
    parent.Some? ==> parent.value in f && f[parent.value].entity == entity
  }

  ghost predicate Taken(f: Table, entity: int, parent: Option<int>, name: string) {
    exists i :: i in f && SameSlot(f[i], entity, parent, name)
  }

  /** Service.CreateFolder (ecm.go:152-166). */
  ghost function Create(s: State, entity: int, parent: Option<int>, rawName: string): (State, Outcome<int>) {
    var name := TrimSpace(rawName);
    if !ValidName(name) then (s, Failed(Validation))
    else if !HasParent(s.folders, entity, parent) then (s, Failed(NotFound))
    else if Taken(s.folders, entity, parent, name) then (s, Failed(Conflict))
    else (Insert(s, entity, parent, name), Done(s.lastId + 1))
  }

  function Insert(s: State, entity: int, parent: Option<int>, name: string): State {
    var id := s.lastId + 1;
    State(s.folders[id := Folder(id, entity, parent, name)], id)
  }

  /** Service.MoveFolder (ecm.go:170-202). */
  ghost function Move(s: State, entity: int, id: int, newParent: Option<int>): (State, Outcome<Folder>)
    requires Valid(s)
  {
    var f := s.folders;
    if !HasParent(f, entity, Some(id)) then (s, Failed(NotFound))
    else if newParent == Some(id) then (s, Failed(Validation))
    else if !HasParent(f, entity, newParent) then (s, Failed(NotFound))
    else if newParent.Some? && Under(f, newParent.value, id) then (s, Failed(Validation))
    else if f[id].parent == newParent then (s, Done(f[id]))
    else if Taken(f, entity, newParent, f[id].name) then (s, Failed(Conflict))
    else (s.(folders := Reparent(f, id, newParent)), Done(f[id].(parent := newParent)))
  }

  function Reparent(f: Table, id: int, newParent: Option<int>): Table
    requires id in f
  {
    f[id := f[id].(parent := newParent)]
  }

  /** The folder in a slot; MemoryStore.FindFolder (ecm_memory.go:43-52). */
  ghost function Find(f: Table, entity: int, parent: Option<int>, name: string): (r: Option<int>)
    ensures r.Some? ==> r.value in f && SameSlot(f[r.value], entity, parent, name)
    ensures r.None? <==> !Taken(f, entity, parent, name)
  {
    if Taken(f, entity, parent, name) then
      var i :| i in f && SameSlot(f[i], entity, parent, name);
      Some(i)
    else None
  }

  /** The loop of EnsureFolderPath (ecm.go:228-253): descend, creating what is missing. */
  ghost function Ensure(s: State, entity: int, parent: Option<int>, segs: seq<string>): (State, Option<int>)
    decreases |segs|
  {
    if segs == [] then (s, parent)
    else
      var found := Find(s.folders, entity, parent, segs[0]);
      if found.Some? then Ensure(s, entity, found, segs[1..])
      else Ensure(Insert(s, entity, parent, segs[0]), entity, Some(s.lastId + 1), segs[1..])
  }

  /** Service.EnsureFolderPath (ecm.go:223-254). */
  ghost function EnsurePath(s: State, entity: int, path: string): (State, Outcome<Option<int>>) {
    match PathSegments(path)
    case Failed(e) => (s, Failed(e))
    case Done(segs) => var (t, leaf) := Ensure(s, entity, None, segs); (t, Done(leaf))
  }

  // ----- Adding folders -----

  ghost predicate Extends(f: Table, g: Table) {
    forall i :: i in f ==> i in g && g[i] == f[i]
  }

  lemma {:induction false} ExtendRooted(f: Table, g: Table, i: int, n: nat)
    requires Extends(f, g) && RootedIn(f, i, n)
    ensures RootedIn(g, i, n)
    decreases n
  {
    if f[i].parent.Some? {
      ExtendRooted(f, g, f[i].parent.value, n - 1);
    }
  }

  lemma {:induction false} ExtendNames(f: Table, g: Table, i: int)
    requires Extends(f, g) && Rooted(f, i)
    ensures Rooted(g, i) && Depth(g, i) == Depth(f, i) && Names(g, i) == Names(f, i)
    decreases Depth(f, i)
  {
    ExtendRooted(f, g, i, Depth(f, i));
    IsRooted(g, i, Depth(f, i));
    ParentDepth(f, i);
    if f[i].parent.Some? {
      ExtendNames(f, g, f[i].parent.value);
    }
  }

  lemma InsertKeepsSlots(f: Table, folder: Folder)
    requires DistinctSlots(f) && folder.id !in f && !Taken(f, folder.entity, folder.parent, folder.name)
    ensures DistinctSlots(f[folder.id := folder])
  {
    assert forall j :: j in f ==> !SameSlot(f[j], folder.entity, folder.parent, folder.name);
  }

  lemma InsertKeepsRoots(f: Table, folder: Folder)
    requires AllRooted(f) && folder.id !in f && (folder.parent.Some? ==> folder.parent.value in f)
    ensures var g := f[folder.id := folder];
            && AllRooted(g) && Extends(f, g)
            && Names(g, folder.id) == NamesOf(f, folder.parent) + [folder.name]
  {
    var g := f[folder.id := folder];
    forall i | i in f
      ensures Rooted(g, i)
    {
      ExtendNames(f, g, i);
    }
    if folder.parent.Some? {
      ExtendNames(f, g, folder.parent.value);
      assert RootedIn(g, folder.id, Depth(f, folder.parent.value) + 1);
    } else {
      assert RootedIn(g, folder.id, 0);
    }
    ParentDepth(g, folder.id);
  }

  /** Creating a folder in a free slot under an existing parent keeps the forest. */
  lemma InsertKeeps(s: State, entity: int, parent: Option<int>, name: string)
    requires Valid(s) && CleanName(name) && HasParent(s.folders, entity, parent)
    requires !Taken(s.folders, entity, parent, name)
    ensures Valid(Insert(s, entity, parent, name)) && Extends(s.folders, Insert(s, entity, parent, name).folders)
    ensures var t := Insert(s, entity, parent, name);
            Names(t.folders, t.lastId) == NamesOf(s.folders, parent) + [name]
  {
    hide CleanName;
    var folder := Folder(s.lastId + 1, entity, parent, name);
    InsertKeepsRoots(s.folders, folder);
    InsertKeepsSlots(s.folders, folder);
  }

  // ----- Moving a folder -----

  /** A folder outside the moved subtree keeps its ancestors and names. */
  lemma {:induction false} MoveOutside(f: Table, id: int, newParent: Option<int>, i: int)
    requires id in f && Rooted(f, i) && !Under(f, i, id)
    ensures var g := Reparent(f, id, newParent);
            Rooted(g, i) && Depth(g, i) == Depth(f, i) && Names(g, i) == Names(f, i)
    decreases Depth(f, i)
  {
    var g := Reparent(f, id, newParent);
    ParentDepth(f, i);
    if f[i].parent.Some? {
      MoveOutside(f, id, newParent, f[i].parent.value);
      IsRooted(g, i, Depth(f, i));
    } else {
      IsRooted(g, i, 0);
    }
    ParentDepth(g, i);
  }

  /** A folder inside it hangs below id as before: the names below id are unchanged. */
  lemma {:induction false} MoveInside(f: Table, id: int, newParent: Option<int>, i: int)
    requires id in f && Rooted(f, i) && Under(f, i, id) && Rooted(f, id)
    requires newParent.Some? ==> Rooted(f, newParent.value) && !Under(f, newParent.value, id)
    ensures var g := Reparent(f, id, newParent);
            && Rooted(g, i) && Rooted(g, id) && Depth(f, id) <= Depth(f, i)
            && Names(f, i)[..Depth(f, id) + 1] == Names(f, id)
            && Names(g, i) == Names(g, id) + Names(f, i)[Depth(f, id) + 1..]
            && Names(g, id) == (if newParent.None? then [] else Names(f, newParent.value)) + [f[id].name]
    decreases Depth(f, i)
  {
    var g := Reparent(f, id, newParent);
    ParentDepth(f, i);
    if i == id {
      if newParent.Some? {
        MoveOutside(f, id, newParent, newParent.value);
        IsRooted(g, id, Depth(g, newParent.value) + 1);
      } else {
        IsRooted(g, id, 0);
      }
      ParentDepth(g, id);
    } else {
      var p := f[i].parent.value;
      MoveInside(f, id, newParent, p);
      IsRooted(g, i, Depth(g, p) + 1);
      ParentDepth(g, i);
      assert Names(f, i) == Names(f, p) + [f[i].name];
    }
  }

  lemma MoveKeepsRoots(f: Table, id: int, newParent: Option<int>)
    requires AllRooted(f) && id in f
    requires newParent.Some? ==> newParent.value in f && !Under(f, newParent.value, id)
    ensures AllRooted(Reparent(f, id, newParent))
  {
    var g := Reparent(f, id, newParent);
    forall i | i in g
      ensures Rooted(g, i)
    {
      if Under(f, i, id) {
        MoveInside(f, id, newParent, i);
      } else {
        MoveOutside(f, id, newParent, i);
      }
    }
  }

  lemma MoveKeepsSlots(f: Table, id: int, newParent: Option<int>)
    requires DistinctSlots(f) && id in f && !Taken(f, f[id].entity, newParent, f[id].name)
    ensures DistinctSlots(Reparent(f, id, newParent))
  {
    assert forall j :: j in f ==> !SameSlot(f[j], f[id].entity, newParent, f[id].name);
  }

  /** The guard suffices: moving outside one's own subtree keeps the forest. */
  lemma MoveKeeps(f: Table, id: int, newParent: Option<int>)
    requires Forest(f) && id in f && HasParent(f, f[id].entity, newParent)
    requires newParent.Some? ==> !Under(f, newParent.value, id)
    requires !Taken(f, f[id].entity, newParent, f[id].name)
    ensures Forest(Reparent(f, id, newParent))
  {
    hide CleanName;
    MoveKeepsRoots(f, id, newParent);
    MoveKeepsSlots(f, id, newParent);
  }

  /** The guard is necessary: moving into one's own subtree unroots the folder. */
  lemma MoveUnderBreaks(f: Table, id: int, target: int, n: nat)
    requires id in f && Rooted(f, target) && Under(f, target, id)
    ensures !RootedIn(Reparent(f, id, Some(target)), id, n)
  {
    var g := Reparent(f, id, Some(target));
    if RootedIn(g, id, n) {
      ClimbToMoved(f, id, target, target, n - 1);
    }
  }

  lemma {:induction false} ClimbToMoved(f: Table, id: int, target: int, i: int, n: nat)
    requires id in f && Rooted(f, i) && Under(f, i, id)
    requires RootedIn(Reparent(f, id, Some(target)), i, n)
    ensures exists m: nat :: m <= n && RootedIn(Reparent(f, id, Some(target)), id, m)
    decreases Depth(f, i)
  {
    ParentDepth(f, i);
    if i != id {
      ClimbToMoved(f, id, target, f[i].parent.value, n - 1);
    }
  }

  /** MoveFolder's cycle guard refuses exactly the moves that would break the forest. */
  lemma CycleGuardIsExact(f: Table, id: int, newParent: Option<int>)
    requires Forest(f) && id in f && HasParent(f, f[id].entity, newParent)
    requires !Taken(f, f[id].entity, newParent, f[id].name)
    ensures Forest(Reparent(f, id, newParent)) <==> !(newParent.Some? && Under(f, newParent.value, id))
  {
    if newParent.Some? && Under(f, newParent.value, id) {
      forall n: nat
        ensures !RootedIn(Reparent(f, id, newParent), id, n)
      {
        MoveUnderBreaks(f, id, newParent.value, n);
      }
      assert !Rooted(Reparent(f, id, newParent), id);
    } else {
      MoveKeeps(f, id, newParent);
    }
  }

  // ----- Paths -----

  lemma {:induction false} NamesClean(f: Table, i: int)
    requires Forest(f) && i in f
    ensures CleanNames(Names(f, i))
    decreases Depth(f, i)
  {
    ParentDepth(f, i);
    assert CleanName(f[i].name);
    hide CleanName;
    if f[i].parent.Some? {
      NamesClean(f, f[i].parent.value);
    }
  }

  /** Within an entity, a folder is determined by its names from the root. */
  lemma {:induction false} NamesInjective(f: Table, i: int, j: int)
    requires Forest(f) && i in f && j in f && f[i].entity == f[j].entity
    requires Names(f, i) == Names(f, j)
    ensures i == j
    decreases Depth(f, i)
  {
    ParentDepth(f, i);
    ParentDepth(f, j);
    assert Depth(f, i) == Depth(f, j);
    var ni, nj := Names(f, i), Names(f, j);
    assert f[i].name == ni[|ni| - 1] && f[j].name == nj[|nj| - 1];
    if f[i].parent.Some? {
      var p, q := f[i].parent.value, f[j].parent.value;
      assert Names(f, p) == ni[..|ni| - 1] == nj[..|nj| - 1] == Names(f, q);
      NamesInjective(f, p, q);
    }
    assert SameSlot(f[i], f[j].entity, f[j].parent, f[j].name);
  }

  /** The ancestor of i whose path is the first k names of i's path. */
  lemma {:induction false} AncestorAt(f: Table, i: int, k: nat) returns (a: int)
    requires Forest(f) && i in f && 0 < k <= |Names(f, i)|
    ensures a in f && f[a].entity == f[i].entity && Names(f, a) == Names(f, i)[..k]
    decreases Depth(f, i)
  {
    ParentDepth(f, i);
    if k == |Names(f, i)| {
      a := i;
    } else {
      a := AncestorAt(f, f[i].parent.value, k);
    }
  }

  /** i is a folder of the entity on the way down the path `full`. */
  ghost predicate OnPath(f: Table, i: int, entity: int, full: seq<string>) {
    i in f && f[i].entity == entity && Rooted(f, i) && Names(f, i) <= full
  }

  ghost predicate NewOnPath(f: Table, g: Table, entity: int, full: seq<string>) {
    forall i :: i in g && i !in f ==> OnPath(g, i, entity, full)
  }

  /** t extends s by folders on the path `full` only, and leaf is the folder at its end. */
  ghost predicate Ensured(s: State, t: State, entity: int, leaf: Option<int>, full: seq<string>) {
    && Valid(t) && Extends(s.folders, t.folders) && HasParent(t.folders, entity, leaf)
    && NamesOf(t.folders, leaf) == full
    && (t != s ==> s.lastId + 1 in t.folders)
    && NewOnPath(s.folders, t.folders, entity, full)
  }

  /** EnsureFolderPath keeps the forest and every existing folder, ends at the asked
      path, and creates nothing but prefixes of it. */
  lemma {:induction false} EnsureKeeps(s: State, entity: int, parent: Option<int>, segs: seq<string>)
    requires Valid(s) && CleanNames(segs) && HasParent(s.folders, entity, parent)
    ensures var (t, leaf) := Ensure(s, entity, parent, segs);
            Ensured(s, t, entity, leaf, NamesOf(s.folders, parent) + segs)
    decreases |segs|
  {
    var f := s.folders;
    if segs == [] {
      assert NamesOf(f, parent) + segs == NamesOf(f, parent);
    } else {
      var found := Find(f, entity, parent, segs[0]);
      assert CleanName(segs[0]);
      hide CleanName;
      Descend(NamesOf(f, parent), segs);
      if found.Some? {
        ChildNames(f, found.value);
        EnsureKeeps(s, entity, found, segs[1..]);
      } else {
        InsertKeeps(s, entity, parent, segs[0]);
        var t := Insert(s, entity, parent, segs[0]);
        EnsureKeeps(t, entity, Some(t.lastId), segs[1..]);
        var (u, leaf) := Ensure(t, entity, Some(t.lastId), segs[1..]);
        EnsuredAfterInsert(s, entity, parent, segs[0], u, leaf, NamesOf(f, parent) + segs);
      }
    }
  }

  lemma EnsuredAfterInsert(
    s: State, entity: int, parent: Option<int>, name: string, u: State, leaf: Option<int>, full: seq<string>)
    requires Valid(s) && HasParent(s.folders, entity, parent)
    requires var t := Insert(s, entity, parent, name);
             && Valid(t) && Extends(s.folders, t.folders) && Names(t.folders, t.lastId) <= full
             && Ensured(t, u, entity, leaf, full)
    ensures Ensured(s, u, entity, leaf, full)
  {
    var t := Insert(s, entity, parent, name);
    ExtendNames(t.folders, u.folders, t.lastId);
  }

  lemma ChildNames(f: Table, i: int)
    requires Rooted(f, i)
    ensures i in f && (f[i].parent.Some? ==> Rooted(f, f[i].parent.value))
    ensures Names(f, i) == NamesOf(f, f[i].parent) + [f[i].name]
  {
    ParentDepth(f, i);
  }

  lemma Descend(names: seq<string>, segs: seq<string>)
    requires segs != []
    ensures names + [segs[0]] + segs[1..] == names + segs && names + [segs[0]] <= names + segs
  {}

  /** Service.FolderPath (ecm.go:205-219): paths deeper than 256 are refused. */
  ghost function FolderPath(s: State, entity: int, id: int): Outcome<string>
    requires Valid(s)
  {
    if !HasParent(s.folders, entity, Some(id)) then Failed(NotFound)
    else if |Names(s.folders, id)| > 256 then Failed(Validation)
    else Done(PathText(Names(s.folders, id)))
  }

  /** Ensuring a path and rendering the folder it returns gives the path's canonical text. */
  lemma PathOfEnsured(s: State, entity: int, path: string, segs: seq<string>)
    requires Valid(s) && PathSegments(path) == Done(segs)
    ensures var (t, r) := EnsurePath(s, entity, path);
            && Valid(t) && Extends(s.folders, t.folders) && r.Done?
            && (segs == [] ==> r.value == None && t == s)
            && (segs != [] ==>
                  && r.value.Some?
                  && FolderPath(t, entity, r.value.value)
                     == if |segs| <= 256 then Done(PathText(segs)) else Failed(Validation))
  {
    SegmentsAreClean(path);
    EnsureKeeps(s, entity, None, segs);
    assert [] + segs == segs;
  }

  /** When a folder with the path is there already, nothing is created and it is the leaf. */
  lemma NothingNew(s: State, t: State, entity: int, leaf: int, id: int)
    requires Valid(s) && HasParent(s.folders, entity, Some(id))
    requires Ensured(s, t, entity, Some(leaf), Names(s.folders, id))
    ensures t == s && leaf == id
  {
    var f := s.folders;
    ExtendNames(f, t.folders, id);
    NamesInjective(t.folders, leaf, id);
    if t != s {
      var i := s.lastId + 1;
      assert OnPath(t.folders, i, entity, Names(f, id));
      hide Under, Names, CleanName, DistinctSlots;
      var a := AncestorAt(f, id, |Names(t.folders, i)|);
      ExtendNames(f, t.folders, a);
      NamesInjective(t.folders, i, a);
    }
  }

  /** Ensuring the rendered path of a folder finds that folder and creates nothing. */
  lemma EnsuredOfPath(s: State, entity: int, id: int)
    requires Valid(s) && FolderPath(s, entity, id).Done?
    ensures EnsurePath(s, entity, FolderPath(s, entity, id).value) == (s, Done(Some(id)))
  {
    var segs := Names(s.folders, id);
    NamesClean(s.folders, id);
    SegmentsOfText(segs);
    EnsureKeeps(s, entity, None, segs);
    assert [] + segs == segs;
    var (t, leaf) := Ensure(s, entity, None, segs);
    NothingNew(s, t, entity, leaf.value, id);
  }

  /** Two distinct folders of an entity never have the same path. */
  lemma PathsDistinct(s: State, entity: int, i: int, j: int)
    requires Valid(s) && FolderPath(s, entity, i).Done? && FolderPath(s, entity, i) == FolderPath(s, entity, j)
    ensures i == j
  {
    NamesClean(s.folders, i);
    NamesClean(s.folders, j);
    PathTextInjective(Names(s.folders, i), Names(s.folders, j));
    NamesInjective(s.folders, i, j);
  }

  /** What moving id below newParent does to the path of i. */
  ghost predicate PathMoved(f: Table, g: Table, id: int, newParent: Option<int>, i: int)
    requires AllRooted(f) && AllRooted(g) && id in f && id in g && i in f && i in g
    requires newParent.Some? ==> newParent.value in f
  {
    && Names(g, id) == NamesOf(f, newParent) + [f[id].name]
    && if Under(f, i, id) then
         && Names(f, id) <= Names(f, i)
         && Names(g, i) == Names(g, id) + Names(f, i)[|Names(f, id)|..]
       else Names(g, i) == Names(f, i)
  }

  lemma ReparentMovesPath(f: Table, id: int, newParent: Option<int>, i: int)
    requires AllRooted(f) && id in f && i in f
    requires newParent.Some? ==> newParent.value in f && !Under(f, newParent.value, id)
    ensures AllRooted(Reparent(f, id, newParent)) && PathMoved(f, Reparent(f, id, newParent), id, newParent, i)
  {
    MoveKeepsRoots(f, id, newParent);
    MoveInside(f, id, newParent, id);
    if Under(f, i, id) {
      MoveInside(f, id, newParent, i);
    } else {
      MoveOutside(f, id, newParent, i);
    }
  }

  /** A successful move gives id the path of its new parent plus its name, swaps that
      prefix in exactly the paths below id, and leaves every other path alone. */
  lemma MoveRewritesPaths(s: State, entity: int, id: int, newParent: Option<int>, i: int)
    requires Valid(s) && Move(s, entity, id, newParent).1.Done? && i in s.folders
    ensures var t := Move(s, entity, id, newParent).0;
            Valid(t) && t.folders.Keys == s.folders.Keys && PathMoved(s.folders, t.folders, id, newParent, i)
  {
    var f := s.folders;
    assert HasParent(f, entity, newParent) && (newParent.Some? ==> !Under(f, newParent.value, id)) by {
      if f[id].parent == newParent && newParent.Some? {
        ParentDepth(f, id);
      }
    }
    hide Under, Names, CleanName;
    ReparentMovesPath(f, id, newParent, i);
    if f[id].parent == newParent {
      assert Reparent(f, id, newParent) == f;
    } else {
      MoveKeeps(f, id, newParent);
    }
  }

  // ----- When requests succeed -----

  /** A folder is created exactly if its trimmed name is valid, its parent exists in the entity,
      and no folder beside it has that name. Its path is then that of the parent with the name
      behind it, and no other folder changes. */
  lemma CreateIff(s: State, entity: int, parent: Option<int>, rawName: string)
    requires Valid(s)
    ensures var (t, r), name := Create(s, entity, parent, rawName), TrimSpace(rawName);
            && (r.Done? <==>
                  && ValidName(name)
                  && (parent.Some? ==> parent.value in s.folders && s.folders[parent.value].entity == entity)
                  && forall i :: i in s.folders && s.folders[i].entity == entity && s.folders[i].parent == parent
                       ==> s.folders[i].name != name)
            && (r.Failed? ==> t == s)
            && (r.Done? ==>
                  && r.value !in s.folders && t.folders == s.folders[r.value := Folder(r.value, entity, parent, name)]
                  && Valid(t) && Names(t.folders, r.value) == NamesOf(s.folders, parent) + [name])
  {
    TrimTrims(rawName, Blanks);
    TrimIdentity(TrimSpace(rawName), Blanks);
    if Create(s, entity, parent, rawName).1.Done? {
      InsertKeeps(s, entity, parent, TrimSpace(rawName));
    }
  }

  lemma {:induction false} JoinExtends(segs: seq<string>, name: string)
    requires segs != []
    ensures Join(segs + [name]) == Join(segs) + "/" + name
  {
    assert (segs + [name])[1..] == segs[1..] + [name];
    if |segs| > 1 {
      JoinExtends(segs[1..], name);
    }
  }

  lemma {:induction false} UnderIsDeeper(f: Table, i: int, a: int)
    requires Rooted(f, i) && Under(f, i, a)
    ensures Rooted(f, a) && Depth(f, a) <= Depth(f, i)
    decreases Depth(f, i)
  {
    ParentDepth(f, i);
    if i != a {
      UnderIsDeeper(f, f[i].parent.value, a);
    }
  }

  /** As texts: the path of the new folder is the path of its parent, a slash and the name. */
  lemma CreatedPath(s: State, entity: int, parent: Option<int>, rawName: string)
    requires Valid(s) && Create(s, entity, parent, rawName).1.Done?
    requires parent.Some? ==> FolderPath(s, entity, parent.value).Done? && |Names(s.folders, parent.value)| < 256
    ensures var (t, r) := Create(s, entity, parent, rawName);
            && Valid(t)
            && FolderPath(t, entity, r.value)
               == Done((if parent.Some? then FolderPath(s, entity, parent.value).value else "")
                       + "/" + TrimSpace(rawName))
  {
    CreateIff(s, entity, parent, rawName);
    hide Create, Names, TrimSpace, Rooted, Forest, Join;
    ExtendedText(NamesOf(s.folders, parent), TrimSpace(rawName));
  }

  lemma ExtendedText(names: seq<string>, name: string)
    ensures PathText(names + [name]) == (if names == [] then "" else PathText(names)) + "/" + name
  {
    if names == [] {
      assert names + [name] == [name] && "" + "/" + name == "/" + name;
    } else {
      JoinExtends(names, name);
      hide Join;
      assert "/" + (Join(names) + "/" + name) == "/" + Join(names) + "/" + name;
    }
  }

  /** A move succeeds exactly if the folder and its new parent exist in the entity, the new
      parent is not below the folder, and no other folder there has the name. It changes the
      folder's parent and nothing else. */
  lemma MoveIff(s: State, entity: int, id: int, newParent: Option<int>)
    requires Valid(s)
    ensures var (t, r), f := Move(s, entity, id, newParent), s.folders;
            && (r.Done? <==>
                  && id in f && f[id].entity == entity
                  && (newParent.Some? ==>
                        && newParent.value in f && f[newParent.value].entity == entity
                        && !Under(f, newParent.value, id))
                  && forall i :: i in f && i != id && f[i].entity == entity && f[i].parent == newParent
                       ==> f[i].name != f[id].name)
            && (r.Failed? ==> t == s)
            && (r.Done? ==>
                  && r.value == f[id].(parent := newParent) && t.lastId == s.lastId
                  && t.folders == f[id := f[id].(parent := newParent)])
  {
    var f := s.folders;
    if id in f {
      SlotFree(f, id, newParent);
      OwnParent(f, id);
      if f[id].parent == newParent {
        assert f[id := f[id].(parent := newParent)] == f;
      }
      assert Under(f, id, id);
    }
    hide Taken, Under;
  }

  /** Whether the name is free beside the other folders of the new parent. */
  lemma SlotFree(f: Table, id: int, newParent: Option<int>)
    requires Forest(f) && id in f
    ensures f[id].parent == newParent || !Taken(f, f[id].entity, newParent, f[id].name)
       <==> forall i :: i in f && i != id && f[i].entity == f[id].entity && f[i].parent == newParent
              ==> f[i].name != f[id].name
  {
    hide AllRooted, CleanName;
    assert f[id].parent == newParent ==> SameSlot(f[id], f[id].entity, newParent, f[id].name);
  }

  /** No folder is above its own parent. */
  lemma OwnParent(f: Table, id: int)
    requires Forest(f) && id in f
    ensures f[id].parent.Some? ==> f[id].parent.value in f && !Under(f, f[id].parent.value, id)
  {
    hide DistinctSlots, CleanName;
    ParentDepth(f, id);
    if f[id].parent.Some? && Under(f, f[id].parent.value, id) {
      UnderIsDeeper(f, f[id].parent.value, id);
    }
  }

  // ----- Runs -----

  datatype Op =
    | CreateOp(entity: int, parent: Option<int>, name: string)
    | MoveOp(entity: int, id: int, newParent: Option<int>)
    | EnsureOp(entity: int, path: string)

  ghost function Step(s: State, op: Op): State
    requires Valid(s)
  {
    match op
    case CreateOp(entity, parent, name) => Create(s, entity, parent, name).0
    case MoveOp(entity, id, newParent) => Move(s, entity, id, newParent).0
    case EnsureOp(entity, path) => EnsurePath(s, entity, path).0
  }

  lemma StepKeeps(s: State, op: Op)
    requires Valid(s)
    ensures Valid(Step(s, op))
  {
    match op
    case CreateOp(entity, parent, rawName) =>
      var name := TrimSpace(rawName);
      TrimTrims(rawName, Blanks);
      TrimIdentity(name, Blanks);
      if Create(s, entity, parent, rawName).1.Done? {
        InsertKeeps(s, entity, parent, name);
      }
    case MoveOp(entity, id, newParent) =>
      if Step(s, op) != s {
        MoveKeeps(s.folders, id, newParent);
      }
    case EnsureOp(entity, path) =>
      if PathSegments(path).Done? {
        SegmentsAreClean(path);
        EnsureKeeps(s, entity, None, PathSegments(path).value);
      }
  }

  /** The table after a run of operations from the empty one: always a forest. */
  ghost function Run(ops: seq<Op>): (s: State)
    ensures Valid(s)
  {
    if ops == [] then State(map[], 0)
    else
      var before := Run(ops[..|ops| - 1]);
      StepKeeps(before, ops[|ops| - 1]);
      Step(before, ops[|ops| - 1])
  }
}
