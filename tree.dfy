/** The osfstorage file tree as stored values: the live nodes, the trashed
    records, and the read-only queries over them (`materialized_path`,
    `path`, `is_checked_out`, `get_or_create`, `get_file_guids`) together
    with the checkout guard of `move_under`. */
module FileTree {
  import opened Types
  import opened Forest
  import opened Paths

  /** Live osfstorage nodes by id. */
  type Tree = map<NodeId, FileNode>

  /** Trashed records by id. */
  type Trash = map<NodeId, TrashedNode>

  /** The guid registry: the guids whose referent is each node, in the order
      the registry lists them. */
  type Guids = map<NodeId, seq<GuidId>>

  function TreeLinks(t: Tree): (l: Links)
    ensures l.Keys == t.Keys
    ensures forall id :: id in t ==> l[id] == t[id].parent
  {
    map id | id in t :: t[id].parent
  }

  function TrashLinks(tr: Trash): (l: Links)
    ensures l.Keys == tr.Keys
    ensures forall id :: id in tr ==> l[id] == tr[id].parent
  {
    map id | id in tr :: tr[id].parent
  }

  function FileFlags(t: Tree): (m: map<NodeId, bool>)
    ensures m.Keys == t.Keys
    ensures forall id :: id in t ==> m[id] == (t[id].kind == File)
  {
    map id | id in t :: t[id].kind == File
  }

  function TrashFlags(tr: Trash): (m: map<NodeId, bool>)
    ensures m.Keys == tr.Keys
    ensures forall id :: id in tr ==> m[id] == tr[id].isFile
  {
    map id | id in tr :: tr[id].isFile
  }

  /** A live tree: parent links have no cycle, and every parent is a live
      folder. */
  predicate WellFormed(t: Tree) {
    && Acyclic(TreeLinks(t))
    && forall id :: id in t && t[id].parent.Some? ==>
         t[id].parent.value in t && t[t[id].parent.value].kind == Folder
  }

  /** The trash: no cycles, and a trashed record whose parent is trashed too
      sits under a trashed folder. */
  predicate TrashWellFormed(tr: Trash) {
    && Acyclic(TrashLinks(tr))
    && forall id :: id in tr && tr[id].parent.Some? && tr[id].parent.value in tr ==>
         !tr[tr[id].parent.value].isFile
  }

  /** Both stores are well formed and no id is both live and trashed. */
  predicate StoresValid(t: Tree, tr: Trash) {
    WellFormed(t) && TrashWellFormed(tr) && t.Keys !! tr.Keys
  }

  // ---------------------------------------------------------------------
  // Paths

  /** The names along a lineage, root first. */
  function RootFirstNames(t: Tree, r: seq<NodeId>): (names: seq<string>)
    requires forall k :: 0 <= k < |r| ==> r[k] in t
    ensures |names| == |r|
    ensures forall k :: 0 <= k < |r| ==> names[k] == t[r[|r| - 1 - k]].name
  {
    seq(|r|, k requires 0 <= k < |r| => t[r[|r| - 1 - k]].name)
  }

  /** `materialized_path`: "/" for a node without parent; otherwise the names
      of the lineage, root first, joined by `os.path.join`, behind a slash,
      with a trailing slash for folders. */
  function MaterializedPath(t: Tree, id: NodeId): (r: string)
    requires WellFormed(t) && id in t
    ensures |r| >= 1 && r[0] == '/'
    ensures t[id].kind == Folder ==> r[|r| - 1] == '/'
  {
    if t[id].parent.None? then "/"
    else
      var joined := PosixJoin(RootFirstNames(t, Lineage(TreeLinks(t), id)));
      if t[id].kind == File then "/" + joined else "/" + joined + "/"
  }

  /** The lineage of `id` is named the osfstorage way: its top (the root
      folder) is named "", every other node has a proper segment name. */
  predicate ProperNames(t: Tree, id: NodeId)
    requires WellFormed(t) && id in t
  {
    var r := Lineage(TreeLinks(t), id);
    && t[r[|r| - 1]].name == ""
    && forall k :: 0 <= k < |r| - 1 ==> Segment(t[r[k]].name)
  }

  function Trail(k: Kind): string {
    if k == Folder then "/" else ""
  }

  /** In a live tree the top of every lineage is a parentless node. */
  lemma LiveTop(t: Tree, id: NodeId)
    requires WellFormed(t) && id in t
    ensures Top(TreeLinks(t), id) <==> t[id].parent.None?
  {
  }

  /** The closed form of `materialized_path`: "/" followed by the non-root
      names root to self, separated by single slashes, and a trailing slash
      for a folder; the parentless root gives "/". */
  lemma MaterializedPathForm(t: Tree, id: NodeId)
    requires WellFormed(t) && id in t && ProperNames(t, id)
    ensures t[id].parent.None? ==> MaterializedPath(t, id) == "/"
    ensures t[id].parent.Some? ==>
      MaterializedPath(t, id)
        == "/" + Slashed(RootFirstNames(t, Lineage(TreeLinks(t), id))[1..]) + Trail(t[id].kind)
  {
    if t[id].parent.Some? {
      var r := Lineage(TreeLinks(t), id);
      var names := RootFirstNames(t, r);
      LiveTop(t, r[|r| - 1]);
      assert names[0] == "";
      forall k | 1 <= k < |names|
        ensures Segment(names[k])
      {
        assert names[k] == t[r[|r| - 1 - k]].name;
      }
      JoinSegments(names);
    }
  }

  lemma ProperNamesParent(t: Tree, c: NodeId)
    requires WellFormed(t) && c in t && t[c].parent.Some? && ProperNames(t, c)
    ensures ProperNames(t, t[c].parent.value)
    ensures Lineage(TreeLinks(t), c) == [c] + Lineage(TreeLinks(t), t[c].parent.value)
  {
    var l := TreeLinks(t);
    var p := t[c].parent.value;
    LineageStep(l, c);
    var rc := Lineage(l, c);
    var rp := Lineage(l, p);
    forall k | 0 <= k < |rp| - 1
      ensures Segment(t[rp[k]].name)
    {
      assert rp[k] == rc[k + 1];
    }
  }

  lemma NamesAppend(t: Tree, c: NodeId, rp: seq<NodeId>)
    requires c in t && forall k :: 0 <= k < |rp| ==> rp[k] in t
    ensures RootFirstNames(t, [c] + rp) == RootFirstNames(t, rp) + [t[c].name]
  {
    var r := [c] + rp;
    var a := RootFirstNames(t, r);
    var b := RootFirstNames(t, rp) + [t[c].name];
    forall k | 0 <= k < |a|
      ensures a[k] == b[k]
    {
      if k < |rp| {
        assert r[|r| - 1 - k] == rp[|rp| - 1 - k];
      }
    }
  }

  /** Walking one level down: a child's materialized path is its parent
      folder's, followed by the child's name (and a slash for a folder). */
  lemma MaterializedPathStep(t: Tree, c: NodeId)
    requires WellFormed(t) && c in t && t[c].parent.Some? && ProperNames(t, c)
    ensures ProperNames(t, t[c].parent.value)
    ensures MaterializedPath(t, c)
              == MaterializedPath(t, t[c].parent.value) + t[c].name + Trail(t[c].kind)
  {
    var l := TreeLinks(t);
    var p := t[c].parent.value;
    ProperNamesParent(t, c);
    var rp := Lineage(l, p);
    NamesAppend(t, c, rp);
    var np := RootFirstNames(t, rp);
    var tail := np[1..] + [t[c].name];
    assert RootFirstNames(t, Lineage(l, c))[1..] == tail;
    MaterializedPathForm(t, c);
    MaterializedPathForm(t, p);
    if t[p].parent.Some? {
      SlashedSnoc(np[1..], t[c].name);
      assert t[p].kind == Folder;
    } else {
      LiveTop(t, p);
      assert tail == [t[c].name];
    }
  }

  /** `path`: the node's own id between slashes; folders end in a slash. */
  function Path(t: Tree, id: NodeId): (r: string)
    requires id in t
    ensures |r| == |id| + 1 + |Trail(t[id].kind)| && r[0] == '/' && r[1..1 + |id|] == id
    ensures t[id].kind == Folder <==> r[|r| - 1] == '/' && |r| == |id| + 2
  {
    "/" + id + Trail(t[id].kind)
  }

  /** `path` and `strip('/')` are inverse on ids that do not start or end
      with a slash: stripping a node's path gives back its id. */
  lemma PathRoundTrip(t: Tree, id: NodeId)
    requires id in t && (id == [] || (id[0] != '/' && id[|id| - 1] != '/'))
    ensures Strip(Path(t, id)) == id
  {
    StripWrapped(id, t[id].kind == Folder);
  }

  // ---------------------------------------------------------------------
  // Checkout state

  /** `is_checked_out`: a file is checked out when its checkout is set; a
      folder when its own checkout is set or any child is checked out. */
  function IsCheckedOut(t: Tree, id: NodeId): (r: bool)
    requires WellFormed(t) && id in t
    ensures t[id].checkout.Some? ==> r
    ensures t[id].kind == File ==> (r <==> t[id].checkout.Some?)
    decreases |TreeLinks(t)| - Depth(TreeLinks(t), id)
  {
    || t[id].checkout.Some?
    || (&& t[id].kind == Folder
        && exists c :: c in t && IsChild(TreeLinks(t), id, c) && IsCheckedOut(t, c))
  }

  /** Some node of the subtree rooted at `id` has its checkout set. */
  ghost predicate LockBelow(t: Tree, id: NodeId)
    requires WellFormed(t)
  {
    exists d :: InSubtree(TreeLinks(t), id, d) && t[d].checkout.Some?
  }

  /** A file's subtree is the file alone. */
  lemma FileSubtree(t: Tree, id: NodeId, d: NodeId)
    requires WellFormed(t) && id in t && t[id].kind == File
    requires InSubtree(TreeLinks(t), id, d)
    ensures d == id
  {
    if d != id {
      var c := ChildToward(TreeLinks(t), id, d);
      assert false;
    }
  }

  /** A node is checked out exactly when some node of its subtree holds a
      checkout: for a file that is the file itself, for a folder the folder
      or anything below it. */
  lemma {:induction false} CheckedOutIffLockBelow(t: Tree, id: NodeId)
    requires WellFormed(t) && id in t
    ensures IsCheckedOut(t, id) <==> LockBelow(t, id)
    decreases |TreeLinks(t)| - Depth(TreeLinks(t), id)
  {
    var l := TreeLinks(t);
    assert InSubtree(l, id, id);
    if IsCheckedOut(t, id) && t[id].checkout.None? {
      var c :| c in t && t[c].parent == Some(id) && IsCheckedOut(t, c);
      LineageStep(l, c);
      CheckedOutIffLockBelow(t, c);
      var d :| InSubtree(l, c, d) && t[d].checkout.Some?;
      SubtreeOfChild(l, id, c, d);
    }
    if LockBelow(t, id) && t[id].checkout.None? {
      var d :| InSubtree(l, id, d) && t[d].checkout.Some?;
      if t[id].kind == File {
        FileSubtree(t, id, d);
      } else {
        var c := ChildToward(l, id, d);
        LineageStep(l, c);
        CheckedOutIffLockBelow(t, c);
        assert c in t && t[c].parent == Some(id) && IsCheckedOut(t, c);
      }
    }
  }

  /** The checkout guard of `move_under`: a checked-out node cannot be moved;
      otherwise the move goes on to the generic file-node move. */
  function MoveUnder(t: Tree, id: NodeId): (r: Outcome)
    requires WellFormed(t) && id in t
    ensures r.Fail? <==> LockBelow(t, id)
    ensures r.Fail? ==> r.error == FileNodeCheckedOut
  {
    CheckedOutIffLockBelow(t, id);
    if IsCheckedOut(t, id) then Fail(FileNodeCheckedOut) else Pass
  }

  // ---------------------------------------------------------------------
  // Lookup

  /** What `get_or_create` hands back: an existing node, or a new unsaved
      node for the project with the given path. */
  datatype Lookup = Existing(id: NodeId) | Created(owner: ProjectId, path: string)

  /** `get_or_create`: the node whose id is the path with its slashes
      stripped, when that node exists and belongs to the project; otherwise a
      fresh node for the project. */
  function GetOrCreate(t: Tree, owner: ProjectId, path: string): (r: Lookup)
    ensures r.Existing? <==> Strip(path) in t && t[Strip(path)].owner == owner
    ensures r.Existing? ==> r.id == Strip(path)
    ensures r.Created? ==> r == Created(owner, path)
  {
    var id := Strip(path);
    if id in t && t[id].owner == owner then Existing(id) else Created(owner, path)
  }

  /** Looking a node up by its own path finds it for its owner and for no
      other project. */
  lemma GetOrCreateByPath(t: Tree, id: NodeId, owner: ProjectId)
    requires id in t && (id == [] || (id[0] != '/' && id[|id| - 1] != '/'))
    ensures GetOrCreate(t, owner, Path(t, id))
              == if owner == t[id].owner then Existing(id) else Created(owner, Path(t, id))
  {
    PathRoundTrip(t, id);
  }

  // ---------------------------------------------------------------------
  // Guid collection

  /** The first guid the registry lists for a node, if any. */
  function FirstGuid(g: Guids, id: NodeId): (r: set<GuidId>)
    ensures |r| <= 1
    ensures forall x :: x in r <==> id in g && |g[id]| > 0 && x == g[id][0]
  {
    if id in g && |g[id]| > 0 then {g[id][0]} else {}
  }

  /** The guid collection of `get_file_guids` inside one store: a file
      contributes its first guid, a folder the guids of its children. */
  function Collect(l: Links, isFile: map<NodeId, bool>, g: Guids, id: NodeId): (r: set<GuidId>)
    requires Acyclic(l) && l.Keys == isFile.Keys && id in l
    ensures isFile[id] ==> |r| <= 1
    ensures forall x :: x in r ==> exists f :: f in g && |g[f]| > 0 && x == g[f][0]
    decreases |l| - Depth(l, id)
  {
    if isFile[id] then FirstGuid(g, id)
    else
      set c, x | c in l && IsChild(l, id, c) && x in Collect(l, isFile, g, c) :: x
  }

  /** Files never have children in the store. */
  predicate FoldersOnly(l: Links, isFile: map<NodeId, bool>)
    requires l.Keys == isFile.Keys
  {
    forall c :: c in l && !Top(l, c) ==> !isFile[l[c].value]
  }

  /** What `Collect` gathers is the first guid of every file in the subtree. */
  lemma {:induction false} CollectIsFilesBelow(l: Links, isFile: map<NodeId, bool>, g: Guids, id: NodeId, x: GuidId)
    requires Acyclic(l) && l.Keys == isFile.Keys && id in l && FoldersOnly(l, isFile)
    ensures x in Collect(l, isFile, g, id) <==>
              exists f :: InSubtree(l, id, f) && isFile[f] && x in FirstGuid(g, f)
    decreases |l| - Depth(l, id)
  {
    assert InSubtree(l, id, id);
    if isFile[id] {
      forall f | InSubtree(l, id, f)
        ensures f == id
      {
        if f != id {
          var c := ChildToward(l, id, f);
          assert false;
        }
      }
    } else {
      if x in Collect(l, isFile, g, id) {
        var c :| c in l && l[c] == Some(id) && x in Collect(l, isFile, g, c);
        LineageStep(l, c);
        CollectIsFilesBelow(l, isFile, g, c, x);
        var f :| InSubtree(l, c, f) && isFile[f] && x in FirstGuid(g, f);
        SubtreeOfChild(l, id, c, f);
      }
      if exists f :: InSubtree(l, id, f) && isFile[f] && x in FirstGuid(g, f) {
        var f :| InSubtree(l, id, f) && isFile[f] && x in FirstGuid(g, f);
        var c := ChildToward(l, id, f);
        LineageStep(l, c);
        CollectIsFilesBelow(l, isFile, g, c, x);
        assert x in Collect(l, isFile, g, c);
      }
    }
  }

  /** `get_file_guids`: strip the path to an id, load the live node or else
      the trashed record, and collect guids below it.  When neither store
      holds the id the Python code dereferences the missing result and fails. */
  function GetFileGuids(t: Tree, tr: Trash, g: Guids, materializedPath: string): (r: Result<set<GuidId>>)
    requires StoresValid(t, tr)
    ensures r.Err? <==> Strip(materializedPath) !in t && Strip(materializedPath) !in tr
    ensures r.Err? ==> r.error == NoSuchNode
  {
    var id := Strip(materializedPath);
    if id in t then Ok(Collect(TreeLinks(t), FileFlags(t), g, id))
    else if id in tr then Ok(Collect(TrashLinks(tr), TrashFlags(tr), g, id))
    else Err(NoSuchNode)
  }

  /** `get_file_guids` fails exactly for an unknown id, and otherwise
      returns the first guid of every file below the node, staying inside
      the store (live or trashed) the node was found in. */
  lemma GetFileGuidsSpec(t: Tree, tr: Trash, g: Guids, materializedPath: string, x: GuidId)
    requires StoresValid(t, tr)
    ensures var id := Strip(materializedPath);
      && (GetFileGuids(t, tr, g, materializedPath).Err? <==> id !in t && id !in tr)
      && (id in t ==>
            (x in GetFileGuids(t, tr, g, materializedPath).value <==>
               exists f :: InSubtree(TreeLinks(t), id, f) && t[f].kind == File && x in FirstGuid(g, f)))
      && (id in tr ==>
            (x in GetFileGuids(t, tr, g, materializedPath).value <==>
               exists f :: InSubtree(TrashLinks(tr), id, f) && tr[f].isFile && x in FirstGuid(g, f)))
  {
    var id := Strip(materializedPath);
    if id in t {
      CollectIsFilesBelow(TreeLinks(t), FileFlags(t), g, id, x);
    } else if id in tr {
      CollectIsFilesBelow(TrashLinks(tr), TrashFlags(tr), g, id, x);
    }
  }
}
