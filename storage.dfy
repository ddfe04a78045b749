/** The stateful side of osfstorage: the project a file belongs to (its log
    and preprint flags), the store holding the live and trashed nodes, and
    the per-project addon settings that own the root folder.  Each method
    changes exactly what `models.py` changes and is tied to the pure
    definitions of the other modules. */
module Storage {
  import opened Types
  import opened Forest
  import opened FileTree
  import Checkout
  import Versions
  import Tags

  /** The fields of a project that the osfstorage core reads or writes. */
  class Project {
    const id: ProjectId
    const isRegistration: bool
    var preprintFile: Option<NodeId>
    var isPreprintOrphan: bool
    var log: seq<LogEntry>

    constructor (id: ProjectId, isRegistration: bool, preprintFile: Option<NodeId>)
      ensures this.id == id && this.isRegistration == isRegistration
      ensures this.preprintFile == preprintFile && !isPreprintOrphan && log == []
    {
      this.id := id;
      this.isRegistration := isRegistration;
      this.preprintFile := preprintFile;
      isPreprintOrphan := false;
      log := [];
    }
  }

  /** A new root folder: named "", without parent, checkout, versions or
      tags. */
  function RootFolder(owner: ProjectId): (n: FileNode)
    ensures n.name == "" && n.parent.None? && n.owner == owner && n.kind == Folder
    ensures n.checkout.None? && n.versions == [] && n.tags == []
  {
    FileNode("", None, owner, Folder, None, [], [])
  }

  /** Adding a fresh parentless folder keeps a live tree well formed. */
  lemma AddRootWellFormed(t: Tree, k: NodeId, n: FileNode)
    requires WellFormed(t) && k !in t && n.parent.None?
    ensures WellFormed(t[k := n])
  {
    var t' := t[k := n];
    assert TreeLinks(t') == TreeLinks(t)[k := None];
    AddTopAcyclic(TreeLinks(t), k);
  }

  /** The live and trashed osfstorage nodes, together with the tag
      registry that `Tag.load` consults. */
  class FileStore {
    var live: Tree
    var trash: Trash
    var knownTags: set<TagName>

    /** The stores are well formed, every node's version identifiers are
        its 1-based positions, no tag is listed twice on a node, and every
        tag a node carries is a tag record of the registry. */
    ghost predicate Valid()
      reads this
    {
      && StoresValid(live, trash)
      && (forall id :: id in live ==> Versions.DenseIds(live[id].versions) && Tags.NoDup(live[id].tags))
      && (forall id, x :: id in live && x in live[id].tags ==> x in knownTags)
    }

    constructor ()
      ensures Valid() && live == map[] && trash == map[] && knownTags == {}
    {
      live := map[];
      trash := map[];
      knownTags := {};
    }

    /** `check_in_or_out`: refused with FileNodeCheckedOutError as
        `Checkout.Decide` says; on a transition the checkout is set to the
        request and one log entry is appended to the project; otherwise
        nothing changes. */
    method CheckInOrOut(id: NodeId, project: Project, user: UserId, checkout: Option<UserId>,
                        contributorPerms: set<Permission>, perms: set<Permission>) returns (r: Outcome)
      requires Valid() && id in live && live[id].owner == project.id
      modifies this`live, project`log
      ensures Valid()
      ensures var d := Checkout.Decide(old(live), id, user, checkout, contributorPerms, perms);
        && (r.Fail? <==> d.Refused?)
        && (r.Fail? ==> r.error == FileNodeCheckedOut)
        && live == (if d.Transition? then Checkout.SetCheckout(old(live), id, checkout) else old(live))
        && project.log == old(project.log) + (if d.Transition? then [LogEntry(d.action, id, user)] else [])
    {
      var d := Checkout.Decide(live, id, user, checkout, contributorPerms, perms);
      if d.Refused? {
        return Fail(FileNodeCheckedOut);
      }
      if d.Transition? {
        Checkout.UpdateKeepsShape(live, id, live[id].(checkout := checkout));
        live := Checkout.SetCheckout(live, id, checkout);
        project.log := project.log + [LogEntry(d.action, id, user)];
      }
      r := Pass;
    }

    /** The osfstorage part of `delete`: the owning project is flagged a
        preprint orphan when this node is its preprint file (even when the
        delete is then refused), and a checked-out node is refused.  On
        success the generic file-node delete takes over. */
    method Delete(id: NodeId, project: Project) returns (r: Outcome)
      requires Valid() && id in live && live[id].owner == project.id
      modifies project`isPreprintOrphan
      ensures project.isPreprintOrphan == (old(project.isPreprintOrphan) || project.preprintFile == Some(id))
      ensures r.Fail? <==> LockBelow(live, id)
      ensures r.Fail? ==> r.error == FileNodeCheckedOut
    {
      if project.preprintFile == Some(id) {
        project.isPreprintOrphan := true;
      }
      CheckedOutIffLockBelow(live, id);
      if IsCheckedOut(live, id) {
        return Fail(FileNodeCheckedOut);
      }
      r := Pass;
    }

    /** `create_version` on a stored file: the version list becomes what
        `Versions.CreateVersion` gives, nothing else changes. */
    method CreateVersion(id: NodeId, creator: UserId, location: Location,
                         isDuplicate: (FileVersion, FileVersion) -> bool) returns (v: FileVersion)
      requires Valid() && id in live && live[id].kind == File
      modifies this`live
      ensures Valid()
      ensures var (vs', v') := Versions.CreateVersion(old(live)[id].versions, creator, location, isDuplicate);
        v == v' && live == old(live)[id := old(live)[id].(versions := vs')]
      ensures v == live[id].versions[|live[id].versions| - 1] && v.identifier == |live[id].versions|
    {
      var (vs', v') := Versions.CreateVersion(live[id].versions, creator, location, isDuplicate);
      Versions.CreateVersionKeepsDense(live[id].versions, creator, location, isDuplicate);
      Checkout.UpdateKeepsShape(live, id, live[id].(versions := vs'));
      live := live[id := live[id].(versions := vs')];
      v := v';
    }

    /** `add_tag`: when the file does not carry the tag and its project is
        not a registration, the tag is registered, appended to the file and,
        when `log` is set, logged; the result says whether that happened. */
    method AddTag(id: NodeId, project: Project, tag: TagName, user: UserId, log: bool) returns (added: bool)
      requires Valid() && id in live && live[id].kind == File && live[id].owner == project.id
      modifies this`live, this`knownTags, project`log
      ensures Valid()
      ensures var (a, tags') := Tags.AddTag(old(live)[id].tags, tag, project.isRegistration);
        && added == a
        && live == old(live)[id := old(live)[id].(tags := tags')]
        && knownTags == (if a then old(knownTags) + {tag} else old(knownTags))
        && project.log == old(project.log) + (if a && log then [LogEntry(FileTagAdded(tag), id, user)] else [])
      ensures !project.isRegistration ==> tag in live[id].tags
    {
      var (a, tags') := Tags.AddTag(live[id].tags, tag, project.isRegistration);
      added := a;
      if a {
        Tags.AddTagKeepsNoDup(live[id].tags, tag, project.isRegistration);
        Checkout.UpdateKeepsShape(live, id, live[id].(tags := tags'));
        knownTags := knownTags + {tag};
        live := live[id := live[id].(tags := tags')];
        if log {
          project.log := project.log + [LogEntry(FileTagAdded(tag), id, user)];
        }
      }
    }

    /** `remove_tag`: refused as `Tags.RemoveTag` says, leaving everything as
        it was; otherwise the tag is taken off the file and, when `log` is
        set, the removal is logged. */
    method RemoveTag(id: NodeId, project: Project, tag: TagName, user: UserId, log: bool) returns (r: Outcome)
      requires Valid() && id in live && live[id].kind == File && live[id].owner == project.id
      modifies this`live, project`log
      ensures Valid()
      ensures match Tags.RemoveTag(old(live)[id].tags, knownTags, tag, project.isRegistration)
        case Err(e) => r == Fail(e) && live == old(live) && project.log == old(project.log)
        case Ok(tags') =>
          && r == Pass
          && live == old(live)[id := old(live)[id].(tags := tags')]
          && project.log == old(project.log) + (if log then [LogEntry(FileTagRemoved(tag), id, user)] else [])
      ensures r.Pass? ==> tag !in live[id].tags
      ensures tag in old(live)[id].tags && !project.isRegistration ==> r == Pass
    {
      match Tags.RemoveTag(live[id].tags, knownTags, tag, project.isRegistration)
      case Err(e) =>
        r := Fail(e);
      case Ok(tags') =>
        Tags.RemoveTagClears(live[id].tags, knownTags, tag, project.isRegistration);
        Checkout.UpdateKeepsShape(live, id, live[id].(tags := tags'));
        live := live[id := live[id].(tags := tags')];
        if log {
          project.log := project.log + [LogEntry(FileTagRemoved(tag), id, user)];
        }
        r := Pass;
    }
  }

  /** The osfstorage settings of one project: its owner and the root folder
      of its file tree, if one has been attached. */
  class NodeSettings {
    var owner: ProjectId
    var root: Option<NodeId>

    /** A settings record without a root, as `clone()` leaves it. */
    constructor (owner: ProjectId)
      ensures this.owner == owner && root.None?
    {
      this.owner := owner;
      root := None;
    }

    /** `on_add`: when no root is attached, a new root folder for the owner
        is stored under the fresh id `newId` and attached; otherwise nothing
        happens.  The id stands for the one the database assigns. */
    method OnAdd(store: FileStore, newId: NodeId)
      requires store.Valid()
      requires root.None? ==> newId !in store.live && newId !in store.trash
      modifies this`root, store`live
      ensures store.Valid()
      ensures old(root).Some? ==> root == old(root) && store.live == old(store.live)
      ensures old(root).None? ==>
        root == Some(newId) && store.live == old(store.live)[newId := RootFolder(owner)]
    {
      if root.Some? {
        return;
      }
      AddRootWellFormed(store.live, newId, RootFolder(owner));
      store.live := store.live[newId := RootFolder(owner)];
      root := Some(newId);
    }

    /** `after_fork`: a clone bound to the fork; this project gets a root
        first when it has none, and the clone's root is the copy of this
        root that `copyFiles` makes for the fork. */
    method AfterFork(fork: ProjectId, store: FileStore, newId: NodeId,
                     copyFiles: (NodeId, ProjectId) -> NodeId) returns (clone: NodeSettings)
      requires store.Valid()
      requires root.None? ==> newId !in store.live && newId !in store.trash
      modifies this`root, store`live
      ensures store.Valid()
      ensures fresh(clone) && clone.owner == fork
      ensures old(root).Some? ==> root == old(root) && store.live == old(store.live)
      ensures old(root).None? ==>
        root == Some(newId) && store.live == old(store.live)[newId := RootFolder(owner)]
      ensures root.Some? && clone.root == Some(copyFiles(root.value, fork))
    {
      clone := new NodeSettings(fork);
      if root.None? {
        OnAdd(store, newId);
      }
      clone.root := Some(copyFiles(root.value, clone.owner));
    }

    /** `after_register`: a clone bound to the registration that gets a
        fresh root folder of its own; this project's settings stay as they
        are. */
    method AfterRegister(registration: ProjectId, store: FileStore, newId: NodeId) returns (clone: NodeSettings)
      requires store.Valid()
      requires newId !in store.live && newId !in store.trash
      modifies store`live
      ensures store.Valid()
      ensures fresh(clone) && clone.owner == registration && clone.root == Some(newId)
      ensures store.live == old(store.live)[newId := RootFolder(registration)]
    {
      clone := new NodeSettings(registration);
      clone.OnAdd(store, newId);
    }
  }
}
