# osfstorage file tree, versions, checkout and tags — a Dafny model

This project models the core of the OSF storage addon (`addons/osfstorage/models.py`).
The core covers the following:

- the tree of osfstorage file nodes, live and trashed;
- the derived `materialized_path` and `path` of a node;
- checkout locking: `is_checked_out`, `check_in_or_out`, and the checkout guards of `delete` and `move_under`;
- node lookup by path (`get_or_create`) and guid collection over a subtree (`get_file_guids`);
- file versions (`create_version`, `get_version`) and file tags (`add_tag`, `remove_tag`);
- the lifecycle of the project's addon settings (`on_add`, `after_fork`, `after_register`).

Modules:

- `Types` (types.dfy): identifiers, node and version records, errors, log entries.
- `Forest` (forest.dfy): parent links as a map. It defines acyclicity, lineages, depth and subtrees.
- `Paths` (paths.dfy): Python's `str.strip('/')` and POSIX `os.path.join`, written out exactly.
- `FileTree` (tree.dfy): the live tree and the trash as values, with the read-only queries over them.
- `Checkout` (checkout.dfy): the decision rule of `check_in_or_out` and what a transition does to the lock state of the tree.
- `Versions` (versions.dfy) and `Tags` (tags.dfy): the version list and the tag list of one file.
- `Storage` (storage.dfy): the stateful classes.
  - `Project` holds the fields of the owning project that the core touches: registration flag, preprint file, orphan flag, log.
  - `FileStore` holds the live and trashed nodes and the tag registry.
  - `NodeSettings` is the addon settings record with its root folder.

  Each method of these classes states its whole new state in terms of the pure definitions, and keeps `FileStore.Valid()`.

Inputs that come from outside the core are parameters:

- the id the database assigns to a new root;
- the permissions the project grants a user;
- the `is_duplicate` comparison of two versions;
- the guid registry that `Guid.find` consults (`FileTree.Guids`, a parameter of `FileTree.GetFileGuids`);
- `copy_files`.

Behaviour of the Python code that the model keeps as written:

- `delete` and `move_under` refuse a node that is checked out by anybody, the actor included (`models.py:122`, `:127`).
- `remove_tag` looks the tag up in the registry (InvalidTag) before it checks the file's tags (TagNotFound) (`models.py:275-279`).
- `get_version(n)` for `1 - len(versions) <= n <= 0` wraps around to the end of the list: Python's negative indexing returns `versions[len + n - 1]`, so `n = 0` gives the latest version (`models.py:230`). `Versions.GetVersionBySelector` states the wrap-around.
- `get_file_guids` on an id that is neither live nor trashed dereferences `None` and fails (`models.py:50-59`). The model returns `Err(NoSuchNode)` for it.

## Model

| member | source | states |
|---|---|---|
| Paths.Strip | addons/osfstorage/models.py:38 | `path.strip('/')` leaves a string that neither starts nor ends with '/' |
| Paths.StripLeading | addons/osfstorage/models.py:49 | `lstrip('/')` removes exactly a prefix made of slashes and leaves a result that does not start with '/' |
| Paths.StripTrailing | addons/osfstorage/models.py:49 | `rstrip('/')` removes exactly a suffix made of slashes and leaves a result that does not end with '/' |
| Paths.StripWrapped | addons/osfstorage/models.py:38 | stripping "/" + name (+ "/") gives back a name that has no slash at either end |
| Paths.PosixJoin | addons/osfstorage/models.py:102 | `os.path.join` of one component is that component, and an absolute last component replaces everything joined before it |
| Paths.JoinSegments | addons/osfstorage/models.py:102 | `os.path.join` of "" followed by proper segments is the segments separated by single slashes; an empty first component adds nothing |
| FileTree.MaterializedPath | addons/osfstorage/models.py:82-105 | `materialized_path` always starts with "/" and ends with "/" for a folder |
| FileTree.MaterializedPathForm | addons/osfstorage/models.py:82-105 | a parentless node's path is "/"; otherwise the path is "/" + non-root names from the root down, slash-separated, + "/" for a folder |
| FileTree.MaterializedPathStep | addons/osfstorage/models.py:96-105 | a child's materialized path is its parent folder's path, then the child's name, then "/" if the child is a folder |
| FileTree.Path | addons/osfstorage/models.py:107-112 | `path` is "/" followed by the id, with one more "/" exactly for a folder |
| FileTree.PathRoundTrip | addons/osfstorage/models.py:107-112 | `path` is "/" + id (+ "/" for folders), and `strip('/')` of the path gives back the id |
| FileTree.GetOrCreate | addons/osfstorage/models.py:31-44 | it returns the existing node exactly when the stripped path names a node of the same project; otherwise it creates a node for the project with the path |
| FileTree.GetOrCreateByPath | addons/osfstorage/models.py:31-44 | looking a node up by its own path finds it for its own project and, for any other project, returns a fresh node |
| FileTree.IsCheckedOut | addons/osfstorage/models.py:303-311 | a node with its checkout set is checked out; a file is checked out exactly when its checkout is set |
| FileTree.CheckedOutIffLockBelow | addons/osfstorage/models.py:114-116 | a file is checked out iff its checkout is set; a folder iff something in its subtree holds a checkout (both directions) |
| FileTree.FileSubtree | addons/osfstorage/models.py:303-311 | a file has nothing below it, so its lock state is its own |
| FileTree.MoveUnder | addons/osfstorage/models.py:126-129 | `move_under` raises FileNodeCheckedOutError exactly when some node of the moved subtree holds a checkout |
| FileTree.FirstGuid | addons/osfstorage/models.py:69-74 | at most one guid: the first the registry lists for the node, and none when it lists none |
| FileTree.Collect | addons/osfstorage/models.py:59-75 | a file contributes at most one guid, and everything collected is the first guid of some registered referent |
| FileTree.CollectIsFilesBelow | addons/osfstorage/models.py:59-75 | the recursion over children collects exactly the first guid of every file in the subtree |
| FileTree.GetFileGuids | addons/osfstorage/models.py:46-76 | it fails with NoSuchNode exactly when the stripped path is neither a live nor a trashed id |
| FileTree.GetFileGuidsSpec | addons/osfstorage/models.py:46-76 | it fails iff the stripped path is neither live nor trashed; otherwise it returns the first guids of the files below that node, within the store it was found in |
| Checkout.Decide | addons/osfstorage/models.py:144-153 | refused iff the user lacks WRITE, or the node is locked, the lock is not the user's and the user is not ADMIN; a transition iff not refused and the request changes the lock state; the log action is CHECKED_OUT iff a user is given |
| Checkout.SetCheckout | addons/osfstorage/models.py:153 | only the checkout of the node changes |
| Checkout.UpdateKeepsShape | addons/osfstorage/models.py:153 | an in-place update that keeps the parent and kind keeps the tree well formed and its links unchanged |
| Checkout.SetCheckoutFrame | addons/osfstorage/models.py:303-311 | setting a node's checkout leaves `is_checked_out` unchanged for every node that is not an ancestor of it |
| Checkout.CheckOutLocksLineage | addons/osfstorage/models.py:152-153 | after a check-out, the node and every folder above it report checked out |
| Checkout.CheckedOutRefusesOthers | addons/osfstorage/models.py:144-148 | once one user has checked a node out, any other non-admin user is refused, whatever they request |
| Checkout.HolderChecksIn | addons/osfstorage/models.py:144-153 | the holder, given write access, checks in as a CHECKED_IN transition, and a checked-in file is free afterwards |
| Checkout.CheckInFreeIsNoOp | addons/osfstorage/models.py:150-153 | checking in a free node is no change (or is refused without WRITE) and logs nothing |
| Checkout.FolderCheckInKeepsChildLock | addons/osfstorage/models.py:303-311 | a folder checked in while a child holds a checkout still reports checked out |
| Versions.PyIndex | addons/osfstorage/models.py:230 | Python list indexing: defined exactly for `-len <= i < len`, counting from the end for negative `i`, and always an element of the list |
| Versions.GetVersion | addons/osfstorage/models.py:223-234 | it raises only VersionNotFound, only when `required` is set, and never with no selector; any version it returns comes from the list |
| Versions.GetVersionBySelector | addons/osfstorage/models.py:223-234 | no selector gives the last version or none; n in 1..len gives `versions[n-1]`; n in 1-len..0 wraps from the end; anything else misses |
| Versions.CreateVersion | addons/osfstorage/models.py:205-221 | the candidate gets identifier len+1; if the latest version is a duplicate it is returned and the list is kept, otherwise the candidate is appended and returned |
| Versions.CreateVersionKeepsDense | addons/osfstorage/models.py:207-218 | the list only grows at the end, by at most one; identifiers stay the 1-based positions; the returned version is the latest |
| Versions.CreateThenGet | addons/osfstorage/models.py:205-234 | after `create_version`, both `get_version()` and `get_version(v.identifier)` give the returned version, and older numbers still give their old versions |
| Versions.CreateTwiceStoresOnce | addons/osfstorage/models.py:209-210 | with duplicates decided by location, creating twice at one location stores one version and returns it both times |
| Versions.FreshFileScenario | addons/osfstorage/models.py:205-221 | on a fresh file: location A gives version 1; A again returns version 1 unchanged; a different location B gives version 2 |
| Tags.RemoveFirst | addons/osfstorage/models.py:281 | `list.remove` drops exactly one occurrence: length one less, multiset minus the element |
| Tags.RemoveFirstAt | addons/osfstorage/models.py:281 | `list.remove` cuts out the first position that holds the element |
| Tags.AddTag | addons/osfstorage/models.py:252-266 | it adds the tag iff the file does not carry it and the project is not a registration; adding appends the tag, otherwise the list is kept |
| Tags.RemoveTag | addons/osfstorage/models.py:268-286 | in this order: a registration raises NodeStateError; an unknown tag InvalidTagError; an absent tag TagNotFoundError; otherwise it succeeds, with the multiset of tags minus the tag |
| Tags.AddTagKeepsNoDup | addons/osfstorage/models.py:255-260 | adding keeps the list free of repeats, and a file of a non-registration carries the tag exactly once |
| Tags.RemoveTagClears | addons/osfstorage/models.py:278-281 | removing from a repeat-free list takes the tag off and keeps every other tag |
| Tags.AddThenRemove | addons/osfstorage/models.py:252-286 | `remove_tag` after a successful `add_tag` restores the old tag list |
| Storage.RootFolder | addons/osfstorage/models.py:343-344 | the root folder is named "", has no parent and belongs to the owner |
| Storage.AddRootWellFormed | addons/osfstorage/models.py:344-346 | storing a fresh parentless root keeps the tree well formed |
| Storage.FileStore.CheckInOrOut | addons/osfstorage/models.py:131-173 | it fails as `Decide` refuses; on a transition it sets the checkout and appends one log entry; otherwise the state stays unchanged |
| Storage.FileStore.Delete | addons/osfstorage/models.py:118-124 | the project is flagged a preprint orphan when the node is its preprint file, even when the delete is then refused; the delete fails iff the subtree holds a checkout |
| Storage.FileStore.CreateVersion | addons/osfstorage/models.py:205-221 | the file's versions become the `CreateVersion` list and nothing else changes; the returned version is the latest and its identifier is the list length |
| Storage.FileStore.AddTag | addons/osfstorage/models.py:252-266 | it registers, appends and (when `log` is set) logs the tag exactly when `Tags.AddTag` adds it; afterwards a non-registration file carries the tag |
| Storage.FileStore.RemoveTag | addons/osfstorage/models.py:268-286 | errors leave state and log untouched; success removes the tag and (when `log` is set) logs FILE_TAG_REMOVED; a tag the file carries is always removed on a non-registration, since every carried tag is in the registry |
| Storage.NodeSettings.OnAdd | addons/osfstorage/models.py:335-347 | it does nothing when a root exists; otherwise it stores and attaches a fresh root folder for the owner |
| Storage.NodeSettings.AfterFork | addons/osfstorage/models.py:349-359 | the clone is bound to the fork; this record gets a root first if it has none; the clone's root is the copy of this root |
| Storage.NodeSettings.AfterRegister | addons/osfstorage/models.py:361-367 | a new record bound to the registration gets its own fresh root; this record is untouched |
| Storage.NodeSettings.constructor | addons/osfstorage/models.py:350 | a cloned settings record starts with no root |

## Left out

- The generic `FileNode.delete` and `FileNode.move_under` (trashing a subtree, re-parenting, renaming) are not part of this model. `Storage.FileStore.Delete` and `FileTree.MoveUnder` model only the osfstorage overrides: the preprint flag and the checkout guard. Their success means "handed on to the generic operation".
- Cascading delete into trashed records is therefore not modelled either. The trash is a store the model reads (`get_file_guids`) but never writes.
- Persistence is not modelled: `save()`, the `save=` flags, and the search-index updates done by `OsfStorageFile.save` / `delete`. These calls only persist data or update the index.
- The log entry keeps the action, node and user. It does not keep the params dictionary (kind, project ids, download/view URLs, materialized path), which is presentation data.
- `create_version` metadata handling (`update_metadata`, `_find_matching_archive`): this is side metadata that does not change which version is stored or returned.
- `Versions.CreateVersion` and `Versions.DedupByLocation`: `FileVersion.is_duplicate` is not part of this model. The comparison is a parameter, and the dedup lemma assumes it compares locations.
- `Storage.NodeSettings.AfterFork`: `files_utils.copy_files` is not part of this model. It is a parameter that returns the copied root's id; the copied tree is not added to the store.
- `BaseNodeSettings.clone()` is not part of this model. The clone is modelled as a fresh record with no root.
- `GetFileGuids` returns a set. The source returns a list in child-query order, which the database decides.
- `GetFileGuids` ignores the `provider` and `node` arguments, which are only passed down the recursion.
- `get_file_guids` recurses through `item.path` followed by `strip('/')` (`models.py:49`, `:67`), for live and trashed children alike. The model recurses on the child's id directly. That is the same only when no node id starts or ends with '/', as for the generated ids of OSF (`FileTree.PathRoundTrip` states this for live nodes). The model does not require it of the stores, and TrashedFileNode is not part of this model.
- `Tag.load` / `Tag(_id=...)` are modelled as the set `FileStore.knownTags`.
- `get_version`: Python's `int()` is not modelled. A selector is either the integer `int()` would produce or is marked NonNumeric (ValueError).
- `touch`, `history`, `serialize`, `kind`, `folder_name`, `get_root`, `get`, `serialize_waterbutler_settings` and `serialize_waterbutler_credentials`: these are read-only adapters and formatting for the HTTP layer.
- The permission lookups `node.permissions.get(user._id, [])` and `node.get_permissions(user)` are parameters of `check_in_or_out`.
- The other files of the repository (institutions, API views, migrations) are outside the osfstorage core.
- Each file node is a record in the `FileStore` maps, not an object of its own. A method updates the record of one node in place in the map, so the model has no aliasing between node objects.
