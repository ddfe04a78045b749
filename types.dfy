/** Shared vocabulary of the osfstorage file tree: identifiers, the records
    kept for live and trashed file nodes, file versions, log entries, the
    error conditions the operations raise, and two small wrappers. */
module Types {

  datatype Option<+T> = None | Some(value: T)

  /** The exceptions raised by the modelled operations. */
  datatype Error =
    | FileNodeCheckedOut   // a checked-out node blocks the request
    | VersionNotFound      // `get_version(..., required=True)` missed
    | NodeState            // tag edit on a registration
    | InvalidTag           // the tag is not known to the tag registry
    | TagNotFound          // the file does not carry the tag
    | NoSuchNode           // neither the live nor the trashed store holds the id

  datatype Result<+T> = Ok(value: T) | Err(error: Error)

  /** Success or failure of an operation that returns nothing. */
  datatype Outcome = Pass | Fail(error: Error)

  type NodeId = string
  type UserId = string
  type ProjectId = string
  type TagName = string
  type GuidId = string

  /** The WaterButler location descriptor of a stored blob. */
  type Location = map<string, string>

  datatype Permission = Read | Write | Admin

  datatype Kind = File | Folder

  /** One stored version of a file; `identifier` is its 1-based position. */
  datatype FileVersion = FileVersion(identifier: nat, creator: UserId, location: Location)

  /** A live osfstorage file node.  `parent` links it into the tree, `owner`
      is the project it belongs to, `checkout` the user holding the lock.
      Only files use `versions` and `tags`. */
  datatype FileNode = FileNode(
    name: string,
    parent: Option<NodeId>,
    owner: ProjectId,
    kind: Kind,
    checkout: Option<UserId>,
    versions: seq<FileVersion>,
    tags: seq<TagName>)

  /** A trashed record: what survives of a deleted node. */
  datatype TrashedNode = TrashedNode(name: string, parent: Option<NodeId>, owner: ProjectId, isFile: bool)

  datatype LogAction = CheckedOut | CheckedIn | FileTagAdded(tag: TagName) | FileTagRemoved(tag: TagName)

  /** An entry of a project's log: what happened, to which node, by whom. */
  datatype LogEntry = LogEntry(action: LogAction, node: NodeId, user: UserId)
}
