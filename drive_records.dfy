/** The file and folder records the metadata listing delivers, and the
    acyclicity assumption the recursive passes over them rely on. */
module DriveRecords {

  datatype Option<T> = None | Some(value: T)

  /** The MIME type that marks a record as a folder. */
  const FolderMimeType: string := "application/vnd.google-apps.folder"

  /** The timestamp used when a record has no `modifiedTime`. */
  const Epoch: string := "1970-01-01T00:00:00Z"

  /** One item of the listing. A missing `parents` field is the empty sequence;
      a missing `size` or `modifiedTime` is `None`. */
  datatype Node = Node(
    id: string,
    name: string,
    mimeType: string,
    size: Option<nat>,
    modifiedTime: Option<string>,
    parents: seq<string>)

  predicate IsFolder(n: Node)
  {
    n.mimeType == FolderMimeType
  }

  /** The size of a record, 0 when the listing gives none. */
  function SizeOf(n: Node): nat
  {
    if n.size.Some? then n.size.value else 0
  }

  /** The modification time of a record, the epoch when the listing gives none. */
  function StampOf(n: Node): string
  {
    if n.modifiedTime.Some? then n.modifiedTime.value else Epoch
  }

  /** The records listed under `id` in the children index, none when `id` has no entry. */
  function ChildrenOf(children: map<string, seq<Node>>, id: string): seq<Node>
  {
    if id in children then children[id] else []
  }

  /** The children index has no cycle through folders: `height` strictly decreases
      from a parent id to the id of every folder listed under it. The recursive
      passes descend only into folders, so this is what makes them terminate. */
  ghost predicate FolderEdgesDescend(children: map<string, seq<Node>>, height: string -> nat)
  {
    forall p, i :: p in children && 0 <= i < |children[p]| && IsFolder(children[p][i]) ==>
      height(children[p][i].id) < height(p)
  }
}
