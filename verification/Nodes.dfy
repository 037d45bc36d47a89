/** The files and directories that a volume holds, as a tree. */
module Nodes {
  import opened Bytes
  import opened Slots

  /** A directory has one Kid for each of its slots: a Hole for a slot that names nothing. */
  datatype Kid = Hole | Item(name: Name, node: Node)

  /** A file or directory with the cluster chain that stores it; the root directory has no chain. */
  datatype Node =
    | File(chain: seq<nat>, bytes: seq<Byte>)
    | Dir(chain: seq<nat>, kids: seq<Kid>)
}
