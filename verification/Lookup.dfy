/** The directory searches, told in terms of what a path names in the tree. */
module Lookup {
  import opened Bytes
  import opened Layout
  import opened Chains
  import opened Content
  import opened Slots
  import opened Names
  import opened Paths
  import opened VolumeState
  import opened Directory
  import opened Nodes
  import opened TreeOps
  import opened Resolve
  import opened Entries
  import opened Removal

  /** The slot says what the path names. */
  ghost predicate EntryIs(s: Slot, e: Entry) {
    match e
    case Absent => false
    case IsDir(ch) => IsDirSlot(s) && ch != [] && ClusterOf(s) == ch[0] >= 2
    case IsFile(ch, bytes) =>
      && !IsDirSlot(s) && AttrOf(s) != LONG_NAME && SizeOf(s) == |bytes| && (bytes == [] <==> ch == [])
      && ClusterOf(s) == Head(ch) && (ch != [] ==> ClusterOf(s) >= 2)
  }

  lemma EntryFacts(v: Volume, at: seq<Name>, c: nat, name: Str)
    requires Holding(v) && IsDirAt(v.tree, at, c)
    ensures v.Mounted() && DirIn(v.tree, at)
    ensures var ch := DirNode(v.tree, at).chain;
            && InData(v.Vol().data, ch) && IsDirChain(v.Vol(), c, ch)
            && var secs, e := DirSecs(v.Vol(), ch), Stat(v.tree, at + [Fmt(name)]);
            && (Find(secs, Fmt(name)) < Count(secs) <==> !e.Absent?)
            && (Find(secs, Fmt(name)) < Count(secs) ==> EntryIs(SlotAt(secs, Find(secs, Fmt(name))), e))
  {
    LookDir(v, at, c, name);
    KidInTree(v.Vol(), v.tree, at, Fmt(name));
    var d := DirNode(v.tree, at);
    var k := Find(DirSecs(v.Vol(), d.chain), Fmt(name));
    if k < |d.kids| {
      var node := d.kids[k].node;
      assert node.chain != [] ==> v.Vol().IsCluster(node.chain[0]);
    }
  }

  /** find_entry in the directory at `at`. */
  method FindIn(v: Volume, dir: nat, name: Str, ghost at: seq<Name>) returns (found: bool, entry: Slot)
    requires Holding(v) && IsDirAt(v.tree, at, dir)
    ensures found <==> !Stat(v.tree, at + [Fmt(name)]).Absent?
    ensures found ==> EntryIs(entry, Stat(v.tree, at + [Fmt(name)]))
  {
    hide View, Find, DirSecs, Stat, EntryIs, IsDirChain, Represents;
    EntryFacts(v, at, dir, name);
    found, entry := FindEntry(v, dir, name, DirNode(v.tree, at).chain);
  }

  /** Slot k of the directory at `at`, which lies at the given place, names `name`. */
  ghost predicate FoundAt(vol: Vol, t: Node, b: Bpb, at: seq<Name>, name: Name, lba: nat, offset: nat, k: nat,
        p: Place) {
    && DirIn(t, at) && InData(vol.data, DirNode(t, at).chain)
    && k == Find(DirSecs(vol, DirNode(t, at).chain), name)
    && IsAt(vol, b, DirNode(t, at).chain, k, lba, offset, p)
  }

  /** find_entry_location in the directory at `at`. */
  method LocateIn(v: Volume, dir: nat, name: Str, ghost at: seq<Name>)
    returns (found: bool, lba: nat, offset: nat, entry: Slot, ghost k: nat, ghost p: Place)
    requires Holding(v) && IsDirAt(v.tree, at, dir)
    ensures v.Mounted() && (found <==> !Stat(v.tree, at + [Fmt(name)]).Absent?)
    ensures found ==> EntryIs(entry, Stat(v.tree, at + [Fmt(name)]))
                      && FoundAt(v.Vol(), v.tree, v.bpb, at, Fmt(name), lba, offset, k, p)
  {
    hide View, Find, DirSecs, Stat, EntryIs, IsDirChain, IsAt, Represents;
    EntryFacts(v, at, dir, name);
    ghost var ch := DirNode(v.tree, at).chain;
    found, lba, offset, entry, p := FindEntryLocation(v, dir, name, ch);
    k := Find(DirSecs(v.Vol(), ch), Fmt(name));
  }

  /** What find_entry finds after normalize_path, split_path and resolve_absolute. */
  method FindPath(v: Volume, path: Str) returns (found: bool, entry: Slot)
    requires Holding(v) && FitsBuffers(v.currentPath, path)
    ensures var key := KeyOf(v.currentPath, path);
            && (found <==> key != [] && !Stat(v.tree, key).Absent?)
            && (found ==> EntryIs(entry, Stat(v.tree, key)))
  {
    hide View, Holding, Stat, EntryIs, FitsBuffers, KeyOf, DirIn;
    var ok, parent, name := ResolveParent(v, path);
    if KeyOf(v.currentPath, path) != [] {
      AbsentWithoutParent(v.tree, KeyOf(v.currentPath, path));
    }
    if !ok {
      return false, Zeros(32);
    }
    found, entry := FindIn(v, parent, name, Front(KeyOf(v.currentPath, path)));
  }

  lemma AbsentWithoutParent(t: Node, key: seq<Name>)
    requires key != []
    ensures !DirIn(t, Front(key)) ==> Stat(t, key).Absent?
  {
    assert key == Front(key) + [Last(key)];
    GetAppend(t, Front(key), [Last(key)]);
  }
}
