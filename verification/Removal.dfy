/** rm and rmdir: freeing what an entry names and marking its slot as deleted. */
module Removal {
  import opened Layout
  import opened Chains
  import opened Content
  import opened Slots
  import opened Names
  import opened VolumeState
  import opened Directory
  import opened Nodes
  import opened Tree
  import opened TreePaths
  import opened TreeOps
  import opened Resolve
  import opened Accounting
  import opened Entries

  /** Frees the chain that a slot names, if it names one. */
  method FreeEntryChain(v: Volume, first: nat, ghost ch: seq<nat>)
    requires v.Mounted() && first == Head(ch) && (ch != [] ==> IsChain(v.Vol(), ch))
    modifies v`disk
    ensures v.Mounted() && v.Vol() == old(v.Vol()).(fat := Zeroed(old(v.Vol()).fat, Elems(ch)))
  {
    hide View;
    if first != 0 {
      assert ch != [];
      ChainReachable(v.Vol(), ch);
      ChainLinksInside(v.Vol(), ch);
      v.FreeClusterChain(first);
    } else {
      assert ch != [] ==> v.Vol().IsCluster(ch[0]);
      NothingZeroed(v.Vol().fat);
      assert Elems(ch) == {};
    }
  }

  /** Marks slot k of the directory ch as deleted. */
  method MarkDeleted(v: Volume, lba: nat, offset: nat, ghost c: nat, ghost ch: seq<nat>, ghost k: nat, ghost p: Place)
    requires v.Mounted() && IsDirChain(v.Vol(), c, ch) && IsAt(v.Vol(), v.bpb, ch, k, lba, offset, p)
    modifies v`disk
    ensures v.Mounted()
    ensures SlotWritten(old(v.Vol()), v.Vol(), ch, k, Deleted(SlotAt(DirSecs(old(v.Vol()), ch), k)))
  {
    hide View, Located, SlotWritten;
    var slot := ReadSlot(v, lba, offset, ch, k, p);
    WriteSlot(v, lba, offset, Deleted(slot), c, ch, k, p);
  }

  /** The disk with the clusters z freed, and possibly scribbled on: their words are zero, and every other
      cluster has its word and contents. */
  ghost predicate Freed(vol: Vol, vol': Vol, z: set<nat>)
    requires vol.WellFormed() && vol'.WellFormed()
  {
    && vol'.spc == vol.spc && vol'.root == vol.root && |vol'.data| == |vol.data|
    && vol'.fat == Zeroed(vol.fat, z)
    && forall c :: 0 <= c < |vol.data| && c !in z ==> vol'.data[c] == vol.data[c]
  }

  /** Freeing what slot k names leaves the directory where it was. */
  lemma DirAfterFree(vol: Vol, vol': Vol, t: Node, at: seq<Name>, k: nat, z: set<nat>)
    requires vol.WellFormed() && vol'.WellFormed() && Represents(vol, t) && Balanced(vol, t)
    requires DirIn(t, at) && k < |DirNode(t, at).kids|
    requires Freed(vol, vol', z) && forall c :: c in z <==> c in KidClusters(DirNode(t, at).kids[k])
    ensures var ch := DirNode(t, at).chain;
            && InData(vol.data, ch) && InData(vol'.data, ch)
            && IsDirChain(vol', Head(ch), ch) && DirSecs(vol', ch) == DirSecs(vol, ch)
            && forall b, lba, offset, p :: IsAt(vol, b, ch, k, lba, offset, p) ==> IsAt(vol', b, ch, k, lba, offset, p)
  {
    var ch := DirNode(t, at).chain;
    OwnedApart(vol, t, at, k);
    DirOnDisk(vol, t, at);
    forall i | 0 <= i < |ch| ensures vol'.fat[ch[i]] == vol.fat[ch[i]] && vol'.data[ch[i]] == vol.data[ch[i]] {
      assert ch[i] in ch;
    }
    if ch != [] {
      ChainFrame(vol, vol', ch);
    }
    CatFrame(vol.data, vol'.data, ch);
    LocatedKept(vol, vol', ch, k / 16);
  }

  lemma LocatedKept(vol: Vol, vol': Vol, ch: seq<nat>, j: nat)
    requires vol.WellFormed() && vol'.WellFormed() && InData(vol.data, ch) && |vol'.data| == |vol.data|
    requires vol'.root == vol.root && forall i :: 0 <= i < |ch| ==> vol'.data[ch[i]] == vol.data[ch[i]]
    ensures forall p :: Located(vol, ch, j, p) ==> Located(vol', ch, j, p)
  {
    forall p | Located(vol, ch, j, p) ensures Located(vol', ch, j, p) {
      if p.InCluster? {
        var i: nat :| LocatedIn(vol, ch, j, p.c, p.s, i);
        CatFrame(vol.data, vol'.data, ch[..i]);
        assert LocatedIn(vol', ch, j, p.c, p.s, i);
      }
    }
  }

  /** Freeing what slot k names and marking the slot deleted. */
  lemma RemovalConfined(vol: Vol, vol1: Vol, vol2: Vol, t: Node, at: seq<Name>, k: nat, z: set<nat>, x: Slot)
    requires vol.WellFormed() && vol1.WellFormed() && vol2.WellFormed() && Represents(vol, t) && Balanced(vol, t)
    requires DirIn(t, at) && k < |DirNode(t, at).kids|
    requires Freed(vol, vol1, z) && forall c :: c in z <==> c in KidClusters(DirNode(t, at).kids[k])
    requires InData(vol1.data, DirNode(t, at).chain) && k < Count(DirSecs(vol1, DirNode(t, at).chain))
    requires SlotWritten(vol1, vol2, DirNode(t, at).chain, k, x)
    ensures Confined(vol, vol2, DirNode(t, at), k, x)
    ensures Accounted(vol, vol2, KidClusters(DirNode(t, at).kids[k]), multiset{})
  {
    DirAfterFree(vol, vol1, t, at, k, z);
    DirOnDisk(vol, t, at);
    OwnedApart(vol, t, at, k);
  }

  /** The tree without the entry. */
  lemma RemoveCommit(vol: Vol, vol': Vol, t: Node, at: seq<Name>, k: nat, x: Slot) returns (t': Node)
    requires vol.WellFormed() && vol'.WellFormed() && Represents(vol, t) && Balanced(vol, t)
    requires DirIn(t, at) && k < |DirNode(t, at).kids| && DirNode(t, at).kids[k].Item?
    requires Confined(vol, vol', DirNode(t, at), k, x) && IsVacant(x) && !IsEnd(x)
    requires Accounted(vol, vol', KidClusters(DirNode(t, at).kids[k]), multiset{})
    ensures Represents(vol', t') && Balanced(vol', t')
    ensures Removed(t, t', at + [DirNode(t, at).kids[k].name])
    ensures Clusters(t') == Clusters(t) - KidClusters(DirNode(t, at).kids[k])
  {
    var d := DirNode(t, at);
    DirOnDisk(vol, t, at);
    assert KidRep(vol, SlotAt(DirSecs(vol, d.chain), k), d.kids[k]);
    TidyChanged(DirSecs(vol, d.chain), k, x);
    assert KidRep(vol', x, Hole) && KidClusters(Hole) == multiset{} && DistinctKids(d.kids[k := Hole]);
    t' := PutKid(t, at, k, Hole);
    PutKidClusters(t, at, k, Hole);
    hide *;
    Commit(vol, vol', t, at, k, x, Hole);
    StatRemove(vol, t, at, k);
  }

  lemma KidInTree(vol: Vol, t: Node, at: seq<Name>, name: Name)
    requires vol.WellFormed() && Represents(vol, t) && DirIn(t, at) && name[0] != DOT
    ensures var d := DirNode(t, at);
            && InData(vol.data, d.chain) && |d.kids| == Count(DirSecs(vol, d.chain))
            && var k := Find(DirSecs(vol, d.chain), name);
            k < |d.kids| ==>
              && d.kids[k].Item? && d.kids[k].name == name && Get(t, at + [name]) == Some(d.kids[k].node)
              && SlotNames(SlotAt(DirSecs(vol, d.chain), k), d.kids[k].node) && NodeRep(vol, d.kids[k].node)
  {
    StepInto(vol, t, at, name);
    DirOnDisk(vol, t, at);
    var d := DirNode(t, at);
    var k := IndexOf(d.kids, name);
    if k < |d.kids| {
      assert KidRep(vol, SlotAt(DirSecs(vol, d.chain), k), d.kids[k]);
    }
  }

  /** The state in which what slot k names has been freed, but the slot and the tree still have it. */
  ghost predicate KidFreed(v: Volume, vol: Vol, at: seq<Name>, k: nat, z: set<nat>)
    reads v
  {
    && v.Mounted() && vol.WellFormed() && Represents(vol, v.tree) && Balanced(vol, v.tree)
    && DirIn(v.tree, at) && k < |DirNode(v.tree, at).kids| && DirNode(v.tree, at).kids[k].Item?
    && Freed(vol, v.Vol(), z) && (forall c :: c in z <==> c in KidClusters(DirNode(v.tree, at).kids[k]))
    && InData(vol.data, DirNode(v.tree, at).chain)
  }

  /** Marks the slot of a freed entry as deleted, and takes the entry out of the tree. */
  method FinishRemoval(v: Volume, lba: nat, offset: nat,
                       ghost vol: Vol, ghost z: set<nat>, ghost at: seq<Name>, ghost k: nat, ghost p: Place)
    requires KidFreed(v, vol, at, k, z) && IsAt(vol, v.bpb, DirNode(v.tree, at).chain, k, lba, offset, p)
    modifies v`disk, v`tree
    ensures Valid(v)
    ensures var kid := DirNode(old(v.tree), at).kids[k];
            && Removed(old(v.tree), v.tree, at + [kid.name])
            && Clusters(v.tree) == Clusters(old(v.tree)) - KidClusters(kid)
  {
    ghost var t, vol1 := v.tree, v.Vol();
    ghost var d := DirNode(t, at);
    DirAfterFree(vol, vol1, t, at, k, z);
    assert k < Count(DirSecs(vol1, d.chain));
    hide *;
    MarkDeleted(v, lba, offset, Head(d.chain), d.chain, k, p);
    ghost var x := Deleted(SlotAt(DirSecs(vol1, d.chain), k));
    v.tree := RemovalDone(vol, vol1, v.Vol(), t, at, k, z, x);
    ValidNow(v);
  }

  lemma RemovalDone(vol: Vol, vol1: Vol, vol2: Vol, t: Node, at: seq<Name>, k: nat, z: set<nat>, x: Slot)
    returns (t': Node)
    requires vol.WellFormed() && vol1.WellFormed() && vol2.WellFormed() && Represents(vol, t) && Balanced(vol, t)
    requires DirIn(t, at) && k < |DirNode(t, at).kids| && DirNode(t, at).kids[k].Item?
    requires Freed(vol, vol1, z) && forall c :: c in z <==> c in KidClusters(DirNode(t, at).kids[k])
    requires InData(vol1.data, DirNode(t, at).chain) && k < Count(DirSecs(vol1, DirNode(t, at).chain))
    requires SlotWritten(vol1, vol2, DirNode(t, at).chain, k, x) && IsVacant(x) && !IsEnd(x)
    ensures Represents(vol2, t') && Balanced(vol2, t')
    ensures Removed(t, t', at + [DirNode(t, at).kids[k].name])
    ensures Clusters(t') == Clusters(t) - KidClusters(DirNode(t, at).kids[k])
  {
    hide *;
    RemovalConfined(vol, vol1, vol2, t, at, k, z, x);
    t' := RemoveCommit(vol, vol2, t, at, k, x);
  }

  /** Frees the chain of the entry in slot k, marks the slot as deleted, and takes the entry out of the tree. */
  method FreeAndDelete(v: Volume, lba: nat, offset: nat, first: nat,
                       ghost at: seq<Name>, ghost k: nat, ghost p: Place)
    requires Valid(v) && DirIn(v.tree, at) && k < |DirNode(v.tree, at).kids| && DirNode(v.tree, at).kids[k].Item?
    requires var node := DirNode(v.tree, at).kids[k].node;
             && first == Head(node.chain) && Clusters(node) == multiset(node.chain)
             && (node.chain != [] ==> IsChain(v.Vol(), node.chain))
    requires InData(v.Vol().data, DirNode(v.tree, at).chain)
    requires IsAt(v.Vol(), v.bpb, DirNode(v.tree, at).chain, k, lba, offset, p)
    modifies v`disk, v`tree
    ensures Valid(v)
    ensures var kid := DirNode(old(v.tree), at).kids[k];
            && Removed(old(v.tree), v.tree, at + [kid.name])
            && Clusters(v.tree) == Clusters(old(v.tree)) - KidClusters(kid)
  {
    hide View, Represents, Balanced, Located;
    ghost var vol := v.Vol();
    ghost var node := DirNode(v.tree, at).kids[k].node;
    ghost var z := Elems(node.chain);
    assert forall c :: c in z <==> c in multiset(node.chain);
    FreeEntryChain(v, first, node.chain);
    FreedChain(vol, v.Vol(), z);
    FinishRemoval(v, lba, offset, vol, z, at, k, p);
  }

  lemma FreedChain(vol: Vol, vol': Vol, z: set<nat>)
    requires vol.WellFormed() && vol' == vol.(fat := Zeroed(vol.fat, z))
    ensures vol'.WellFormed() && Freed(vol, vol', z)
  {
  }

  // ---------- rm ----------

  /** Deletes a file of the current directory. */
  method Rm(v: Volume, filename: Str, ghost at: seq<Name>) returns (r: int)
    requires Valid(v) && IsDirAt(v.tree, at, v.currentDirCluster)
    modifies v`disk, v`tree
    ensures Valid(v)
    ensures r == (if filename == [] then 0
                  else match Stat(old(v.tree), at + [Fmt(filename)])
                       case Absent => 0
                       case IsDir(_) => -1
                       case IsFile(_, _) => 1)
    ensures r != 1 ==> v.Vol() == old(v.Vol()) && v.tree == old(v.tree)
    ensures r == 1 ==>
              && Removed(old(v.tree), v.tree, at + [Fmt(filename)])
              && Clusters(v.tree) == Clusters(old(v.tree)) - multiset(Stat(old(v.tree), at + [Fmt(filename)]).chain)
  {
    hide View, Represents, Balanced, NodeRep, Located, Find, First;
    if filename == [] {
      return 0;
    }
    ghost var vol, t := v.Vol(), v.tree;
    ghost var d := DirNode(t, at);
    OpenDir(v, at, v.currentDirCluster, filename);
    KidInTree(vol, t, at, Fmt(filename));
    var found, lba, offset, entry;
    ghost var p;
    found, lba, offset, entry, p := FindEntryLocation(v, v.currentDirCluster, filename, d.chain);
    if !found {
      return 0;
    }
    if IsDirSlot(entry) {
      return -1;
    }
    ghost var k := Find(DirSecs(vol, d.chain), Fmt(filename));
    FileChain(vol, d.kids[k].node);
    FreeAndDelete(v, lba, offset, ClusterOf(entry), at, k, p);
    return 1;
  }

  lemma FileChain(vol: Vol, node: Node)
    requires vol.WellFormed() && NodeRep(vol, node) && node.File?
    ensures node.chain != [] ==> IsChain(vol, node.chain)
    ensures Clusters(node) == multiset(node.chain)
  {
  }

  // ---------- rmdir ----------

  ghost predicate IsEmptyDir(node: Node) {
    node.Dir? && forall i :: 0 <= i < |node.kids| ==> node.kids[i].Hole?
  }

  lemma {:induction false} NoKidsNoClusters(kids: seq<Kid>)
    requires forall i :: 0 <= i < |kids| ==> kids[i].Hole?
    ensures KidsClusters(kids) == multiset{}
  {
    if kids != [] {
      NoKidsNoClusters(kids[1..]);
    }
  }

  /** is_dir_empty tells whether the tree has nothing in the directory. */
  lemma EmptyOnDisk(vol: Vol, d: Node)
    requires vol.WellFormed() && NodeRep(vol, d) && d.Dir? && InData(vol.data, d.chain)
    ensures var secs := DirSecs(vol, d.chain);
            var k := First(secs, Occupied);
            IsEmptyDir(d) <==> k == Count(secs) || IsEnd(SlotAt(secs, k))
  {
    var secs := DirSecs(vol, d.chain);
    var k := First(secs, Occupied);
    assert forall i :: 0 <= i < |d.kids| ==> KidRep(vol, SlotAt(secs, i), d.kids[i]);
    assert forall i :: 0 <= i < |d.kids| ==> (d.kids[i].Hole? <==> !IsLive(SlotAt(secs, i)));
    if k < Count(secs) && !IsEnd(SlotAt(secs, k)) {
      assert d.kids[k].Item?;
    }
  }

  /** Deletes an empty directory of the current directory. */
  method Rmdir(v: Volume, dirname: Str, ghost at: seq<Name>) returns (r: int)
    requires Valid(v) && IsDirAt(v.tree, at, v.currentDirCluster)
    modifies v`disk, v`tree
    ensures Valid(v)
    ensures r == (if dirname == [] || Get(old(v.tree), at + [Fmt(dirname)]).None? then 0
                  else if Get(old(v.tree), at + [Fmt(dirname)]).value.File? then -1
                  else if !IsEmptyDir(Get(old(v.tree), at + [Fmt(dirname)]).value) then -2
                  else 1)
    ensures r != 1 ==> v.Vol() == old(v.Vol()) && v.tree == old(v.tree)
    ensures r == 1 ==>
              && Removed(old(v.tree), v.tree, at + [Fmt(dirname)])
              && Clusters(v.tree) == Clusters(old(v.tree)) - multiset(Stat(old(v.tree), at + [Fmt(dirname)]).chain)
  {
    hide View, Represents, Balanced, NodeRep, Located, Find, First;
    if dirname == [] {
      return 0;
    }
    ghost var vol, t := v.Vol(), v.tree;
    ghost var d := DirNode(t, at);
    OpenDir(v, at, v.currentDirCluster, dirname);
    KidInTree(vol, t, at, Fmt(dirname));
    var found, lba, offset, entry;
    ghost var p;
    found, lba, offset, entry, p := FindEntryLocation(v, v.currentDirCluster, dirname, d.chain);
    if !found {
      return 0;
    }
    if !IsDirSlot(entry) {
      return -1;
    }
    ghost var k := Find(DirSecs(vol, d.chain), Fmt(dirname));
    ghost var node := d.kids[k].node;
    DirChain(vol, node);
    var dirCluster := ClusterOf(entry);
    if dirCluster == 0 {
      assert false;
      return 0;
    }
    EmptyOnDisk(vol, node);
    var empty := IsDirEmpty(v, dirCluster, node.chain);
    if !empty {
      return -2;
    }
    NoKidsNoClusters(node.kids);
    FreeAndDelete(v, lba, offset, dirCluster, at, k, p);
    return 1;
  }

  lemma DirChain(vol: Vol, node: Node)
    requires vol.WellFormed() && NodeRep(vol, node) && node.Dir? && node.chain != []
    ensures IsChain(vol, node.chain) && vol.IsCluster(node.chain[0]) && InData(vol.data, node.chain)
  {
  }
}
