/** rm_rf: a file, or a directory with everything below it. */
module RemoveTree {
  import opened Layout
  import opened Content
  import opened Slots
  import opened Names
  import opened Paths
  import opened VolumeState
  import opened Directory
  import opened Nodes
  import opened Tree
  import opened TreePaths
  import opened TreeOps
  import opened Resolve
  import opened Accounting
  import opened Entries
  import opened Removal
  import opened RecursiveDelete

  /** Everything at and below `path` goes, its clusters are freed, and nothing else changes. */
  method RmRf(v: Volume, path: Str) returns (r: bool)
    requires Valid(v) && FitsBuffers(v.currentPath, path)
    modifies v`disk, v`tree
    ensures Valid(v)
    ensures var key := KeyOf(v.currentPath, path);
            && (r <==> path != [] && key != [] && Get(old(v.tree), key).Some?)
            && (r ==>
                  && Removed(old(v.tree), v.tree, key)
                  && Clusters(v.tree) == Clusters(old(v.tree)) - Clusters(Get(old(v.tree), key).value))
    ensures !r ==> v.Vol() == old(v.Vol()) && v.tree == old(v.tree)
  {
    if path == [] {
      return false;
    }
    ghost var key := KeyOf(v.currentPath, path);
    RootKey(v.currentPath, path);
    var abs := NormalizePath(v.currentPath, path);
    if abs == ROOT {
      return false;
    }
    var ok, parentCluster, targetName := ResolveParent(v, path);
    NothingWithoutParent(v.tree, key);
    if !ok {
      return false;
    }
    hide *;
    r := RemoveIn(v, parentCluster, targetName, Front(key));
  }

  lemma NothingWithoutParent(t: Node, key: seq<Name>)
    requires key != []
    ensures !DirIn(t, Front(key)) ==> Get(t, key).None?
  {
    assert key == Front(key) + [Last(key)];
    GetAppend(t, Front(key), [Last(key)]);
  }

  /** Removes the entry `name` of the directory at `at`, and all that it names. */
  method RemoveIn(v: Volume, dir: nat, name: Str, ghost at: seq<Name>) returns (r: bool)
    requires Valid(v) && IsDirAt(v.tree, at, dir)
    modifies v`disk, v`tree
    ensures Valid(v)
    ensures r <==> Get(old(v.tree), at + [Fmt(name)]).Some?
    ensures r ==>
              && Removed(old(v.tree), v.tree, at + [Fmt(name)])
              && Clusters(v.tree) == Clusters(old(v.tree)) - Clusters(Get(old(v.tree), at + [Fmt(name)]).value)
    ensures !r ==> v.Vol() == old(v.Vol()) && v.tree == old(v.tree)
  {
    hide View, Represents, Balanced, NodeRep, Located, Find, First;
    ghost var vol, t := v.Vol(), v.tree;
    ghost var d := DirNode(t, at);
    OpenDir(v, at, dir, name);
    KidInTree(vol, t, at, Fmt(name));
    var found, lba, offset, entry;
    ghost var p;
    found, lba, offset, entry, p := FindEntryLocation(v, dir, name, d.chain);
    if !found {
      return false;
    }
    ghost var k := Find(DirSecs(vol, d.chain), Fmt(name));
    if !IsDirSlot(entry) {
      FileChain(vol, d.kids[k].node);
      FreeAndDelete(v, lba, offset, ClusterOf(entry), at, k, p);
      return true;
    }
    DirChain(vol, d.kids[k].node);
    var dirCluster := ClusterOf(entry);
    if dirCluster < 2 {
      assert false;
      return false;
    }
    DeleteSubtree(v, lba, offset, dirCluster, at, k, p);
    return true;
  }

  /** Frees the tree of the directory that slot k names, and marks the slot as deleted. */
  method DeleteSubtree(v: Volume, lba: nat, offset: nat, dirCluster: nat,
                       ghost at: seq<Name>, ghost k: nat, ghost p: Place)
    requires Valid(v) && DirIn(v.tree, at) && k < |DirNode(v.tree, at).kids| && DirNode(v.tree, at).kids[k].Item?
    requires var node := DirNode(v.tree, at).kids[k].node;
             node.Dir? && node.chain != [] && dirCluster == node.chain[0] && NodeRep(v.Vol(), node)
    requires InData(v.Vol().data, DirNode(v.tree, at).chain)
    requires IsAt(v.Vol(), v.bpb, DirNode(v.tree, at).chain, k, lba, offset, p)
    modifies v`disk, v`tree
    ensures Valid(v)
    ensures var kid := DirNode(old(v.tree), at).kids[k];
            && Removed(old(v.tree), v.tree, at + [kid.name])
            && Clusters(v.tree) == Clusters(old(v.tree)) - KidClusters(kid)
  {
    hide View, Represents, Balanced, Located, Freed, NodeRep, Simple;
    ghost var vol := v.Vol();
    ghost var node := DirNode(v.tree, at).kids[k].node;
    SubtreeSimple(vol, v.tree, at, k);
    ghost var z := SetOf(Clusters(node));
    DeleteDirRecursive(v, dirCluster, node);
    FinishRemoval(v, lba, offset, vol, z, at, k, p);
  }

  lemma SubtreeSimple(vol: Vol, t: Node, at: seq<Name>, k: nat)
    requires vol.WellFormed() && Represents(vol, t) && Balanced(vol, t)
    requires DirIn(t, at) && k < |DirNode(t, at).kids| && DirNode(t, at).kids[k].Item?
    ensures Simple(DirNode(t, at).kids[k].node)
  {
    OwnedApart(vol, t, at, k);
    var node := DirNode(t, at).kids[k].node;
    forall c ensures Clusters(node)[c] <= 1 {
      assert Clusters(t)[c] <= 1;
    }
  }
}
