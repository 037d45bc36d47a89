/** Which clusters an operation may touch, and why every cluster in use keeps belonging to exactly one chain. */
module Accounting {
  import opened Layout
  import opened Chains
  import opened Content
  import opened Slots
  import opened Directory
  import opened FileData
  import opened VolumeState
  import opened Nodes
  import opened Tree
  import opened TreeOps
  import opened Resolve

  /** The disk holds the tree, and every cluster in use belongs to exactly one chain of it. */
  ghost predicate Valid(v: Volume)
    reads v
  {
    Holding(v) && Balanced(v.Vol(), v.tree)
  }

  function KidChain(kid: Kid): seq<nat> {
    if kid.Hole? then [] else kid.node.chain
  }

  ghost predicate IsFileOrHole(kid: Kid) {
    kid.Item? ==> kid.node.File?
  }

  lemma FileKidClusters(kid: Kid)
    requires IsFileOrHole(kid)
    ensures KidClusters(kid) == multiset(KidChain(kid))
  {
  }

  /** The clusters of a directory's own chain and of one kid are in use, distinct, and in no other chain. */
  lemma OwnedApart(vol: Vol, t: Node, path: seq<Name>, k: nat)
    requires vol.WellFormed() && Represents(vol, t) && Balanced(vol, t)
    requires DirIn(t, path) && k < |DirNode(t, path).kids|
    ensures var d := DirNode(t, path);
            && multiset(d.chain) + KidClusters(d.kids[k]) <= Clusters(t)
            && (forall c :: c in d.chain ==> InUse(vol, c) && c !in KidClusters(d.kids[k]))
            && (forall c :: c in KidClusters(d.kids[k]) ==> InUse(vol, c) && c !in d.chain)
            && forall c :: c in Clusters(t) - multiset(d.chain) - KidClusters(d.kids[k]) ==>
                             InUse(vol, c) && c !in d.chain && c !in KidClusters(d.kids[k])
  {
    var d := DirNode(t, path);
    PutKidClusters(t, path, k, Hole);
    assert multiset(d.chain) + KidClusters(d.kids[k]) <= Clusters(t);
    forall c | c in d.chain ensures InUse(vol, c) && c !in KidClusters(d.kids[k]) {
      assert c in multiset(d.chain);
      assert Clusters(t)[c] <= 1;
    }
  }

  /** Exchanging the clusters `gone` for `come` keeps the books balanced. */
  lemma Rebalance(vol: Vol, vol': Vol, t: Node, t': Node, gone: multiset<nat>, come: multiset<nat>)
    requires vol.WellFormed() && vol'.WellFormed() && Balanced(vol, t)
    requires gone <= Clusters(t) && Clusters(t') == Clusters(t) - gone + come
    requires forall c :: come[c] <= 1
    requires forall c :: c in come && InUse(vol, c) ==> c in gone
    requires forall c :: InUse(vol', c) <==> c in come || (InUse(vol, c) && c !in gone)
    ensures Balanced(vol', t')
  {
  }

  lemma ChainOnce(vol: Vol, ch: seq<nat>)
    requires vol.WellFormed() && (ch != [] ==> IsChain(vol, ch))
    ensures forall c :: multiset(ch)[c] <= 1
    ensures forall c :: c in ch ==> InUse(vol, c)
  {
    if ch != [] {
      ChainAcyclic(vol, ch);
      DistinctOnce(ch);
      forall i | 0 <= i < |ch| ensures InUse(vol, ch[i]) {
        ChainWord(vol, ch, i);
        assert i + 1 < |ch| ==> vol.IsCluster(ch[i + 1]);
      }
    }
  }

  lemma {:induction false} DistinctOnce(s: seq<nat>)
    requires forall i, j :: 0 <= i < j < |s| ==> s[i] != s[j]
    ensures forall c :: multiset(s)[c] <= 1
  {
    if s != [] {
      DistinctOnce(Front(s));
      assert s == Front(s) + [Last(s)];
      assert Last(s) !in Front(s);
    }
  }

  // ---------- committing a change ----------

  /** vol' differs from vol in slot k of the directory d, in the clusters of what that slot named, and in clusters
      that were free: every other cluster in use keeps its word and, outside d's own chain, its contents. */
  ghost predicate Confined(vol: Vol, vol': Vol, d: Node, k: nat, x: Slot)
    requires vol.WellFormed() && vol'.WellFormed() && d.Dir? && k < |d.kids|
  {
    && vol'.spc == vol.spc && |vol'.data| == |vol.data| && |vol'.fat| == |vol.fat|
    && (d.chain != [] ==> vol'.root == vol.root)
    && InData(vol.data, d.chain) && |d.kids| == Count(DirSecs(vol, d.chain))
    && DirSecs(vol', d.chain) == SetSlot(DirSecs(vol, d.chain), k, x)
    && forall c: nat :: InUse(vol, c) && c !in KidClusters(d.kids[k]) ==>
                     vol'.fat[c] == vol.fat[c] && (c !in d.chain ==> vol'.data[c] == vol.data[c])
  }

  /** The clusters in use after the change: those before it, without the old kid's, with the new kid's. */
  ghost predicate Accounted(vol: Vol, vol': Vol, gone: multiset<nat>, come: multiset<nat>)
    requires vol.WellFormed() && vol'.WellFormed()
  {
    && (forall c :: come[c] <= 1)
    && (forall c :: c in come && InUse(vol, c) ==> c in gone)
    && forall c :: InUse(vol', c) <==> c in come || (InUse(vol, c) && c !in gone)
  }

  lemma CommitRep(vol: Vol, vol': Vol, t: Node, path: seq<Name>, k: nat, x: Slot, kid': Kid)
    requires vol.WellFormed() && vol'.WellFormed() && Represents(vol, t) && Balanced(vol, t)
    requires DirIn(t, path) && k < |DirNode(t, path).kids|
    requires Confined(vol, vol', DirNode(t, path), k, x)
    requires Tidy(DirSecs(vol', DirNode(t, path).chain))
    requires KidRep(vol', x, kid') && DistinctKids(DirNode(t, path).kids[k := kid'])
    ensures Represents(vol', PutKid(t, path, k, kid'))
  {
    var d := DirNode(t, path);
    OwnedApart(vol, t, path, k);
    DirOnDisk(vol, t, path);
    if d.chain != [] {
      forall i | 0 <= i < |d.chain| ensures vol'.fat[d.chain[i]] == vol.fat[d.chain[i]] {
        assert d.chain[i] in d.chain;
      }
      ChainFrame(vol, vol', d.chain);
    }
    ReplaceKid(vol, vol', t, path, k, x, kid');
  }

  /** The step that ends every operation: the tree with one kid replaced is what the disk now holds. */
  lemma Commit(vol: Vol, vol': Vol, t: Node, path: seq<Name>, k: nat, x: Slot, kid': Kid)
    requires vol.WellFormed() && vol'.WellFormed() && Represents(vol, t) && Balanced(vol, t)
    requires DirIn(t, path) && k < |DirNode(t, path).kids|
    requires Confined(vol, vol', DirNode(t, path), k, x)
    requires Tidy(DirSecs(vol', DirNode(t, path).chain))
    requires KidRep(vol', x, kid') && DistinctKids(DirNode(t, path).kids[k := kid'])
    requires Accounted(vol, vol', KidClusters(DirNode(t, path).kids[k]), KidClusters(kid'))
    ensures Represents(vol', PutKid(t, path, k, kid')) && Balanced(vol', PutKid(t, path, k, kid'))
  {
    CommitRep(vol, vol', t, path, k, x, kid');
    PutKidClusters(t, path, k, kid');
    OwnedApart(vol, t, path, k);
    Rebalance(vol, vol', t, PutKid(t, path, k, kid'), KidClusters(DirNode(t, path).kids[k]), KidClusters(kid'));
  }

  // ---------- conservation of clusters ----------

  ghost function Used(vol: Vol): (r: set<nat>)
    requires vol.WellFormed()
    ensures forall c :: c in r <==> InUse(vol, c)
  {
    set c {:trigger vol.IsCluster(c)} | 0 <= c < |vol.data| && vol.IsCluster(c) && vol.fat[c] != 0
  }

  ghost function Upto(n: nat): (r: set<nat>)
    ensures forall c :: c in r <==> 2 <= c < n
  {
    set c {:trigger c + 0} | 2 <= c < n
  }

  lemma {:induction false} UptoCount(n: nat)
    requires n >= 2
    ensures |Upto(n)| == n - 2
  {
    if n == 2 {
      assert Upto(n) == {};
    } else {
      UptoCount(n - 1);
      assert Upto(n) == Upto(n - 1) + {n - 1};
    }
  }

  /** Every cluster is free or belongs to exactly one chain: the two counts add up to the number of clusters. */
  lemma Conservation(vol: Vol, t: Node)
    requires vol.WellFormed() && Balanced(vol, t)
    ensures |FreeClusters(vol)| + |Clusters(t)| == |vol.data| - 2
  {
    assert Clusters(t) == multiset(Used(vol));
    assert FreeClusters(vol) + Used(vol) == Upto(|vol.data|) && FreeClusters(vol) !! Used(vol);
    UptoCount(|vol.data|);
  }
}
