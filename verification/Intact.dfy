/** What a failed operation leaves in order: every directory, and every file but the one it was working on. */
module Intact {
  import opened Layout
  import opened Chains
  import opened Content
  import opened Slots
  import opened Directory
  import opened Nodes
  import opened Tree
  import opened TreePaths
  import opened TreeOps

  /** The slots of the directory are those of the tree, whatever the files they name may hold. */
  ghost predicate DirShown(vol: Vol, d: Node)
    requires vol.WellFormed()
  {
    && d.Dir? && (d.chain != [] ==> IsChain(vol, d.chain))
    && |d.kids| == Count(DirSecs(vol, d.chain))
    && Tidy(DirSecs(vol, d.chain)) && DistinctKids(d.kids)
    && forall k :: 0 <= k < |d.kids| ==> KidShown(SlotAt(DirSecs(vol, d.chain), k), d.kids[k])
  }

  ghost predicate KidShown(s: Slot, kid: Kid) {
    match kid
    case Hole => !IsLive(s)
    case Item(name, node) => IsLive(s) && NameOf(s) == name && SlotNames(s, node)
  }

  /** Every directory is as in the tree, and every file but `key` holds its bytes. */
  ghost predicate IntactBut(vol: Vol, t: Node, key: seq<Name>) {
    vol.WellFormed() && forall q :: Get(t, q).Some? ==> NodeIntact(vol, Get(t, q).value, q == key)
  }

  ghost predicate NodeIntact(vol: Vol, node: Node, excepted: bool)
    requires vol.WellFormed()
  {
    match node
    case File(ch, bytes) => excepted || FileRep(vol, ch, bytes)
    case Dir(_, _) => DirShown(vol, node)
  }

  /** The chains of different nodes count separately. */
  lemma {:induction false} ChainsApart(t: Node, p: seq<Name>, q: seq<Name>)
    requires Get(t, p).Some? && Get(t, q).Some? && p != q
    ensures multiset(Get(t, p).value.chain) + multiset(Get(t, q).value.chain) <= Clusters(t)
    decreases |p|
  {
    if p == [] {
      ChainBelow(t, q);
    } else if q == [] {
      ChainBelow(t, p);
    } else {
      var i, j := IndexOf(t.kids, p[0]), IndexOf(t.kids, q[0]);
      KidsClustersUpdate(t.kids, i, Hole);
      if p[0] == q[0] {
        assert p == [p[0]] + p[1..] && q == [q[0]] + q[1..];
        ChainsApart(t.kids[i].node, p[1..], q[1..]);
      } else {
        GetClusters(t.kids[i].node, p[1..]);
        GetClusters(t.kids[j].node, q[1..]);
        OwnChain(Get(t, p).value);
        OwnChain(Get(t, q).value);
        KidsClustersTwo(t.kids, i, j);
      }
    }
  }

  lemma OwnChain(node: Node)
    ensures multiset(node.chain) <= Clusters(node)
  {
  }

  lemma ChainBelow(t: Node, q: seq<Name>)
    requires Get(t, q).Some? && q != []
    ensures multiset(t.chain) + multiset(Get(t, q).value.chain) <= Clusters(t)
  {
    var i := IndexOf(t.kids, q[0]);
    KidsClustersUpdate(t.kids, i, Hole);
    GetClusters(t.kids[i].node, q[1..]);
    OwnChain(Get(t, q).value);
  }

  /** A change that spares every cluster in use outside z leaves all nodes intact but the file that owned z. */
  lemma IntactAfter(vol: Vol, vol': Vol, t: Node, key: seq<Name>, z: set<nat>)
    requires vol.WellFormed() && vol'.WellFormed() && Represents(vol, t) && Balanced(vol, t)
    requires vol'.spc == vol.spc && |vol'.data| == |vol.data| && vol'.root == vol.root
    requires forall c: nat :: InUse(vol, c) && c !in z ==> vol'.fat[c] == vol.fat[c] && vol'.data[c] == vol.data[c]
    requires z == {} || (Get(t, key).Some? && Get(t, key).value.File? && z == Elems(Get(t, key).value.chain))
    ensures IntactBut(vol', t, key)
  {
    forall q | Get(t, q).Some? ensures NodeIntact(vol', Get(t, q).value, q == key) {
      var node := Get(t, q).value;
      GetRep(vol, t, q);
      GetClusters(t, q);
      OwnChain(node);
      if z == {} || q != key {
        if z != {} {
          ChainsApart(t, q, key);
        }
        ApartFrom(vol, t, node.chain, z, if z == {} then [] else Get(t, key).value.chain);
        NodeStays(vol, vol', node);
      }
    }
  }

  lemma ApartFrom(vol: Vol, t: Node, ch: seq<nat>, z: set<nat>, other: seq<nat>)
    requires vol.WellFormed() && Balanced(vol, t)
    requires multiset(ch) + multiset(other) <= Clusters(t) && z == Elems(other)
    ensures forall c :: c in ch ==> InUse(vol, c) && c !in z
  {
    forall c | c in ch ensures InUse(vol, c) && c !in z {
      assert c in multiset(ch) && Clusters(t)[c] <= 1;
      assert (multiset(ch) + multiset(other))[c] <= Clusters(t)[c];
    }
  }

  lemma NodeStays(vol: Vol, vol': Vol, node: Node)
    requires vol.WellFormed() && vol'.WellFormed() && NodeRep(vol, node)
    requires vol'.spc == vol.spc && |vol'.data| == |vol.data| && vol'.root == vol.root
    requires forall c :: c in node.chain ==>
             vol.IsCluster(c) && vol'.fat[c] == vol.fat[c] && vol'.data[c] == vol.data[c]
    ensures NodeIntact(vol', node, false)
  {
    var ch := node.chain;
    assert forall i :: 0 <= i < |ch| ==> ch[i] in ch;
    if ch != [] {
      ChainFrame(vol, vol', ch);
      CatFrame(vol.data, vol'.data, ch);
    }
    if node.Dir? {
      forall k | 0 <= k < |node.kids| ensures KidShown(SlotAt(DirSecs(vol', ch), k), node.kids[k]) {
        assert KidRep(vol, SlotAt(DirSecs(vol, ch), k), node.kids[k]);
      }
    }
  }
}
