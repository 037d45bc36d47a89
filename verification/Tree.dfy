/** The tree of files and directories that a volume represents. */
module Tree {
  import opened Bytes
  import opened Layout
  import opened Chains
  import opened Content
  import opened Slots
  import opened Directory
  import opened Nodes

  // ---------- representation ----------

  ghost predicate FileRep(vol: Vol, ch: seq<nat>, bytes: seq<Byte>)
    requires vol.WellFormed()
  {
    && |ch| == Need(vol.spc, |bytes|)
    && (ch != [] ==> IsChain(vol, ch) && Holds(Cat(vol.data, ch), bytes))
  }

  /** The slot and the node it names agree on kind, first cluster and size. */
  ghost predicate SlotNames(s: Slot, node: Node) {
    && ClusterOf(s) == Head(node.chain)
    && match node
       case File(ch, bytes) => !IsDirSlot(s) && SizeOf(s) == |bytes|
       case Dir(ch, kids) => IsDirSlot(s) && ch != []
  }

  ghost predicate NodeRep(vol: Vol, node: Node)
    requires vol.WellFormed()
    decreases node, 1
  {
    match node
    case File(ch, bytes) => FileRep(vol, ch, bytes)
    case Dir(ch, kids) =>
      && (ch != [] ==> IsChain(vol, ch))
      && |kids| == Count(DirSecs(vol, ch))
      && Tidy(DirSecs(vol, ch))
      && DistinctKids(kids)
      && forall k :: 0 <= k < |kids| ==> KidRep(vol, SlotAt(DirSecs(vol, ch), k), kids[k])
  }

  ghost predicate KidRep(vol: Vol, s: Slot, kid: Kid)
    requires vol.WellFormed()
    decreases kid, 0
  {
    match kid
    case Hole => !IsLive(s)
    case Item(name, node) => IsLive(s) && NameOf(s) == name && SlotNames(s, node) && NodeRep(vol, node)
  }

  ghost predicate DistinctKids(kids: seq<Kid>) {
    forall i, j :: 0 <= i < j < |kids| && kids[i].Item? && kids[j].Item? ==> kids[i].name != kids[j].name
  }

  /** The disk determines the node behind a chain: two that it represents, of one kind and size, are equal. */
  lemma {:induction false} NodeUnique(vol: Vol, a: Node, b: Node)
    requires vol.WellFormed() && NodeRep(vol, a) && NodeRep(vol, b) && a.chain == b.chain
    requires if a.Dir? then b.Dir? else b.File? && |b.bytes| == |a.bytes|
    ensures a == b
    decreases a, 1
  {
    match a
    case File(ch, bytes) => assert ch == [] ==> bytes == [] && b.bytes == []; assert bytes == b.bytes;
    case Dir(ch, kids) =>
      forall k | 0 <= k < |kids| ensures kids[k] == b.kids[k] {
        KidUnique(vol, SlotAt(DirSecs(vol, ch), k), kids[k], b.kids[k]);
      }
  }

  lemma {:induction false} KidUnique(vol: Vol, s: Slot, a: Kid, b: Kid)
    requires vol.WellFormed() && KidRep(vol, s, a) && KidRep(vol, s, b)
    ensures a == b
    decreases a, 0
  {
    if a.Item? {
      var ch1, ch2 := a.node.chain, b.node.chain;
      if ch1 != [] && ch2 != [] {
        ChainUnique(vol, ch1, ch2);
      }
      NodeUnique(vol, a.node, b.node);
    }
  }

  // ---------- the clusters of a tree ----------

  /** Every cluster of the chains of the tree, with multiplicity. */
  ghost function Clusters(node: Node): multiset<nat>
    decreases node, 1
  {
    match node
    case File(ch, bytes) => multiset(ch)
    case Dir(ch, kids) => multiset(ch) + KidsClusters(kids)
  }

  ghost function KidsClusters(kids: seq<Kid>): multiset<nat>
    decreases kids, 0
  {
    if kids == [] then multiset{} else KidClusters(kids[0]) + KidsClusters(kids[1..])
  }

  ghost function KidClusters(kid: Kid): multiset<nat>
    decreases kid, 0
  {
    if kid.Hole? then multiset{} else Clusters(kid.node)
  }

  lemma {:induction false} KidsClustersSplit(kids: seq<Kid>, k: nat)
    requires k < |kids|
    ensures KidsClusters(kids) == KidsClusters(kids[..k]) + KidClusters(kids[k]) + KidsClusters(kids[k + 1..])
  {
    if k == 0 {
      assert kids[..0] == [];
    } else {
      KidsClustersSplit(kids[1..], k - 1);
      assert kids[1..][..k - 1] == kids[1..k] == kids[..k][1..];
      assert kids[1..][k..] == kids[k + 1..];
    }
  }

  /** Replacing one kid exchanges its clusters. */
  lemma KidsClustersUpdate(kids: seq<Kid>, k: nat, kid: Kid)
    requires k < |kids|
    ensures KidClusters(kids[k]) <= KidsClusters(kids)
    ensures KidsClusters(kids[k := kid]) == KidsClusters(kids) - KidClusters(kids[k]) + KidClusters(kid)
  {
    KidsClustersSplit(kids, k);
    KidsClustersSplit(kids[k := kid], k);
    assert kids[k := kid][..k] == kids[..k] && kids[k := kid][k + 1..] == kids[k + 1..];
  }

  lemma KidsClustersTwo(kids: seq<Kid>, i: nat, j: nat)
    requires i < |kids| && j < |kids| && i != j
    ensures KidClusters(kids[i]) + KidClusters(kids[j]) <= KidsClusters(kids)
  {
    KidsClustersUpdate(kids, i, Hole);
    KidsClustersUpdate(kids[i := Hole], j, Hole);
  }
}
