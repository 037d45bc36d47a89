/** Nodes addressed by their path of names, and how a change inside one directory carries to the whole tree. */
module TreePaths {
  import opened Bytes
  import opened Layout
  import opened Chains
  import opened Content
  import opened Slots
  import opened Directory
  import opened Nodes
  import opened Tree

  datatype Option<+T> = None | Some(value: T)

  function IndexFrom(kids: seq<Kid>, name: Name, i: nat): (r: nat)
    requires i <= |kids|
    ensures i <= r <= |kids|
    ensures r < |kids| ==> kids[r].Item? && kids[r].name == name
    ensures forall j :: i <= j < r && kids[j].Item? ==> kids[j].name != name
    decreases |kids| - i
  {
    if i == |kids| || (kids[i].Item? && kids[i].name == name) then i else IndexFrom(kids, name, i + 1)
  }

  /** The slot that holds `name`, or the number of slots. */
  function IndexOf(kids: seq<Kid>, name: Name): (r: nat)
    ensures r <= |kids|
    ensures r < |kids| ==> kids[r].Item? && kids[r].name == name
    ensures forall j :: 0 <= j < r && kids[j].Item? ==> kids[j].name != name
  {
    IndexFrom(kids, name, 0)
  }

  function Get(node: Node, path: seq<Name>): Option<Node>
    decreases |path|
  {
    if path == [] then Some(node)
    else if node.File? then None
    else
      var i := IndexOf(node.kids, path[0]);
      if i == |node.kids| then None else Get(node.kids[i].node, path[1..])
  }

  function Put(node: Node, path: seq<Name>, x: Node): Node
    requires Get(node, path).Some?
    decreases |path|
  {
    if path == [] then x
    else
      var i := IndexOf(node.kids, path[0]);
      Dir(node.chain, node.kids[i := Item(path[0], Put(node.kids[i].node, path[1..], x))])
  }

  // ---------- frames ----------

  /** vol' has the FAT words and the contents that vol has on the clusters cs. */
  ghost predicate SameOn(vol: Vol, vol': Vol, cs: multiset<nat>)
    requires vol.WellFormed() && vol'.WellFormed()
  {
    && vol'.spc == vol.spc && |vol'.data| == |vol.data|
    && forall c :: c in cs && vol.IsCluster(c) ==> vol'.fat[c] == vol.fat[c] && vol'.data[c] == vol.data[c]
  }

  lemma ChainSame(vol: Vol, vol': Vol, ch: seq<nat>, cs: multiset<nat>)
    requires vol.WellFormed() && vol'.WellFormed() && SameOn(vol, vol', cs)
    requires multiset(ch) <= cs && IsChain(vol, ch)
    ensures IsChain(vol', ch) && Cat(vol'.data, ch) == Cat(vol.data, ch)
  {
    forall i | 0 <= i < |ch| ensures vol'.fat[ch[i]] == vol.fat[ch[i]] && vol'.data[ch[i]] == vol.data[ch[i]] {
      assert ch[i] in multiset(ch);
      assert vol.IsCluster(ch[i]);
    }
    CatFrame(vol.data, vol'.data, ch);
  }

  /** A node is represented as long as its own clusters keep their words and contents. */
  lemma {:induction false} NodeFrame(vol: Vol, vol': Vol, node: Node)
    requires vol.WellFormed() && vol'.WellFormed() && NodeRep(vol, node)
    requires SameOn(vol, vol', Clusters(node))
    requires node.Dir? && node.chain == [] ==> vol'.root == vol.root
    ensures NodeRep(vol', node)
    decreases node
  {
    if node.chain != [] {
      ChainSame(vol, vol', node.chain, Clusters(node));
    }
    if node.Dir? {
      forall k | 0 <= k < |node.kids|
        ensures KidRep(vol', SlotAt(DirSecs(vol, node.chain), k), node.kids[k])
      {
        KidsClustersUpdate(node.kids, k, Hole);
        KidFrame(vol, vol', SlotAt(DirSecs(vol, node.chain), k), node.kids[k]);
      }
    }
  }

  lemma {:induction false} KidFrame(vol: Vol, vol': Vol, s: Slot, kid: Kid)
    requires vol.WellFormed() && vol'.WellFormed() && KidRep(vol, s, kid)
    requires SameOn(vol, vol', KidClusters(kid))
    ensures KidRep(vol', s, kid)
    decreases kid
  {
    if kid.Item? {
      NodeFrame(vol, vol', kid.node);
    }
  }

  // ---------- changing one slot of one directory ----------

  /** A directory whose slot k now names kid', all its other kids untouched. */
  lemma DirUpdate(vol: Vol, vol': Vol, d: Node, k: nat, x: Slot, kid': Kid)
    requires vol.WellFormed() && vol'.WellFormed() && NodeRep(vol, d) && d.Dir? && k < |d.kids|
    requires d.chain != [] ==> IsChain(vol', d.chain)
    requires InData(vol'.data, d.chain)
    requires DirSecs(vol', d.chain) == SetSlot(DirSecs(vol, d.chain), k, x) && Tidy(DirSecs(vol', d.chain))
    requires SameOn(vol, vol', KidsClusters(d.kids) - KidClusters(d.kids[k]))
    requires KidRep(vol', x, kid') && DistinctKids(d.kids[k := kid'])
    ensures NodeRep(vol', Dir(d.chain, d.kids[k := kid']))
  {
    var secs' := DirSecs(vol', d.chain);
    var kids' := d.kids[k := kid'];
    forall j | 0 <= j < |kids'| ensures KidRep(vol', SlotAt(secs', j), kids'[j]) {
      if j != k {
        KidsClustersTwo(d.kids, j, k);
        KidFrame(vol, vol', SlotAt(secs', j), kids'[j]);
      }
    }
  }

  lemma {:induction false} GetClusters(node: Node, path: seq<Name>)
    requires Get(node, path).Some?
    ensures Clusters(Get(node, path).value) <= Clusters(node)
    decreases |path|
  {
    if path != [] {
      var i := IndexOf(node.kids, path[0]);
      GetClusters(node.kids[i].node, path[1..]);
      KidsClustersUpdate(node.kids, i, Hole);
    }
  }

  lemma {:induction false} GetRep(vol: Vol, node: Node, path: seq<Name>)
    requires vol.WellFormed() && NodeRep(vol, node) && Get(node, path).Some?
    ensures NodeRep(vol, Get(node, path).value)
    decreases |path|
  {
    if path != [] {
      var i := IndexOf(node.kids, path[0]);
      assert KidRep(vol, SlotAt(DirSecs(vol, node.chain), i), node.kids[i]);
      GetRep(vol, node.kids[i].node, path[1..]);
    }
  }

  lemma {:induction false} PutClusters(node: Node, path: seq<Name>, x: Node)
    requires Get(node, path).Some?
    ensures Clusters(Put(node, path, x)) == Clusters(node) - Clusters(Get(node, path).value) + Clusters(x)
    ensures Clusters(Get(node, path).value) <= Clusters(node)
    decreases |path|
  {
    if path != [] {
      var i := IndexOf(node.kids, path[0]);
      var sub, gone := node.kids[i].node, Get(node, path).value;
      var sub' := Put(sub, path[1..], x);
      PutClusters(sub, path[1..], x);
      KidsClustersUpdate(node.kids, i, Item(path[0], sub'));
      Exchange(multiset(node.chain), KidsClusters(node.kids), Clusters(sub), Clusters(gone), Clusters(x));
    }
  }

  /** Exchanging a part of a part. */
  lemma Exchange(own: multiset<nat>, all: multiset<nat>, sub: multiset<nat>, gone: multiset<nat>, come: multiset<nat>)
    requires gone <= sub <= all
    ensures own + (all - sub + (sub - gone + come)) == own + all - gone + come
    ensures gone <= own + all
  {
  }

  /** If a directory is represented after a change that left every cluster outside it alone, so is the tree. */
  lemma {:induction false} PutRep(vol: Vol, vol': Vol, node: Node, path: seq<Name>, d': Node)
    requires vol.WellFormed() && vol'.WellFormed() && NodeRep(vol, node)
    requires Get(node, path).Some? && Get(node, path).value.Dir?
    requires d'.Dir? && d'.chain == Get(node, path).value.chain && NodeRep(vol', d')
    requires SameOn(vol, vol', Clusters(node) - Clusters(Get(node, path).value))
    requires path != [] && node.chain == [] ==> vol'.root == vol.root
    ensures NodeRep(vol', Put(node, path, d'))
    decreases |path|
  {
    hide NodeRep, KidRep;
    if path != [] {
      var d := Get(node, path).value;
      var i := IndexOf(node.kids, path[0]);
      var sub := node.kids[i].node;
      KidNodeRep(vol, node, i);
      GetClusters(sub, path[1..]);
      KidsClustersUpdate(node.kids, i, Hole);
      PutRep(vol, vol', sub, path[1..], d');
      assert Clusters(node) - Clusters(sub) <= Clusters(node) - Clusters(d);
      KidReplaced(vol, vol', node, i, Put(sub, path[1..], d'));
    }
  }

  lemma KidNodeRep(vol: Vol, d: Node, i: nat)
    requires vol.WellFormed() && NodeRep(vol, d) && d.Dir? && i < |d.kids| && d.kids[i].Item?
    ensures NodeRep(vol, d.kids[i].node) && (d.kids[i].node.Dir? ==> d.kids[i].node.chain != [])
    ensures DistinctKids(d.kids) && forall node :: DistinctKids(d.kids[i := Item(d.kids[i].name, node)])
  {
    assert KidRep(vol, SlotAt(DirSecs(vol, d.chain), i), d.kids[i]);
  }

  /** A directory whose sectors are unchanged, with one kid node exchanged for another of the same kind and chain. */
  lemma KidReplaced(vol: Vol, vol': Vol, d: Node, k: nat, sub': Node)
    requires vol.WellFormed() && vol'.WellFormed() && NodeRep(vol, d) && d.Dir?
    requires k < |d.kids| && d.kids[k].Item? && d.kids[k].node.Dir?
    requires sub'.Dir? && sub'.chain == d.kids[k].node.chain && NodeRep(vol', sub')
    requires SameOn(vol, vol', Clusters(d) - KidClusters(d.kids[k]))
    requires d.chain == [] ==> vol'.root == vol.root
    ensures NodeRep(vol', Dir(d.chain, d.kids[k := Item(d.kids[k].name, sub')]))
  {
    var secs := DirSecs(vol, d.chain);
    var s := SlotAt(secs, k);
    assert KidRep(vol, s, d.kids[k]);
    DirSecsKept(vol, vol', d, k);
    SetSlotSame(secs, k);
    DirUpdate(vol, vol', d, k, s, Item(d.kids[k].name, sub'));
  }

  lemma DirSecsKept(vol: Vol, vol': Vol, d: Node, k: nat)
    requires vol.WellFormed() && vol'.WellFormed() && NodeRep(vol, d) && d.Dir? && k < |d.kids|
    requires SameOn(vol, vol', Clusters(d) - KidClusters(d.kids[k]))
    requires d.chain == [] ==> vol'.root == vol.root
    ensures d.chain != [] ==> IsChain(vol', d.chain)
    ensures InData(vol'.data, d.chain) && DirSecs(vol', d.chain) == DirSecs(vol, d.chain)
    ensures SameOn(vol, vol', KidsClusters(d.kids) - KidClusters(d.kids[k]))
  {
    var cs := Clusters(d) - KidClusters(d.kids[k]);
    KidsClustersUpdate(d.kids, k, Hole);
    assert KidsClusters(d.kids) - KidClusters(d.kids[k]) <= cs;
    if d.chain != [] {
      assert multiset(d.chain) <= cs;
      ChainSame(vol, vol', d.chain, cs);
    }
  }

  lemma SetSlotSame(secs: seq<Sector>, k: nat)
    requires k < Count(secs)
    ensures SetSlot(secs, k, SlotAt(secs, k)) == secs
  {
    var i := k / 16;
    var x := SetSlotIn(secs[i], k % 16, SlotAt(secs, k));
    assert x == secs[i];
  }
}
