/** One slot of one directory changed: what it does to the tree, to its clusters and to every lookup. */
module TreeOps {
  import opened Bytes
  import opened Layout
  import opened Chains
  import opened Content
  import opened Slots
  import opened Directory
  import opened Nodes
  import opened Tree
  import opened TreePaths

  ghost predicate Represents(vol: Vol, t: Node)
    requires vol.WellFormed()
  {
    t.Dir? && t.chain == [] && NodeRep(vol, t)
  }

  /** A volume holds one tree: what is said of lookups in the tree is said of the disk. */
  lemma TreeUnique(vol: Vol, t1: Node, t2: Node)
    requires vol.WellFormed() && Represents(vol, t1) && Represents(vol, t2)
    ensures t1 == t2
  {
    NodeUnique(vol, t1, t2);
  }

  /** Every cluster in use belongs to exactly one chain of the tree, and no other cluster to any. */
  ghost predicate Balanced(vol: Vol, t: Node)
    requires vol.WellFormed()
  {
    forall c :: Clusters(t)[c] == if InUse(vol, c) then 1 else 0
  }

  ghost predicate InUse(vol: Vol, c: nat)
    requires vol.WellFormed()
  {
    vol.IsCluster(c) && vol.fat[c] != 0
  }

  ghost predicate DirIn(t: Node, path: seq<Name>) {
    Get(t, path).Some? && Get(t, path).value.Dir?
  }

  ghost function DirNode(t: Node, path: seq<Name>): Node
    requires DirIn(t, path)
  {
    Get(t, path).value
  }

  /** The tree with slot k of the directory at `path` naming kid. */
  ghost function PutKid(t: Node, path: seq<Name>, k: nat, kid: Kid): Node
    requires DirIn(t, path) && k < |DirNode(t, path).kids|
  {
    var d := DirNode(t, path);
    Put(t, path, Dir(d.chain, d.kids[k := kid]))
  }

  lemma {:induction false} OnlyRootChainless(vol: Vol, t: Node, path: seq<Name>)
    requires vol.WellFormed() && NodeRep(vol, t) && DirIn(t, path) && path != []
    ensures DirNode(t, path).chain != []
    decreases |path|
  {
    hide NodeRep, KidRep;
    var i := IndexOf(t.kids, path[0]);
    KidNodeRep(vol, t, i);
    if |path| > 1 {
      OnlyRootChainless(vol, t.kids[i].node, path[1..]);
    } else {
      assert path[1..] == [];
    }
  }

  lemma PutKidClusters(t: Node, path: seq<Name>, k: nat, kid: Kid)
    requires DirIn(t, path) && k < |DirNode(t, path).kids|
    ensures var d := DirNode(t, path);
            && multiset(d.chain) + KidsClusters(d.kids) <= Clusters(t)
            && KidClusters(d.kids[k]) <= KidsClusters(d.kids)
            && Clusters(PutKid(t, path, k, kid)) == Clusters(t) - KidClusters(d.kids[k]) + KidClusters(kid)
  {
    var d := DirNode(t, path);
    PutClusters(t, path, Dir(d.chain, d.kids[k := kid]));
    KidsClustersUpdate(d.kids, k, kid);
  }

  /** The one step behind every operation: a change confined to one slot of a directory, to the clusters of what
      that slot named, and to clusters outside the tree, yields the tree with that one kid replaced. */
  lemma ReplaceKid(vol: Vol, vol': Vol, t: Node, path: seq<Name>, k: nat, x: Slot, kid': Kid)
    requires vol.WellFormed() && vol'.WellFormed() && Represents(vol, t)
    requires DirIn(t, path) && k < |DirNode(t, path).kids|
    requires var d := DirNode(t, path);
             && InData(vol'.data, d.chain) && InData(vol.data, d.chain)
             && (d.chain != [] ==> IsChain(vol', d.chain) && vol'.root == vol.root)
             && Count(DirSecs(vol, d.chain)) == |d.kids|
             && DirSecs(vol', d.chain) == SetSlot(DirSecs(vol, d.chain), k, x)
             && Tidy(DirSecs(vol', d.chain))
             && SameOn(vol, vol', Clusters(t) - multiset(d.chain) - KidClusters(d.kids[k]))
             && DistinctKids(d.kids[k := kid'])
    requires KidRep(vol', x, kid')
    ensures Represents(vol', PutKid(t, path, k, kid'))
  {
    hide NodeRep, KidRep, SameOn, DistinctKids, Tidy, IsChain, DirSecs, KidsClusters, KidClusters;
    var d := DirNode(t, path);
    GetRep(vol, t, path);
    PutKidClusters(t, path, k, kid');
    var cs := Clusters(t) - multiset(d.chain) - KidClusters(d.kids[k]);
    SameOnFewer(vol, vol', KidsClusters(d.kids) - KidClusters(d.kids[k]), cs);
    DirUpdate(vol, vol', d, k, x, kid');
    SameOnFewer(vol, vol', Clusters(t) - Clusters(d), cs);
    if path != [] {
      OnlyRootChainless(vol, t, path);
    }
    PutRep(vol, vol', t, path, Dir(d.chain, d.kids[k := kid']));
  }

  lemma SameOnFewer(vol: Vol, vol': Vol, fewer: multiset<nat>, cs: multiset<nat>)
    requires vol.WellFormed() && vol'.WellFormed() && SameOn(vol, vol', cs) && fewer <= cs
    ensures SameOn(vol, vol', fewer)
  {
  }

  lemma {:induction false} GetPut(t: Node, path: seq<Name>, x: Node)
    requires Get(t, path).Some?
    ensures Get(Put(t, path, x), path) == Some(x)
    decreases |path|
  {
    if path != [] {
      var i := IndexOf(t.kids, path[0]);
      var sub' := Put(t.kids[i].node, path[1..], x);
      var kids' := t.kids[i := Item(path[0], sub')];
      assert kids'[i] == Item(path[0], sub');
      assert forall j :: 0 <= j < i ==> kids'[j] == t.kids[j];
      assert IndexOf(kids', path[0]) == i;
      GetPut(t.kids[i].node, path[1..], x);
    }
  }

  lemma DirNodePutKid(t: Node, path: seq<Name>, k: nat, kid: Kid)
    requires DirIn(t, path) && k < |DirNode(t, path).kids|
    ensures DirIn(PutKid(t, path, k, kid), path)
    ensures DirNode(PutKid(t, path, k, kid), path) == Dir(DirNode(t, path).chain, DirNode(t, path).kids[k := kid])
  {
    GetPut(t, path, Dir(DirNode(t, path).chain, DirNode(t, path).kids[k := kid]));
  }

  // ---------- lookups ----------

  /** What a path names. */
  datatype Entry = Absent | IsFile(chain: seq<nat>, bytes: seq<Byte>) | IsDir(chain: seq<nat>)

  function Stat(t: Node, path: seq<Name>): Entry {
    match Get(t, path)
    case None => Absent
    case Some(File(ch, bytes)) => IsFile(ch, bytes)
    case Some(Dir(ch, kids)) => IsDir(ch)
  }

  lemma StatIsGet(t: Node, key: seq<Name>)
    ensures Stat(t, key).Absent? <==> Get(t, key).None?
  {
  }

  ghost predicate Under(path: seq<Name>, kid: Kid, q: seq<Name>) {
    kid.Item? && path + [kid.name] <= q
  }

  ghost predicate NamedAt(kids: seq<Kid>, name: Name, i: nat) {
    if i < |kids| then kids[i].Item? && kids[i].name == name
    else i == |kids| && forall j :: 0 <= j < |kids| && kids[j].Item? ==> kids[j].name != name
  }

  lemma IndexOfIs(kids: seq<Kid>, name: Name, i: nat)
    requires DistinctKids(kids) && NamedAt(kids, name, i)
    ensures IndexOf(kids, name) == i
  {
  }

  lemma StatStep(t: Node, q: seq<Name>)
    requires t.Dir? && q != []
    ensures var i := IndexOf(t.kids, q[0]);
            Stat(t, q) == if i == |t.kids| then Absent else Stat(t.kids[i].node, q[1..])
  {
  }

  /** The names of a directory after one kid was exchanged. */
  lemma StatDir(ch: seq<nat>, kids: seq<Kid>, k: nat, kid: Kid, q: seq<Name>)
    requires k < |kids| && DistinctKids(kids) && DistinctKids(kids[k := kid]) && q != []
    ensures Stat(Dir(ch, kids[k := kid]), q) ==
            if kid.Item? && kid.name == q[0] then Stat(kid.node, q[1..])
            else if kids[k].Item? && kids[k].name == q[0] then Absent
            else Stat(Dir(ch, kids), q)
  {
    var kids' := kids[k := kid];
    var i := IndexOf(kids, q[0]);
    StatStep(Dir(ch, kids), q);
    StatStep(Dir(ch, kids'), q);
    if kid.Item? && kid.name == q[0] {
      IndexOfIs(kids', q[0], k);
    } else if kids[k].Item? && kids[k].name == q[0] {
      assert NamedAt(kids', q[0], |kids|);
      IndexOfIs(kids', q[0], |kids|);
    } else {
      assert NamedAt(kids', q[0], i);
      IndexOfIs(kids', q[0], i);
    }
  }

  /** Every path looks up the same as before, except those that lead through the new kid or the old one. */
  lemma {:induction false} StatPutKid(vol: Vol, t: Node, path: seq<Name>, k: nat, kid: Kid, q: seq<Name>)
    requires vol.WellFormed() && NodeRep(vol, t)
    requires DirIn(t, path) && k < |DirNode(t, path).kids| && DistinctKids(DirNode(t, path).kids[k := kid])
    ensures Stat(PutKid(t, path, k, kid), q) ==
            if Under(path, kid, q) then Stat(kid.node, q[|path| + 1..])
            else if Under(path, DirNode(t, path).kids[k], q) then Absent
            else Stat(t, q)
    decreases |path|
  {
    hide NodeRep, KidRep, DistinctKids, Under;
    NeverUnder(path, kid);
    NeverUnder(path, DirNode(t, path).kids[k]);
    if path == [] {
      DistinctNames(vol, t);
      if q != [] {
        StatDir(t.chain, t.kids, k, kid, q);
        UnderRoot(kid, q);
        UnderRoot(t.kids[k], q);
      }
    } else if q != [] {
      var i := IndexOf(t.kids, path[0]);
      var sub := t.kids[i].node;
      KidNodeRep(vol, t, i);
      var sub' := PutKid(sub, path[1..], k, kid);
      assert DirNode(sub, path[1..]) == DirNode(t, path);
      StatDir(t.chain, t.kids, i, Item(path[0], sub'), q);
      UnderStep(path, kid, q);
      UnderStep(path, DirNode(t, path).kids[k], q);
      if q[0] == path[0] {
        StatPutKid(vol, sub, path[1..], k, kid, q[1..]);
        StatStep(t, q);
      }
    }
  }

  lemma DistinctNames(vol: Vol, t: Node)
    requires vol.WellFormed() && NodeRep(vol, t) && t.Dir?
    ensures DistinctKids(t.kids)
  {
  }

  lemma UnderRoot(kid: Kid, q: seq<Name>)
    requires q != []
    ensures Under([], kid, q) <==> kid.Item? && kid.name == q[0]
  {
    if kid.Item? {
      assert [] + [kid.name] == [kid.name];
    }
  }

  lemma NeverUnder(path: seq<Name>, kid: Kid)
    ensures !Under(path, kid, [])
  {
  }

  lemma UnderStep(path: seq<Name>, kid: Kid, q: seq<Name>)
    requires path != [] && q != []
    ensures Under(path, kid, q) <==> path[0] == q[0] && Under(path[1..], kid, q[1..])
    ensures Under(path, kid, q) ==> q[1..][|path[1..]| + 1..] == q[|path| + 1..]
  {
    if kid.Item? {
      var p := path + [kid.name];
      assert p[1..] == path[1..] + [kid.name];
      if p[0] == q[0] && p[1..] <= q[1..] {
        assert p == [p[0]] + p[1..] && q == [q[0]] + q[1..];
      }
    }
  }
}
