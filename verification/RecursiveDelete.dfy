/** delete_dir_recursive: on a directory of a sound volume it ends, and frees exactly the clusters of its tree. */
module RecursiveDelete {
  import opened Bytes
  import opened Layout
  import opened Chains
  import opened Content
  import opened Slots
  import opened VolumeState
  import opened Directory
  import opened Nodes
  import opened Tree
  import opened TreePaths
  import opened Removal

  ghost function SetOf(m: multiset<nat>): set<nat> {
    set c | c in m
  }

  /** No cluster occurs twice in the tree. */
  ghost predicate Simple(node: Node) {
    forall c :: Clusters(node)[c] <= 1
  }

  /** The clusters of what the first n slots of d name. */
  ghost function Gone(d: Node, n: nat): set<nat>
    requires d.Dir? && n <= |d.kids|
  {
    SetOf(KidsClusters(d.kids[..n]))
  }

  lemma KidsClustersSoFar(kids: seq<Kid>, n: nat)
    requires n < |kids|
    ensures KidsClusters(kids[..n + 1]) == KidsClusters(kids[..n]) + KidClusters(kids[n])
    ensures KidsClusters(kids[..n + 1]) <= KidsClusters(kids)
  {
    var ks := kids[..n + 1];
    KidsClustersSplit(ks, n);
    assert ks[..n] == kids[..n] && ks[n + 1..] == [];
    KidsClustersSplit(kids, n);
  }

  lemma GoneStep(d: Node, n: nat)
    requires d.Dir? && n < |d.kids| && Simple(d)
    ensures Gone(d, n + 1) == Gone(d, n) + SetOf(KidClusters(d.kids[n]))
    ensures forall c :: c in KidClusters(d.kids[n]) ==> c !in Gone(d, n) && c !in d.chain
    ensures d.kids[n].Item? ==> Simple(d.kids[n].node)
  {
    KidsClustersSoFar(d.kids, n);
    var gone, now := KidsClusters(d.kids[..n]), KidClusters(d.kids[n]);
    assert Clusters(d) == multiset(d.chain) + KidsClusters(d.kids);
    hide KidsClusters;
    forall c ensures multiset(d.chain)[c] + gone[c] + now[c] <= 1 {
      assert (gone + now)[c] <= KidsClusters(d.kids)[c] <= Clusters(d)[c];
    }
  }

  lemma GoneChain(d: Node, n: nat)
    requires d.Dir? && n <= |d.kids| && Simple(d)
    ensures forall c :: c in d.chain ==> c !in Gone(d, n)
  {
    if n > 0 {
      KidsClustersSoFar(d.kids, n - 1);
    }
    forall c | c in d.chain ensures c !in Gone(d, n) {
      assert c in multiset(d.chain) && Clusters(d)[c] <= 1;
    }
  }

  lemma GoneAll(d: Node, n: nat)
    requires d.Dir? && n <= |d.kids| && forall i :: n <= i < |d.kids| ==> d.kids[i].Hole?
    ensures Gone(d, n) == SetOf(KidsClusters(d.kids))
    decreases |d.kids| - n
  {
    if n == |d.kids| {
      assert d.kids[..n] == d.kids;
    } else {
      GoneAll(d, n + 1);
      var ks := d.kids[..n + 1];
      KidsClustersSplit(ks, n);
      assert ks[..n] == d.kids[..n] && ks[n + 1..] == [];
    }
  }

  /** The first n slots of the directory have been dealt with: what they named is freed, the other slots and
      all clusters outside are as they were. */
  ghost predicate Partial(vol0: Vol, vol: Vol, d: Node, n: nat)
    requires vol0.WellFormed() && vol.WellFormed() && d.Dir? && n <= |d.kids| && InData(vol0.data, d.chain)
  {
    && vol.spc == vol0.spc && vol.root == vol0.root && |vol.data| == |vol0.data|
    && vol.fat == Zeroed(vol0.fat, Gone(d, n))
    && (forall c :: 0 <= c < |vol.data| && c !in Gone(d, n) && c !in d.chain ==> vol.data[c] == vol0.data[c])
    && |DirSecs(vol, d.chain)| == |DirSecs(vol0, d.chain)|
    && forall k :: n <= k < Count(DirSecs(vol, d.chain)) ==>
                     SlotAt(DirSecs(vol, d.chain), k) == SlotAt(DirSecs(vol0, d.chain), k)
  }

  lemma PartialStart(vol: Vol, d: Node)
    requires vol.WellFormed() && NodeRep(vol, d) && d.Dir? && d.chain != []
    ensures InData(vol.data, d.chain) && Partial(vol, vol, d, 0)
  {
    assert d.kids[..0] == [];
    NothingZeroed(vol.fat);
  }

  /** While slots are dealt with, the directory's chain stays in place. */
  lemma PartialChain(vol0: Vol, vol: Vol, d: Node, n: nat)
    requires vol0.WellFormed() && vol.WellFormed() && NodeRep(vol0, d) && d.Dir? && d.chain != [] && Simple(d)
    requires n <= |d.kids| && InData(vol0.data, d.chain) && Partial(vol0, vol, d, n)
    ensures IsChain(vol, d.chain) && |d.kids| == Count(DirSecs(vol, d.chain)) == Count(DirSecs(vol0, d.chain))
  {
    GoneChain(d, n);
    forall i | 0 <= i < |d.chain| ensures vol.fat[d.chain[i]] == vol0.fat[d.chain[i]] {
      assert d.chain[i] in d.chain;
    }
    ChainFrame(vol0, vol, d.chain);
  }

  /** ... and what the next slot names is still represented. */
  lemma PartialKid(vol0: Vol, vol: Vol, d: Node, n: nat)
    requires vol0.WellFormed() && vol.WellFormed() && NodeRep(vol0, d) && d.Dir? && d.chain != [] && Simple(d)
    requires InData(vol0.data, d.chain) && n < |d.kids| == Count(DirSecs(vol0, d.chain))
    requires Partial(vol0, vol, d, n)
    ensures KidRep(vol, SlotAt(DirSecs(vol, d.chain), n), d.kids[n])
  {
    var s := SlotAt(DirSecs(vol0, d.chain), n);
    assert KidRep(vol0, s, d.kids[n]);
    GoneStep(d, n);
    assert SameOn(vol0, vol, KidClusters(d.kids[n]));
    hide NodeRep, Gone;
    KidFrame(vol0, vol, s, d.kids[n]);
  }

  /** An end marker means that no later slot names anything. */
  lemma NothingAfterEnd(vol0: Vol, d: Node, n: nat)
    requires vol0.WellFormed() && NodeRep(vol0, d) && d.Dir? && InData(vol0.data, d.chain)
    requires n < |d.kids| == Count(DirSecs(vol0, d.chain)) && IsEnd(SlotAt(DirSecs(vol0, d.chain), n))
    ensures forall i :: n <= i < |d.kids| ==> d.kids[i].Hole?
  {
    forall i | n <= i < |d.kids| ensures d.kids[i].Hole? {
      assert KidRep(vol0, SlotAt(DirSecs(vol0, d.chain), i), d.kids[i]);
      assert IsVacant(SlotAt(DirSecs(vol0, d.chain), i));
    }
  }

  /** A slot that names nothing is passed over. */
  lemma PartialSkip(vol0: Vol, vol: Vol, d: Node, n: nat)
    requires vol0.WellFormed() && vol.WellFormed() && d.Dir? && n < |d.kids| && InData(vol0.data, d.chain)
    requires Simple(d) && d.kids[n].Hole? && Partial(vol0, vol, d, n)
    ensures Partial(vol0, vol, d, n + 1)
  {
    GoneStep(d, n);
    assert Gone(d, n + 1) == Gone(d, n);
  }

  /** What slot n names was freed, and the slot marked as deleted. */
  lemma PartialNext(vol0: Vol, vol: Vol, vol1: Vol, vol2: Vol, d: Node, n: nat, x: Slot)
    requires vol0.WellFormed() && vol.WellFormed() && vol1.WellFormed() && vol2.WellFormed()
    requires d.Dir? && d.chain != [] && n < |d.kids| && InData(vol0.data, d.chain) && Simple(d)
    requires Partial(vol0, vol, d, n)
    requires Freed(vol, vol1, SetOf(KidClusters(d.kids[n])))
    requires InData(vol1.data, d.chain) && DirSecs(vol1, d.chain) == DirSecs(vol, d.chain)
    requires n < Count(DirSecs(vol1, d.chain)) && SlotWritten(vol1, vol2, d.chain, n, x)
    ensures Partial(vol0, vol2, d, n + 1)
  {
    GoneStep(d, n);
    ZeroedTwice(vol0.fat, Gone(d, n), SetOf(KidClusters(d.kids[n])));
  }

  lemma ZeroedTwice(fat: seq<Word>, a: set<nat>, b: set<nat>)
    ensures Zeroed(Zeroed(fat, a), b) == Zeroed(fat, a + b)
  {
  }

  /** Writing back a sector of the directory with one slot patched is writing that slot. */
  lemma PatchedSector(vol: Vol, c: nat, ch: seq<nat>, j: nat, k: nat, p: Place, x: Slot)
    requires vol.WellFormed() && IsDirChain(vol, c, ch) && Located(vol, ch, j, p) && k < 16
    ensures vol.Has(p) && j < |DirSecs(vol, ch)| && vol.SectorAt(p) == DirSecs(vol, ch)[j]
    ensures var vol' := vol.WithSector(p, SetSlotIn(vol.SectorAt(p), k, x));
            && vol'.WellFormed()
            && SlotWritten(vol, vol', ch, 16 * j + k, x)
            && vol'.SectorAt(p) == SetSlotIn(vol.SectorAt(p), k, x)
  {
    LocatedSector(vol, ch, j, p);
    WriteLocated(vol, c, ch, j, p, SetSlotIn(vol.SectorAt(p), k, x));
    SectorSlots(DirSecs(vol, ch), j);
    var n := 16 * j + k;
    assert n / 16 == j && n % 16 == k;
  }

  // ---------- the loops ----------

  /** The state between two slots: the directory d of vol0 has its first n slots dealt with. */
  ghost predicate Deleting(vol: Vol, vol0: Vol, d: Node, n: nat) {
    && vol.WellFormed() && vol0.WellFormed() && NodeRep(vol0, d) && d.Dir? && d.chain != [] && Simple(d)
    && InData(vol0.data, d.chain) && InData(vol.data, d.chain)
    && n <= |d.kids| && Partial(vol0, vol, d, n)
  }

  /** Sector j of the directory, at p, is in the buffer. */
  ghost predicate Buffered(vol: Vol, b: Bpb, d: Node, j: nat, lba: nat, p: Place, sector: Sector) {
    && Placed(vol, b, d, j, lba, p) && vol.Has(p) && sector == vol.SectorAt(p)
  }

  /** The number of slots before the i-th cluster of the directory. */
  ghost function SlotsBefore(vol0: Vol, d: Node, i: nat): nat
    requires InData(vol0.data, d.chain) && i <= |d.chain|
  {
    16 * |Cat(vol0.data, d.chain[..i])|
  }

  /** Frees the tree of the directory d whose chain starts at dirCluster. */
  method DeleteDirRecursive(v: Volume, dirCluster: nat, ghost d: Node)
    requires v.Mounted() && NodeRep(v.Vol(), d) && d.Dir? && d.chain != [] && dirCluster == d.chain[0] && Simple(d)
    modifies v`disk
    ensures v.Mounted() && Freed(old(v.Vol()), v.Vol(), SetOf(Clusters(d)))
    decreases d, 5
  {
    ghost var vol0 := v.Vol();
    PartialStart(vol0, d);
    assert d.chain[..0] == [] && SlotsBefore(vol0, d, 0) == 0;
    assert Deleting(v.Vol(), vol0, d, 0) && IsChain(vol0, d.chain);
    hide View, Deleting, NodeRep, Simple, IsChain, SlotsBefore;
    var cluster := dirCluster;
    ghost var i := 0;
    ghost var n := 0;
    var ended := false;
    while cluster < 0xFFF8 && !ended
      invariant i <= |d.chain| && v.Mounted() && Deleting(v.Vol(), vol0, d, n)
      invariant !ended && i < |d.chain| ==> cluster == d.chain[i]
      invariant !ended && i == |d.chain| ==> cluster >= 0xFFF8
      invariant !ended ==> n == SlotsBefore(vol0, d, i)
      invariant ended ==> NoneLeft(d, n)
      decreases |d.chain| - i, !ended
    {
      ended, n := DeleteInCluster(v, cluster, d, vol0, i);
      if !ended {
        cluster := NextCluster(v, cluster, d, vol0, n, i);
        i := i + 1;
      }
    }
    if !ended {
      AllSlotsSeen(v.Vol(), vol0, d, n, i);
    }
    FreeDirChain(v, dirCluster, d, vol0, n);
  }

  /** What the first n slots name is all that the directory names. */
  ghost predicate NoneLeft(d: Node, n: nat) {
    d.Dir? && n <= |d.kids| && Gone(d, n) == SetOf(KidsClusters(d.kids))
  }

  lemma AllSlotsSeen(vol: Vol, vol0: Vol, d: Node, n: nat, i: nat)
    requires Deleting(vol, vol0, d, n) && i == |d.chain| && n == SlotsBefore(vol0, d, i)
    ensures NoneLeft(d, n)
  {
    assert d.chain[..i] == d.chain;
    GoneAll(d, n);
  }

  /** The link from the i-th cluster of the directory, still in place. */
  method NextCluster(v: Volume, cluster: nat, ghost d: Node, ghost vol0: Vol, ghost n: nat, ghost i: nat)
    returns (next: nat)
    requires v.Mounted() && Deleting(v.Vol(), vol0, d, n) && i < |d.chain| && cluster == d.chain[i]
    ensures i + 1 < |d.chain| ==> next == d.chain[i + 1]
    ensures i + 1 == |d.chain| ==> next >= 0xFFF8
  {
    PartialChain(vol0, v.Vol(), d, n);
    ChainWord(v.Vol(), d.chain, i);
    assert v.Vol().IsCluster(d.chain[i]);
    hide View, NodeRep, Partial;
    next := v.GetFatEntry(cluster);
  }

  /** The label `done`: the directory's own chain is freed. */
  method FreeDirChain(v: Volume, dirCluster: nat, ghost d: Node, ghost vol0: Vol, ghost n: nat)
    requires v.Mounted() && Deleting(v.Vol(), vol0, d, n) && NoneLeft(d, n) && dirCluster == d.chain[0]
    modifies v`disk
    ensures v.Mounted() && Freed(vol0, v.Vol(), SetOf(Clusters(d)))
  {
    ghost var vol1 := v.Vol();
    PartialChain(vol0, vol1, d, n);
    hide View, NodeRep, Partial, IsChain;
    FreeEntryChain(v, dirCluster, d.chain);
    AllFreed(vol0, vol1, v.Vol(), d, n);
  }

  /** The chain of the directory itself goes last. */
  lemma AllFreed(vol0: Vol, vol1: Vol, vol2: Vol, d: Node, n: nat)
    requires vol0.WellFormed() && vol1.WellFormed() && vol2.WellFormed()
    requires d.Dir? && n <= |d.kids| && InData(vol0.data, d.chain) && Partial(vol0, vol1, d, n)
    requires Gone(d, n) == SetOf(KidsClusters(d.kids))
    requires vol2 == vol1.(fat := Zeroed(vol1.fat, Elems(d.chain)))
    ensures Freed(vol0, vol2, SetOf(Clusters(d)))
  {
    ZeroedTwice(vol0.fat, Gone(d, n), Elems(d.chain));
    assert forall c :: c in d.chain <==> c in multiset(d.chain);
    assert Gone(d, n) + Elems(d.chain) == SetOf(Clusters(d));
  }

  /** Deals with the slots of the i-th cluster of the directory; `ended` at an end marker. */
  method DeleteInCluster(v: Volume, cluster: nat, ghost d: Node, ghost vol0: Vol, ghost i: nat)
    returns (ended: bool, ghost n: nat)
    requires vol0.WellFormed() && InData(vol0.data, d.chain) && i < |d.chain| && cluster == d.chain[i]
    requires v.Mounted() && Deleting(v.Vol(), vol0, d, SlotsBefore(vol0, d, i))
    modifies v`disk
    ensures v.Mounted() && Deleting(v.Vol(), vol0, d, n)
    ensures if ended then NoneLeft(d, n) else n == SlotsBefore(vol0, d, i + 1)
    decreases d, 4
  {
    n := SlotsBefore(vol0, d, i);
    ClusterSlots(v.Vol(), vol0, d, n, i);
    hide View, Deleting, NoneLeft, SlotsBefore, InData, Bpb.ClusterStart;
    var startSector := v.bpb.ClusterStart(cluster);
    for s := 0 to v.bpb.sectorsPerCluster
      invariant n == SlotsBefore(vol0, d, i) + 16 * s && v.Mounted() && Deleting(v.Vol(), vol0, d, n)
    {
      ended, n := DeleteInSectorOf(v, cluster, startSector, s, d, vol0, i);
      if ended {
        return;
      }
    }
    ended := false;
  }

  /** Sector s of the i-th cluster of the directory. */
  method DeleteInSectorOf(v: Volume, cluster: nat, startSector: nat, s: nat,
                          ghost d: Node, ghost vol0: Vol, ghost i: nat)
    returns (ended: bool, ghost n: nat)
    requires vol0.WellFormed() && InData(vol0.data, d.chain) && i < |d.chain| && cluster == d.chain[i] && s < vol0.spc
    requires v.bpb.bytesPerSector > 0 && cluster >= 2 && startSector == v.bpb.ClusterStart(cluster)
    requires v.Mounted() && Deleting(v.Vol(), vol0, d, SlotsBefore(vol0, d, i) + 16 * s)
    modifies v`disk
    ensures v.Mounted() && Deleting(v.Vol(), vol0, d, n)
    ensures if ended then NoneLeft(d, n) else n == SlotsBefore(vol0, d, i) + 16 * s + 16
    decreases d, 3
  {
    hide View, Deleting, NoneLeft, SlotsBefore, InData, Bpb.ClusterStart, Placed, Cat, Volume.Mounted;
    CatBefore(vol0, d, i);
    ghost var j := |Cat(vol0.data, d.chain[..i])|;
    PlaceOfSector(v.Vol(), vol0, v.bpb, d, 16 * (j + s), i, s, startSector);
    ended, n := DeleteInSector(v, startSector + s, d, vol0, j + s, InCluster(cluster, s));
  }

  lemma CatBefore(vol0: Vol, d: Node, i: nat)
    requires InData(vol0.data, d.chain) && i <= |d.chain|
    ensures InData(vol0.data, d.chain[..i]) && SlotsBefore(vol0, d, i) == 16 * |Cat(vol0.data, d.chain[..i])|
  {
  }

  lemma ClusterSlots(vol: Vol, vol0: Vol, d: Node, n: nat, i: nat)
    requires Deleting(vol, vol0, d, n) && i < |d.chain|
    ensures vol.spc == vol0.spc && d.chain[i] >= 2
    ensures SlotsBefore(vol0, d, i) == 16 * |Cat(vol0.data, d.chain[..i])|
    ensures SlotsBefore(vol0, d, i + 1) == SlotsBefore(vol0, d, i) + 16 * vol0.spc
  {
    assert IsChain(vol0, d.chain) && vol0.IsCluster(d.chain[i]);
    hide NodeRep;
    CatCluster(vol0.data, d.chain, i);
  }

  lemma PlaceOfSector(vol: Vol, vol0: Vol, b: Bpb, d: Node, n: nat, i: nat, s: nat, start: nat)
    requires Deleting(vol, vol0, d, n) && i < |d.chain| && s < vol0.spc
    requires b.bytesPerSector > 0 && d.chain[i] >= 2 && start == b.ClusterStart(d.chain[i])
    ensures InData(vol0.data, d.chain)
    ensures Placed(vol, b, d, |Cat(vol0.data, d.chain[..i])| + s, start + s, InCluster(d.chain[i], s))
  {
    assert IsChain(vol0, d.chain) && vol.spc == vol0.spc && |vol.data| == |vol0.data|;
    hide NodeRep, Partial, IsChain, Located;
    SectorPlace(vol0, vol, d.chain, i, s);
  }

  lemma SectorPlace(vol0: Vol, vol: Vol, ch: seq<nat>, i: nat, s: nat)
    requires vol0.WellFormed() && vol.WellFormed() && vol.spc == vol0.spc && |vol.data| == |vol0.data|
    requires IsChain(vol0, ch) && i < |ch| && s < vol.spc
    ensures InData(vol.data, ch) && InData(vol0.data, ch)
    ensures Located(vol, ch, |Cat(vol0.data, ch[..i])| + s, InCluster(ch[i], s))
  {
    SameLength(vol0, vol, ch[..i]);
    assert vol0.IsCluster(ch[i]) && vol.IsCluster(ch[i]);
    assert LocatedIn(vol, ch, |Cat(vol0.data, ch[..i])| + s, ch[i], s, i);
  }

  /** Deals with the slots of sector j of the directory, kept in a buffer that is written back after each. */
  method DeleteInSector(v: Volume, lba: nat, ghost d: Node, ghost vol0: Vol, ghost j: nat, ghost p: Place)
    returns (ended: bool, ghost n: nat)
    requires v.Mounted() && Deleting(v.Vol(), vol0, d, 16 * j) && Placed(v.Vol(), v.bpb, d, j, lba, p)
    modifies v`disk
    ensures v.Mounted() && Deleting(v.Vol(), vol0, d, n)
    ensures if ended then NoneLeft(d, n) else n == 16 * (j + 1)
    decreases d, 2
  {
    hide View, Deleting, NoneLeft, Buffered, Placed, Volume.Mounted;
    n := 16 * j;
    var sector := LoadSector(v, lba, d, j, p);
    var k := 0;
    var i := 0;
    while i < 512
      invariant i == 32 * k && k <= 16 && n == 16 * j + k
      invariant v.Mounted() && Deleting(v.Vol(), vol0, d, n) && Buffered(v.Vol(), v.bpb, d, j, lba, p, sector)
    {
      ended, sector := DeleteNext(v, lba, sector, k, d, vol0, n, j, p);
      if ended {
        return;
      }
      n := n + 1;
      k := k + 1;
      i := i + 32;
    }
    ended := false;
  }

  ghost predicate Placed(vol: Vol, b: Bpb, d: Node, j: nat, lba: nat, p: Place) {
    InData(vol.data, d.chain) && Located(vol, d.chain, j, p) && IsLba(b, p, lba)
  }

  method LoadSector(v: Volume, lba: nat, ghost d: Node, ghost j: nat, ghost p: Place) returns (sector: Sector)
    requires v.Mounted() && Placed(v.Vol(), v.bpb, d, j, lba, p)
    ensures Buffered(v.Vol(), v.bpb, d, j, lba, p, sector)
  {
    hide View;
    LocatedSector(v.Vol(), d.chain, j, p);
    sector := v.ReadAt(lba, p);
  }

  /** The body of the loop over the slots of a sector. */
  method DeleteNext(v: Volume, lba: nat, sector: Sector, k: nat,
                    ghost d: Node, ghost vol0: Vol, ghost n: nat, ghost j: nat, ghost p: Place)
    returns (ended: bool, patched: Sector)
    requires v.Mounted() && Deleting(v.Vol(), vol0, d, n) && Buffered(v.Vol(), v.bpb, d, j, lba, p, sector)
    requires k < 16 && n == 16 * j + k
    modifies v`disk
    ensures v.Mounted()
    ensures if ended then NoneLeft(d, n) && Deleting(v.Vol(), vol0, d, n)
            else Deleting(v.Vol(), vol0, d, n + 1) && Buffered(v.Vol(), v.bpb, d, j, lba, p, patched)
    decreases d, 1
  {
    hide *;
    NextSlot(v.Vol(), v.bpb, vol0, d, n, j, k, lba, p, sector);
    var entry := SlotIn(sector, k);
    if IsEnd(entry) {
      return true, sector;
    }
    if IsLive(entry) {
      patched := DeleteEntry(v, lba, sector, k, d, vol0, n, j, p);
      return false, patched;
    }
    return false, sector;
  }

  /** The next slot in the buffer, on disk and in the tree; one that names nothing is passed over. */
  lemma NextSlot(vol: Vol, b: Bpb, vol0: Vol, d: Node, n: nat, j: nat, k: nat, lba: nat, p: Place, sector: Sector)
    requires Deleting(vol, vol0, d, n) && Buffered(vol, b, d, j, lba, p, sector)
    requires k < 16 && n == 16 * j + k
    ensures vol.WellFormed() && d.Dir? && n < |d.kids| && KidRep(vol, SlotIn(sector, k), d.kids[n])
    ensures IsEnd(SlotIn(sector, k)) ==> NoneLeft(d, n)
    ensures IsLive(SlotIn(sector, k)) <==> d.kids[n].Item?
    ensures !IsLive(SlotIn(sector, k)) ==> Deleting(vol, vol0, d, n + 1)
  {
    PartialChain(vol0, vol, d, n);
    LocatedSector(vol, d.chain, j, p);
    SectorSlots(DirSecs(vol, d.chain), j);
    PartialKid(vol0, vol, d, n);
    var s := SlotAt(DirSecs(vol, d.chain), n);
    assert s == SlotIn(sector, k) == SlotAt(DirSecs(vol0, d.chain), n);
    if IsEnd(s) {
      NothingAfterEnd(vol0, d, n);
      GoneAll(d, n);
    }
    if !IsLive(s) {
      PartialSkip(vol0, vol, d, n);
    }
  }

  /** Frees what a live slot names and writes its sector back with the slot marked as deleted. */
  method DeleteEntry(v: Volume, lba: nat, sector: Sector, k: nat,
                     ghost d: Node, ghost vol0: Vol, ghost n: nat, ghost j: nat, ghost p: Place)
    returns (patched: Sector)
    requires v.Mounted() && Deleting(v.Vol(), vol0, d, n) && Buffered(v.Vol(), v.bpb, d, j, lba, p, sector)
    requires k < 16 && n == 16 * j + k
    requires d.Dir? && n < |d.kids| && d.kids[n].Item? && KidRep(v.Vol(), SlotIn(sector, k), d.kids[n])
    modifies v`disk
    ensures v.Mounted() && Deleting(v.Vol(), vol0, d, n + 1) && Buffered(v.Vol(), v.bpb, d, j, lba, p, patched)
    decreases d, 0
  {
    ghost var vol := v.Vol();
    assert Simple(d.kids[n].node) by { GoneStep(d, n); }
    var entry := SlotIn(sector, k);
    hide View, Deleting, Buffered, KidRep, Simple, Freed;
    FreeWhatSlotNames(v, entry, d.kids[n]);
    ghost var vol1 := v.Vol();
    StillBuffered(vol0, vol, vol1, v.bpb, d, n, j, lba, p, sector);
    patched := SetSlotIn(sector, k, Deleted(entry));
    v.WriteAt(lba, patched, p);
    EntryDeleted(vol0, vol, vol1, v.bpb, d, n, j, k, lba, p, sector, Deleted(entry));
  }

  /** Freeing what slot n names leaves the buffered sector as it is on disk. */
  lemma StillBuffered(vol0: Vol, vol: Vol, vol1: Vol, b: Bpb, d: Node, n: nat, j: nat, lba: nat, p: Place,
        sector: Sector)
    requires vol1.WellFormed() && Deleting(vol, vol0, d, n) && Buffered(vol, b, d, j, lba, p, sector) && n < |d.kids|
    requires Freed(vol, vol1, SetOf(KidClusters(d.kids[n])))
    ensures Buffered(vol1, b, d, j, lba, p, sector)
    ensures vol1.Has(p) && (p.InCluster? ==> 2 <= p.c) && IsLba(b, p, lba)
  {
    hide NodeRep, Partial, Simple, Freed, Located;
    DirKeptByFree(vol0, vol, vol1, d, n, j, p);
  }

  lemma EntryDeleted(vol0: Vol, vol: Vol, vol1: Vol, b: Bpb, d: Node, n: nat, j: nat, k: nat,
                     lba: nat, p: Place, sector: Sector, x: Slot)
    requires vol1.WellFormed() && Deleting(vol, vol0, d, n) && Buffered(vol, b, d, j, lba, p, sector) && n < |d.kids|
    requires Freed(vol, vol1, SetOf(KidClusters(d.kids[n])))
    requires k < 16 && n == 16 * j + k && vol1.Has(p)
    ensures var vol2 := vol1.WithSector(p, SetSlotIn(sector, k, x));
            && Deleting(vol2, vol0, d, n + 1)
            && Buffered(vol2, b, d, j, lba, p, SetSlotIn(sector, k, x))
  {
    hide NodeRep, Partial, Simple, Freed, Located;
    DirKeptByFree(vol0, vol, vol1, d, n, j, p);
    PatchedSector(vol1, d.chain[0], d.chain, j, k, p, x);
    var vol2 := vol1.WithSector(p, SetSlotIn(sector, k, x));
    LocatedShape(vol1, vol2, d.chain[0], d.chain, j, p);
    PartialNext(vol0, vol, vol1, vol2, d, n, x);
  }

  /** Freeing what slot n names leaves the directory itself in place. */
  lemma DirKeptByFree(vol0: Vol, vol: Vol, vol1: Vol, d: Node, n: nat, j: nat, p: Place)
    requires vol0.WellFormed() && vol.WellFormed() && vol1.WellFormed() && NodeRep(vol0, d) && d.Dir?
    requires d.chain != [] && Simple(d) && InData(vol0.data, d.chain) && InData(vol.data, d.chain)
    requires n < |d.kids| && Partial(vol0, vol, d, n) && Located(vol, d.chain, j, p)
    requires Freed(vol, vol1, SetOf(KidClusters(d.kids[n])))
    ensures IsChain(vol1, d.chain) && InData(vol1.data, d.chain) && DirSecs(vol1, d.chain) == DirSecs(vol, d.chain)
    ensures Located(vol1, d.chain, j, p) && vol.Has(p) && vol1.Has(p) && vol1.SectorAt(p) == vol.SectorAt(p)
    ensures |d.kids| == Count(DirSecs(vol1, d.chain))
  {
    PartialChain(vol0, vol, d, n);
    GoneStep(d, n);
    forall i | 0 <= i < |d.chain|
      ensures vol1.fat[d.chain[i]] == vol.fat[d.chain[i]] && vol1.data[d.chain[i]] == vol.data[d.chain[i]]
    {
      assert d.chain[i] in d.chain && vol.IsCluster(d.chain[i]);
    }
    ChainFrame(vol, vol1, d.chain);
    CatFrame(vol.data, vol1.data, d.chain);
    LocatedKept(vol, vol1, d.chain, j);
    LocatedSector(vol, d.chain, j, p);
    LocatedSector(vol1, d.chain, j, p);
  }

  /** The recursive step: a subdirectory's whole tree, or a file's chain. */
  method FreeWhatSlotNames(v: Volume, entry: Slot, ghost kid: Kid)
    requires v.Mounted() && KidRep(v.Vol(), entry, kid) && kid.Item? && Simple(kid.node)
    modifies v`disk
    ensures v.Mounted() && Freed(old(v.Vol()), v.Vol(), SetOf(KidClusters(kid)))
    decreases kid
  {
    hide View;
    ghost var vol := v.Vol();
    if IsDirSlot(entry) {
      var sub := ClusterOf(entry);
      assert vol.IsCluster(kid.node.chain[0]);
      if sub >= 2 {
        DeleteDirRecursive(v, sub, kid.node);
      }
    } else {
      FreeEntryChain(v, ClusterOf(entry), kid.node.chain);
      FreedChain(vol, v.Vol(), Elems(kid.node.chain));
      assert forall c :: c in kid.node.chain <==> c in multiset(kid.node.chain);
      assert SetOf(KidClusters(kid)) == Elems(kid.node.chain);
    }
  }
}
