/** append_file: the last cluster filled up, further clusters linked behind it, and the size raised. */
module FileAppend {
  import opened Bytes
  import opened Layout
  import opened Chains
  import opened Content
  import opened Slots
  import opened Names
  import opened Paths
  import opened VolumeState
  import opened Directory
  import opened FileData
  import opened Nodes
  import opened Tree
  import opened TreePaths
  import opened TreeOps
  import opened Resolve
  import opened Accounting
  import opened Entries
  import opened Removal
  import opened Intact
  import opened Lookup
  import opened FileWrite

  // ---------- the room left in the last cluster ----------

  /** Where the bytes end in the last of n clusters; 0 if they fill it. */
  lemma TailOffset(spc: nat, n: nat, size: nat)
    requires spc > 0 && n > 0 && Capacity(spc, n - 1) < size <= Capacity(spc, n)
    ensures Capacity(spc, n) == Capacity(spc, n - 1) + spc * 512
    ensures size % (spc * 512) == if size == Capacity(spc, n) then 0 else size - Capacity(spc, n - 1)
  {
    var k := spc * 512;
    CapacityStep(spc, n - 1);
    assert Capacity(spc, n - 1) == (n - 1) * k && Capacity(spc, n) == n * k;
    if size == Capacity(spc, n) {
      ModMultiple(n, 0, k);
    } else {
      ModMultiple(n - 1, size - (n - 1) * k, k);
    }
  }

  lemma MulNext(a: nat, b: nat, k: nat)
    requires a < b
    ensures a * k + k <= b * k
  {
    MulMono(a + 1, b, k);
    assert (a + 1) * k == a * k + k;
  }

  lemma ModMultiple(q: nat, r: nat, k: nat)
    requires r < k
    ensures (q * k + r) % k == r
  {
    var s := q * k + r;
    DivBound(s, k);
    if s / k < q {
      MulNext(s / k, q, k);
    } else if q < s / k {
      MulNext(q, s / k, k);
    }
    assert s % k == s - (s / k) * k;
  }

  /** A sector's bytes from `from` on replaced by data, as far as either goes. */
  method PatchSector(sector: Sector, from: nat, data: seq<Byte>) returns (buf: Sector, written: nat)
    requires from <= 512
    ensures written == Min(512 - from, |data|)
    ensures buf[..from] == sector[..from] && buf[from..from + written] == data[..written]
  {
    buf := sector;
    written := 0;
    var i := from;
    while i < 512 && written < |data|
      invariant i == from + written <= 512 && written <= |data|
      invariant forall k :: 0 <= k < from ==> buf[k] == sector[k]
      invariant forall k :: 0 <= k < written ==> buf[from + k] == data[k]
    {
      buf := buf[i := data[written]];
      written := written + 1;
      i := i + 1;
    }
  }

  lemma HoldsPatched(cluster: seq<Sector>, s: nat, buf: Sector, from: nat, tail: seq<Byte>, more: seq<Byte>)
    requires s < |cluster| && from <= 512 && |tail| == 512 * s + from && |more| <= 512 - from
    requires Holds(cluster, tail)
    requires buf[..from] == cluster[s][..from] && buf[from..from + |more|] == more
    ensures Holds(cluster[s := buf][..s + 1], tail + more)
  {
    var cluster' := cluster[s := buf][..s + 1];
    var bytes := tail + more;
    forall i | 0 <= i < |bytes| ensures bytes[i] == cluster'[i / 512][i % 512] {
      if i < 512 * s {
        assert i / 512 < s;
      } else {
        assert i / 512 == s && i % 512 == i - 512 * s;
        if i < |tail| {
          assert buf[i % 512] == buf[..from][i % 512] == cluster[s][..from][i % 512];
        } else {
          assert buf[i % 512] == buf[from..from + |more|][i - |tail|];
        }
      }
    }
  }

  /** Fills the last cluster of a file, whose first `offset` bytes hold `tail`, from data; tells how much went in. */
  method FillTail(v: Volume, cluster: nat, offset: nat, data: seq<Byte>, ghost tail: seq<Byte>)
    returns (written: nat)
    requires v.Mounted() && v.Vol().IsCluster(cluster) && |tail| == offset < v.Vol().spc * 512
    requires Holds(v.Vol().data[cluster], tail)
    modifies v`disk
    ensures v.Mounted() && written == Min(v.Vol().spc * 512 - offset, |data|)
    ensures OnlyCluster(old(v.Vol()), v.Vol(), cluster) && Holds(v.Vol().data[cluster], tail + data[..written])
  {
    hide View, Holds, OnlyCluster;
    ghost var vol0 := v.Vol();
    var sectorStart := v.bpb.ClusterStart(cluster);
    var sectorIndex := offset / 512;
    var sectorOffset := offset % 512;
    var buf := v.ReadAt(sectorStart + sectorIndex, InCluster(cluster, sectorIndex));
    buf, written := PatchSector(buf, sectorOffset, data);
    HoldsPatched(vol0.data[cluster], sectorIndex, buf, sectorOffset, tail, data[..written]);
    v.WriteAt(sectorStart + sectorIndex, buf, InCluster(cluster, sectorIndex));
    OneSectorWritten(vol0, vol0, cluster, sectorIndex, buf);
    sectorIndex := sectorIndex + 1;
    written := FillSectors(v, cluster, sectorStart, sectorIndex, data, written, vol0, tail);
  }

  /** vol' is vol with other contents of one cluster. */
  ghost predicate OnlyCluster(vol: Vol, vol': Vol, c: nat) {
    && vol'.spc == vol.spc && vol'.fat == vol.fat && vol'.root == vol.root && |vol'.data| == |vol.data|
    && (vol.WellFormed() ==> vol'.WellFormed())
    && forall k :: 0 <= k < |vol.data| && k != c ==> vol'.data[k] == vol.data[k]
  }

  lemma OneSectorWritten(vol0: Vol, vol: Vol, c: nat, s: nat, x: Sector)
    requires vol0.WellFormed() && vol.WellFormed() && vol.IsCluster(c) && s < |vol.data[c]|
    requires OnlyCluster(vol0, vol, c) || vol0 == vol
    ensures var vol' := vol.WithSector(InCluster(c, s), x);
            && OnlyCluster(vol0, vol', c) && vol'.WellFormed() && vol'.IsCluster(c) && |vol'.data[c]| == vol.spc
            && vol'.data[c] == vol.data[c][s := x]
  {
    assert |vol.data[c]| == vol.spc;
  }

  /** The loop over the remaining sectors of the last cluster. */
  method FillSectors(v: Volume, cluster: nat, sectorStart: nat, first: nat, data: seq<Byte>, start: nat,
                     ghost vol0: Vol, ghost tail: seq<Byte>)
    returns (written: nat)
    requires v.Mounted() && vol0.WellFormed() && OnlyCluster(vol0, v.Vol(), cluster) && v.Vol().IsCluster(cluster)
    requires sectorStart == v.bpb.ClusterStart(cluster) && first <= v.Vol().spc && start <= |data|
    requires Holds(v.Vol().data[cluster][..first], tail + data[..start])
    requires start == |data| || |tail| + start == 512 * first
    modifies v`disk
    ensures v.Mounted() && OnlyCluster(vol0, v.Vol(), cluster) && v.Vol().IsCluster(cluster)
    ensures start <= written <= |data| && (written < |data| ==> |tail| + written == 512 * v.Vol().spc)
    ensures written > start ==> |tail| + written <= 512 * v.Vol().spc
    ensures Holds(v.Vol().data[cluster], tail + data[..written])
  {
    hide View, Holds, OnlyCluster, Bpb.ClusterStart;
    var sectorIndex := first;
    written := start;
    OnlyShape(vol0, v.Vol(), cluster);
    while sectorIndex < v.bpb.sectorsPerCluster && written < |data|
      invariant v.Mounted() && OnlyCluster(vol0, v.Vol(), cluster) && v.Vol().IsCluster(cluster)
      invariant v.Vol().spc == vol0.spc && first <= sectorIndex <= v.Vol().spc
      invariant start <= written <= |data| && (written == |data| || |tail| + written == 512 * sectorIndex)
      invariant written > start ==> |tail| + written <= 512 * sectorIndex
      invariant Holds(v.Vol().data[cluster][..sectorIndex], tail + data[..written])
    {
      ghost var vol := v.Vol();
      var buf, next := FillSector(data, written);
      TailStep(vol.data[cluster], sectorIndex, buf, data, written, next, tail);
      OneSectorWritten(vol0, vol, cluster, sectorIndex, buf);
      v.WriteAt(sectorStart + sectorIndex, buf, InCluster(cluster, sectorIndex));
      written := next;
      sectorIndex := sectorIndex + 1;
    }
    HoldsPrefix(v.Vol().data[cluster], sectorIndex, tail + data[..written]);
  }

  lemma OnlyShape(vol0: Vol, vol: Vol, c: nat)
    requires OnlyCluster(vol0, vol, c)
    ensures vol.spc == vol0.spc
  {
  }

  lemma TailStep(cluster: seq<Sector>, s: nat, buf: Sector, data: seq<Byte>, written: nat, next: nat, tail: seq<Byte>)
    requires s < |cluster| && written <= next <= |data| && |tail| + written == 512 * s
    requires Holds(cluster[..s], tail + data[..written]) && Holds([buf], data[written..next])
    ensures Holds(cluster[s := buf][..s + 1], tail + data[..next])
  {
    assert cluster[s := buf][..s + 1] == cluster[..s] + [buf];
    HoldsAppend(cluster[..s], tail + data[..written], [buf], data[written..next]);
    assert tail + data[..written] + data[written..next] == tail + data[..next];
  }

  // ---------- the chain as a whole ----------

  /** The bytes in the last cluster of a file that does not fill it. */
  ghost function Tail(vol: Vol, ch: seq<nat>, bytes: seq<Byte>): seq<Byte> {
    if |ch| > 0 && Capacity(vol.spc, |ch| - 1) <= |bytes| then bytes[Capacity(vol.spc, |ch| - 1)..] else []
  }

  lemma TailOfFile(vol: Vol, ch: seq<nat>, bytes: seq<Byte>)
    requires vol.WellFormed() && FileRep(vol, ch, bytes) && ch != []
    ensures vol.IsCluster(Last(ch)) && InData(vol.data, Front(ch))
    ensures Capacity(vol.spc, |ch| - 1) < |bytes| <= Capacity(vol.spc, |ch|)
    ensures 512 * |Cat(vol.data, Front(ch))| == Capacity(vol.spc, |ch| - 1)
    ensures Holds(vol.data[Last(ch)], Tail(vol, ch, bytes))
    ensures Holds(Cat(vol.data, Front(ch)), bytes[..Capacity(vol.spc, |ch| - 1)])
  {
    assert vol.IsCluster(ch[|ch| - 1]);
    CatLength(vol, Front(ch));
    HoldsSplit(Cat(vol.data, Front(ch)), vol.data[Last(ch)], bytes);
  }

  lemma HoldsSplit(secs: seq<Sector>, more: seq<Sector>, bytes: seq<Byte>)
    requires Holds(secs + more, bytes) && 512 * |secs| <= |bytes|
    ensures Holds(secs, bytes[..512 * |secs|]) && Holds(more, bytes[512 * |secs|..])
  {
    var n := 512 * |secs|;
    var rest := bytes[n..];
    forall i | 0 <= i < |rest| ensures rest[i] == more[i / 512][i % 512] {
      assert (n + i) / 512 == |secs| + i / 512 && (n + i) % 512 == i % 512;
      assert rest[i] == bytes[n + i];
    }
  }

  /** The file after its last cluster took `more`. */
  lemma TailFilled(vol: Vol, vol': Vol, ch: seq<nat>, bytes: seq<Byte>, more: seq<Byte>)
    requires vol.WellFormed() && FileRep(vol, ch, bytes) && ch != [] && OnlyCluster(vol, vol', Last(ch))
    requires InData(vol'.data, ch) && Holds(vol'.data[Last(ch)], Tail(vol, ch, bytes) + more)
    requires |bytes| + |more| <= Capacity(vol.spc, |ch|)
    ensures vol'.WellFormed() && FileRep(vol', ch, bytes + more)
  {
    TailOfFile(vol, ch, bytes);
    var n := Capacity(vol.spc, |ch| - 1);
    ChainAcyclic(vol, ch);
    ChainFrame(vol, vol', ch);
    CatFrame(vol.data, vol'.data, Front(ch));
    HoldsAppend(Cat(vol'.data, Front(ch)), bytes[..n], vol'.data[Last(ch)], Tail(vol, ch, bytes) + more);
    assert bytes[..n] + (bytes[n..] + more) == bytes + more;
    NeedIs(vol.spc, |bytes + more|, |ch|);
  }

  /** The walk to the end of the chain. */
  method LastCluster(v: Volume, first: nat, ghost ch: seq<nat>) returns (lastCluster: nat)
    requires v.Mounted() && IsChain(v.Vol(), ch) && first == ch[0]
    ensures lastCluster == Last(ch)
  {
    hide View;
    var cluster := first;
    lastCluster := cluster;
    ghost var i := 0;
    while cluster < 0xFFF8
      invariant i < |ch| && cluster == ch[i] && v.Vol().IsCluster(ch[i])
      decreases |ch| - i
    {
      ChainWord(v.Vol(), ch, i);
      lastCluster := cluster;
      var next := v.GetFatEntry(cluster);
      if next >= 0xFFF8 {
        return;
      }
      cluster := next;
      i := i + 1;
    }
  }

  /** The first part of append_file: what the last cluster has room for. */
  method AppendTail(v: Volume, lastCluster: nat, data: seq<Byte>, oldSize: nat, ghost ch: seq<nat>,
        ghost bytes: seq<Byte>)
    returns (written: nat)
    requires v.Mounted() && ch != [] && FileRep(v.Vol(), ch, bytes) && lastCluster == Last(ch) && oldSize == |bytes|
    modifies v`disk
    ensures v.Mounted() && OnlyCluster(old(v.Vol()), v.Vol(), lastCluster) && written <= |data|
    ensures FileRep(v.Vol(), ch, bytes + data[..written])
    ensures written < |data| ==> IsFull(v.Vol().spc, ch, bytes + data[..written])
  {
    hide View, FileRep, OnlyCluster, Holds;
    ghost var vol := v.Vol();
    TailOfFile(vol, ch, bytes);
    TailOffset(vol.spc, |ch|, |bytes|);
    var clusterSizeBytes := v.bpb.sectorsPerCluster * 512;
    var offsetInCluster := oldSize % clusterSizeBytes;
    written := 0;
    if offsetInCluster != 0 {
      written := FillTail(v, lastCluster, offsetInCluster, data, Tail(vol, ch, bytes));
      TailEnds(vol, v.Vol(), ch, bytes, data, written);
    } else {
      NothingFilled(vol, ch, bytes, data, lastCluster);
    }
  }

  lemma TailEnds(vol: Vol, vol': Vol, ch: seq<nat>, bytes: seq<Byte>, data: seq<Byte>, written: nat)
    requires vol.WellFormed() && vol'.WellFormed() && FileRep(vol, ch, bytes) && ch != []
    requires OnlyCluster(vol, vol', Last(ch)) && vol.IsCluster(Last(ch)) && |bytes| < Capacity(vol.spc, |ch|)
    requires written == Min(vol.spc * 512 - (|bytes| - Capacity(vol.spc, |ch| - 1)), |data|)
    requires Capacity(vol.spc, |ch|) == Capacity(vol.spc, |ch| - 1) + vol.spc * 512
    requires Holds(vol'.data[Last(ch)], Tail(vol, ch, bytes) + data[..written])
    ensures FileRep(vol', ch, bytes + data[..written])
    ensures written < |data| ==> IsFull(vol'.spc, ch, bytes + data[..written])
  {
    TailFilled(vol, vol', ch, bytes, data[..written]);
  }

  lemma NothingFilled(vol: Vol, ch: seq<nat>, bytes: seq<Byte>, data: seq<Byte>, c: nat)
    requires vol.WellFormed() && FileRep(vol, ch, bytes)
    ensures OnlyCluster(vol, vol, c) && FileRep(vol, ch, bytes + data[..0])
    ensures |bytes| == Capacity(vol.spc, |ch|) ==> IsFull(vol.spc, ch, bytes + data[..0])
  {
    assert bytes + data[..0] == bytes;
  }

  // ---------- the volume and the tree afterwards ----------

  /** From vol0 through the filled tail and the added clusters to vol2. */
  ghost predicate GrownFrom(vol0: Vol, vol1: Vol, vol2: Vol, ch: seq<nat>, added: seq<nat>) {
    && vol0.WellFormed() && vol1.WellFormed() && vol2.WellFormed() && ch != []
    && OnlyCluster(vol0, vol1, Last(ch)) && Extended(vol1, vol2, ch, added)
  }

  /** Clusters in use outside the file's chain are spared. */
  lemma SparedByAppend(vol0: Vol, vol1: Vol, vol2: Vol, ch: seq<nat>, added: seq<nat>)
    requires GrownFrom(vol0, vol1, vol2, ch, added)
    ensures forall c :: c in added ==> vol0.IsCluster(c) && vol0.fat[c] == 0
    ensures forall c: nat :: InUse(vol0, c) && c !in ch ==>
                               c !in added && vol2.fat[c] == vol0.fat[c] && vol2.data[c] == vol0.data[c]
    ensures vol2.spc == vol0.spc && vol2.root == vol0.root && |vol2.data| == |vol0.data|
  {
    AddedWereFree(vol1, vol2, ch, added);
    forall c: nat | InUse(vol0, c) && c !in ch
      ensures c !in added && vol2.fat[c] == vol0.fat[c] && vol2.data[c] == vol0.data[c]
    {
      assert vol1.fat[c] != 0 && c != Last(ch);
    }
  }

  lemma DirWhileAppending(vol0: Vol, vol1: Vol, vol2: Vol, t: Node, at: seq<Name>, k: nat, name: Name,
                          ch: seq<nat>, bytes: seq<Byte>, added: seq<nat>)
    requires GrownFrom(vol0, vol1, vol2, ch, added) && Represents(vol0, t) && Balanced(vol0, t)
    requires DirIn(t, at) && k < |DirNode(t, at).kids| && DirNode(t, at).kids[k] == Item(name, File(ch, bytes))
    ensures var dch := DirNode(t, at).chain;
            && InData(vol0.data, dch) && InData(vol2.data, dch) && IsDirChain(vol2, Head(dch), dch)
            && IsDirChain(vol0, Head(dch), dch)
            && DirSecs(vol2, dch) == DirSecs(vol0, dch) && |DirNode(t, at).kids| == Count(DirSecs(vol0, dch))
            && forall c :: c in dch ==> c !in ch && c !in added
  {
    var dch := DirNode(t, at).chain;
    OwnedApart(vol0, t, at, k);
    DirOnDisk(vol0, t, at);
    SparedByAppend(vol0, vol1, vol2, ch, added);
    assert forall c :: c in ch ==> c in KidClusters(DirNode(t, at).kids[k]);
    forall i | 0 <= i < |dch| ensures vol2.fat[dch[i]] == vol0.fat[dch[i]] && vol2.data[dch[i]] == vol0.data[dch[i]] {
      assert dch[i] in dch;
    }
    hide NodeRep;
    if dch != [] {
      ChainFrame(vol0, vol2, dch);
      assert vol2.IsCluster(dch[0]);
    }
    CatFrame(vol0.data, vol2.data, dch);
  }

  lemma AppendConfined(vol0: Vol, vol1: Vol, vol2: Vol, vol3: Vol, t: Node, at: seq<Name>, k: nat, name: Name,
                       ch: seq<nat>, bytes: seq<Byte>, added: seq<nat>, x: Slot)
    requires GrownFrom(vol0, vol1, vol2, ch, added) && Represents(vol0, t) && Balanced(vol0, t) && vol3.WellFormed()
    requires DirIn(t, at) && k < |DirNode(t, at).kids| && DirNode(t, at).kids[k] == Item(name, File(ch, bytes))
    requires InData(vol2.data, DirNode(t, at).chain) && k < Count(DirSecs(vol2, DirNode(t, at).chain))
    requires SlotWritten(vol2, vol3, DirNode(t, at).chain, k, x)
    ensures Confined(vol0, vol3, DirNode(t, at), k, x)
  {
    DirWhileAppending(vol0, vol1, vol2, t, at, k, name, ch, bytes, added);
    SparedByAppend(vol0, vol1, vol2, ch, added);
    assert forall c :: c in ch <==> c in KidClusters(DirNode(t, at).kids[k]);
    ExtendedShape(vol1, vol2, ch, added);
  }

  lemma ExtendedShape(vol0: Vol, vol: Vol, ch: seq<nat>, added: seq<nat>)
    requires vol0.WellFormed() && vol.WellFormed() && Extended(vol0, vol, ch, added)
    ensures |vol.fat| == |vol0.fat|
  {
  }

  lemma AppendAccounted(vol0: Vol, vol1: Vol, vol2: Vol, vol3: Vol, ch: seq<nat>, added: seq<nat>)
    requires GrownFrom(vol0, vol1, vol2, ch, added) && vol3.WellFormed() && IsChain(vol0, ch)
    requires vol3.fat == vol2.fat && |vol3.data| == |vol2.data|
    ensures Accounted(vol0, vol3, multiset(ch), multiset(ch + added))
  {
    var all := ch + added;
    SparedByAppend(vol0, vol1, vol2, ch, added);
    ChainOnce(vol0, ch);
    ChainOnce(vol2, all);
    assert multiset(all) == multiset(ch) + multiset(added);
    forall c: nat ensures InUse(vol3, c) <==> c in multiset(all) || (InUse(vol0, c) && c !in multiset(ch)) {
      assert c in multiset(all) <==> c in all;
      assert c in all <==> c in ch || c in added;
      if vol3.IsCluster(c) && c !in all {
        WordOutside(vol1, vol2, ch, added, c);
      }
    }
  }

  lemma WordOutside(vol1: Vol, vol2: Vol, ch: seq<nat>, added: seq<nat>, c: nat)
    requires vol1.WellFormed() && vol2.WellFormed() && Extended(vol1, vol2, ch, added) && ch != []
    requires c < |vol1.fat| && c !in ch && c !in added
    ensures c < |vol2.fat| && vol2.fat[c] == vol1.fat[c]
  {
    assert Last(ch) in ch;
  }

  /** The state in which only the size in the slot is still the old one. */
  ghost predicate Appending(vol0: Vol, vol1: Vol, vol2: Vol, t: Node, at: seq<Name>, k: nat, name: Name,
                            ch: seq<nat>, bytes: seq<Byte>, added: seq<nat>, data: seq<Byte>) {
    && GrownFrom(vol0, vol1, vol2, ch, added) && Represents(vol0, t) && Balanced(vol0, t)
    && DirIn(t, at) && k < |DirNode(t, at).kids| && DirNode(t, at).kids[k] == Item(name, File(ch, bytes))
    && FileRep(vol0, ch, bytes) && IsStorable(name) && Filled(vol1, vol2, ch, added, bytes + data)
  }

  /** The tree once the slot has the new size. */
  lemma AppendDone(vol0: Vol, vol1: Vol, vol2: Vol, vol3: Vol, t: Node, at: seq<Name>, k: nat, name: Name,
                   ch: seq<nat>, bytes: seq<Byte>, added: seq<nat>, data: seq<Byte>, x: Slot)
    returns (t': Node)
    requires Appending(vol0, vol1, vol2, t, at, k, name, ch, bytes, added, data) && vol3.WellFormed()
    requires InData(vol2.data, DirNode(t, at).chain) && k < Count(DirSecs(vol2, DirNode(t, at).chain))
    requires SlotWritten(vol2, vol3, DirNode(t, at).chain, k, x) && IsFileSlot(x, name, ch, |bytes| + |data|)
    ensures Represents(vol3, t') && Balanced(vol3, t')
    ensures SetTo(t, t', at + [name], IsFile(ch + added, bytes + data))
    ensures Clusters(t') == Clusters(t) - multiset(ch) + multiset(ch + added)
  {
    AppendConfined(vol0, vol1, vol2, vol3, t, at, k, name, ch, bytes, added, x);
    AppendedTidy(vol0, vol3, t, at, k, name, x);
    AppendedKid(vol0, vol1, vol2, vol3, t, at, k, name, ch, bytes, added, data, x);
    assert KidClusters(DirNode(t, at).kids[k]) == multiset(ch);
    hide Represents, Balanced, Confined, Tidy, KidRep, Accounted, NodeRep, SetTo, Filled, SlotWritten, GrownFrom;
    t' := ReplaceCommit(vol0, vol3, t, at, k, x, name, ch + added, bytes + data);
  }

  lemma AppendingShape(vol0: Vol, vol1: Vol, vol2: Vol, t: Node, at: seq<Name>, k: nat, name: Name,
                       ch: seq<nat>, bytes: seq<Byte>, added: seq<nat>, data: seq<Byte>)
    requires Appending(vol0, vol1, vol2, t, at, k, name, ch, bytes, added, data)
    ensures vol0.WellFormed() && vol2.WellFormed() && DirIn(t, at) && ch != []
  {
  }

  lemma AppendedTidy(vol0: Vol, vol3: Vol, t: Node, at: seq<Name>, k: nat, name: Name, x: Slot)
    requires vol0.WellFormed() && vol3.WellFormed() && Represents(vol0, t) && DirIn(t, at) && name[0] != 0
    requires k < |DirNode(t, at).kids| && DirNode(t, at).kids[k].Item? && DirNode(t, at).kids[k].name == name
    requires Confined(vol0, vol3, DirNode(t, at), k, x) && NameOf(x) == name
    ensures Tidy(DirSecs(vol3, DirNode(t, at).chain))
  {
    GetRep(vol0, t, at);
    var d := DirNode(t, at);
    assert KidRep(vol0, SlotAt(DirSecs(vol0, d.chain), k), d.kids[k]);
    WriteTidy(vol0, vol3, t, at, k, name, x);
  }

  lemma AppendedKid(vol0: Vol, vol1: Vol, vol2: Vol, vol3: Vol, t: Node, at: seq<Name>, k: nat, name: Name,
                    ch: seq<nat>, bytes: seq<Byte>, added: seq<nat>, data: seq<Byte>, x: Slot)
    requires Appending(vol0, vol1, vol2, t, at, k, name, ch, bytes, added, data) && vol3.WellFormed()
    requires InData(vol2.data, DirNode(t, at).chain) && k < Count(DirSecs(vol2, DirNode(t, at).chain))
    requires SlotWritten(vol2, vol3, DirNode(t, at).chain, k, x) && IsFileSlot(x, name, ch, |bytes| + |data|)
    ensures KidRep(vol3, x, Item(name, File(ch + added, bytes + data)))
    ensures Accounted(vol0, vol3, multiset(ch), multiset(ch + added))
  {
    var dch := DirNode(t, at).chain;
    DirWhileAppending(vol0, vol1, vol2, t, at, k, name, ch, bytes, added);
    FilledWhole(vol1, vol2, ch, added, bytes + data);
    AppendAccounted(vol0, vol1, vol2, vol3, ch, added);
    ApartFromBoth(dch, ch, added);
    hide NodeRep, Filled, GrownFrom, IsChain, Accounted, Represents, Balanced, DirIn, IsSlotFor, FileRep;
    FileDespiteSlot(vol2, vol3, dch, ch + added, k, x, bytes + data);
    FileKid(vol3, x, name, AttrOf(x), ch + added, bytes + data);
  }

  lemma ApartFromBoth(dch: seq<nat>, a: seq<nat>, b: seq<nat>)
    requires forall c :: c in dch ==> c !in a && c !in b
    ensures forall c :: c in a + b ==> c !in dch
  {
  }

  lemma FilledWhole(vol1: Vol, vol2: Vol, ch: seq<nat>, added: seq<nat>, bytes: seq<Byte>)
    requires vol1.WellFormed() && vol2.WellFormed() && Filled(vol1, vol2, ch, added, bytes)
    ensures FileRep(vol2, ch + added, bytes)
  {
  }

  // ---------- append_file ----------

  /** The file's old bytes can still be read, although its chain may have grown. */
  ghost predicate StillHolds(vol: Vol, ch: seq<nat>, bytes: seq<Byte>)
    requires vol.WellFormed()
  {
    exists more: seq<nat> :: HoldsLonger(vol, ch, more, bytes)
  }

  ghost predicate HoldsLonger(vol: Vol, ch: seq<nat>, more: seq<nat>, bytes: seq<Byte>)
    requires vol.WellFormed()
  {
    IsChain(vol, ch + more) && Holds(Cat(vol.data, ch + more), bytes)
  }

  /** What a failed append leaves: no free cluster, everything else intact, and the file with its old contents. */
  ghost predicate AppendFailed(vol: Vol, t: Node, key: seq<Name>) {
    DiskFull(vol, t, key) && Stat(t, key).IsFile? && StillHolds(vol, Stat(t, key).chain, Stat(t, key).bytes)
  }

  lemma FullDuringAppend(vol0: Vol, vol1: Vol, vol2: Vol, t: Node, key: seq<Name>, ch: seq<nat>, bytes: seq<Byte>,
                         added: seq<nat>, more: seq<Byte>)
    requires GrownFrom(vol0, vol1, vol2, ch, added) && Represents(vol0, t) && Balanced(vol0, t)
    requires Stat(t, key) == IsFile(ch, bytes) && FileRep(vol1, ch, bytes + more) && FreeClusters(vol2) == {}
    ensures AppendFailed(vol2, t, key)
  {
    SparedByAppend(vol0, vol1, vol2, ch, added);
    assert Get(t, key).value == File(ch, bytes);
    IntactAfter(vol0, vol2, t, key, Elems(ch));
    hide IntactBut, Represents, Balanced;
    ChainOnce(vol1, ch);
    AddedWereFree(vol1, vol2, ch, added);
    forall i | 0 <= i < |ch| ensures vol2.data[ch[i]] == vol1.data[ch[i]] {
      assert ch[i] in ch;
    }
    LongerHolds(vol1, vol2, ch, added, bytes, more);
  }

  lemma LongerHolds(vol1: Vol, vol2: Vol, ch: seq<nat>, added: seq<nat>, bytes: seq<Byte>, more: seq<Byte>)
    requires vol1.WellFormed() && vol2.WellFormed() && ch != [] && |vol2.data| == |vol1.data|
    requires IsChain(vol1, ch) && IsChain(vol2, ch + added) && Holds(Cat(vol1.data, ch), bytes + more)
    requires forall i :: 0 <= i < |ch| ==> vol2.data[ch[i]] == vol1.data[ch[i]]
    ensures HoldsLonger(vol2, ch, added, bytes)
  {
    CatFrame(vol1.data, vol2.data, ch);
    CatPrefix(vol2.data, ch + added, |ch|);
    assert (ch + added)[..|ch|] == ch;
    var secs := Cat(vol1.data, ch);
    forall i | 0 <= i < |bytes| ensures bytes[i] == Cat(vol2.data, ch + added)[i / 512][i % 512] {
      assert bytes[i] == (bytes + more)[i];
    }
  }

  lemma StartAppending(vol0: Vol, vol1: Vol, ch: seq<nat>, bytes: seq<Byte>, data: seq<Byte>, written: nat)
    requires TailDone(vol0, vol1, ch, bytes, data, written)
    ensures vol0.WellFormed() && vol1.WellFormed() && ch != [] && written <= |data|
    ensures Filled(vol1, vol1, ch, [], bytes + data[..written]) && IsChain(vol1, ch) && IsTail(ch, Last(ch))
    ensures written < |data| ==> IsFull(vol1.spc, ch, bytes + data[..written])
    ensures bytes + data[..written] + data[written..] == bytes + data
    ensures vol1.spc == vol0.spc && |FreeClusters(vol1)| == |FreeClusters(vol0)|
    ensures Need(vol1.spc, |bytes + data[..written]| + |data| - written) == Need(vol0.spc, |bytes| + |data|)
  {
    assert ch + [] == ch;
    assert FreeClusters(vol1) == FreeClusters(vol0);
    assert data[..written] + data[written..] == data;
  }

  /** The state before anything is written: slot k of the directory at `at` names the file. */
  ghost predicate FileInSlot(vol: Vol, t: Node, at: seq<Name>, k: nat, name: Name, ch: seq<nat>, bytes: seq<Byte>) {
    && vol.WellFormed() && Represents(vol, t) && Balanced(vol, t)
    && DirIn(t, at) && k < |DirNode(t, at).kids| && DirNode(t, at).kids[k] == Item(name, File(ch, bytes))
    && FileRep(vol, ch, bytes) && ch != [] && IsStorable(name) && Stat(t, at + [name]) == IsFile(ch, bytes)
  }

  /** After the clusters have been appended, before the slot is written; or after they ran out. */
  ghost predicate ChainAppended(vol0: Vol, vol1: Vol, vol2: Vol, t: Node, at: seq<Name>, k: nat, name: Name,
                                ch: seq<nat>, bytes: seq<Byte>, added: seq<nat>, data: seq<Byte>, ok: bool) {
    && vol0.WellFormed() && vol2.WellFormed() && vol2.spc == vol0.spc
    && (ok <==> Need(vol0.spc, |bytes| + |data|) <= |ch| + |FreeClusters(vol0)|)
    && (if ok then Appending(vol0, vol1, vol2, t, at, k, name, ch, bytes, added, data)
        else AppendFailed(vol2, t, at + [name]))
  }

  /** The last cluster has taken data[..written], and is full if that is not all. */
  ghost predicate TailDone(vol0: Vol, vol1: Vol, ch: seq<nat>, bytes: seq<Byte>, data: seq<Byte>, written: nat) {
    && vol0.WellFormed() && vol1.WellFormed() && ch != [] && OnlyCluster(vol0, vol1, Last(ch)) && written <= |data|
    && FileRep(vol1, ch, bytes + data[..written])
    && (written < |data| ==> IsFull(vol1.spc, ch, bytes + data[..written]))
  }

  /** Walks to the last cluster and fills it up. */
  method FillUp(v: Volume, first: nat, oldSize: nat, data: seq<Byte>, ghost ch: seq<nat>, ghost bytes: seq<Byte>)
    returns (lastCluster: nat, written: nat)
    requires v.Mounted() && ch != [] && FileRep(v.Vol(), ch, bytes) && first == ch[0] && oldSize == |bytes|
    modifies v`disk
    ensures v.Mounted() && lastCluster == Last(ch) && TailDone(old(v.Vol()), v.Vol(), ch, bytes, data, written)
  {
    FileHasChain(v.Vol(), ch, bytes);
    hide View, OnlyCluster, FileRep, IsChain, IsFull, Vol.WellFormed, Capacity, InData;
    lastCluster := LastCluster(v, first, ch);
    written := AppendTail(v, lastCluster, data, oldSize, ch, bytes);
  }

  /** Appends to a file that has a chain: its last cluster is filled up, and clusters are added as needed. */
  method AppendChain(v: Volume, first: nat, oldSize: nat, data: seq<Byte>, ghost t: Node,
                     ghost at: seq<Name>, ghost k: nat, ghost name: Name, ghost ch: seq<nat>, ghost bytes: seq<Byte>)
    returns (ok: bool, ghost vol1: Vol, ghost added: seq<nat>)
    requires v.Mounted() && FileInSlot(v.Vol(), t, at, k, name, ch, bytes)
    requires first == Head(ch) && oldSize == |bytes|
    modifies v`disk
    ensures v.Mounted()
    ensures ChainAppended(old(v.Vol()), vol1, v.Vol(), t, at, k, name, ch, bytes, added, data, ok)
  {
    hide View, Volume.Mounted, FileInSlot, FileRep, TailDone, Filled, Extended, FreeClusters, Need, IsTail, IsFull,
      IsChain, ChainAppended, Vol.WellFormed;
    ghost var vol0 := v.Vol();
    FileSlotChain(vol0, t, at, k, name, ch, bytes);
    var lastCluster, written := FillUp(v, first, oldSize, data, ch, bytes);
    vol1 := v.Vol();
    StartAppending(vol0, vol1, ch, bytes, data, written);
    var f;
    ok, f, added := AppendClusters(v, lastCluster, data, written, ch, bytes + data[..written]);
    AppendedOrFull(vol0, vol1, v.Vol(), t, at, k, name, ch, bytes, added, data, written, ok);
  }

  lemma FileSlotChain(vol: Vol, t: Node, at: seq<Name>, k: nat, name: Name, ch: seq<nat>, bytes: seq<Byte>)
    requires FileInSlot(vol, t, at, k, name, ch, bytes)
    ensures vol.WellFormed() && FileRep(vol, ch, bytes) && ch != [] && Head(ch) == ch[0]
  {
  }

  lemma FileHasChain(vol: Vol, ch: seq<nat>, bytes: seq<Byte>)
    requires vol.WellFormed() && FileRep(vol, ch, bytes) && ch != []
    ensures IsChain(vol, ch)
  {
  }

  lemma AppendedOrFull(vol0: Vol, vol1: Vol, vol2: Vol, t: Node, at: seq<Name>, k: nat, name: Name, ch: seq<nat>,
                       bytes: seq<Byte>, added: seq<nat>, data: seq<Byte>, written: nat, ok: bool)
    requires FileInSlot(vol0, t, at, k, name, ch, bytes) && TailDone(vol0, vol1, ch, bytes, data, written)
    requires vol1.WellFormed() && vol2.WellFormed() && Extended(vol1, vol2, ch, added) && vol2.spc == vol0.spc
    requires if ok then Filled(vol1, vol2, ch, added, bytes + data) else FreeClusters(vol2) == {}
    requires ok <==> Need(vol2.spc, |bytes| + |data|) <= |ch| + |FreeClusters(vol0)|
    ensures vol0.WellFormed()
    ensures ChainAppended(vol0, vol1, vol2, t, at, k, name, ch, bytes, added, data, ok)
  {
    if !ok {
      hide Represents, Balanced, OnlyCluster, Extended, FileRep;
      FullDuringAppend(vol0, vol1, vol2, t, at + [name], ch, bytes, added, data[..written]);
    }
  }

  /** What append_file does to a file: on success its bytes are the old ones followed by the data. */
  ghost predicate AppendOutcome(vol0: Vol, vol3: Vol, t: Node, t': Node, key: seq<Name>,
                                ch: seq<nat>, bytes: seq<Byte>, data: seq<Byte>, r: bool) {
    && vol0.WellFormed() && vol3.WellFormed() && vol3.spc == vol0.spc
    && (r <==> Need(vol0.spc, |bytes| + |data|) <= |ch| + |FreeClusters(vol0)|)
    && (if r then
          && Represents(vol3, t') && Balanced(vol3, t')
          && Wrote(t, t', key, bytes + data) && ch <= Stat(t', key).chain
        else AppendFailed(vol3, t', key) && t' == t)
  }

  /** Appends to the file in slot k and raises its size. */
  method AppendTo(v: Volume, lba: nat, offset: nat, first: Word, oldSize: nat, data: seq<Byte>,
                  ghost at: seq<Name>, ghost k: nat, ghost name: Name, ghost ch: seq<nat>, ghost bytes: seq<Byte>,
                  ghost p: Place)
    returns (r: bool)
    requires v.Mounted() && FileInSlot(v.Vol(), v.tree, at, k, name, ch, bytes)
    requires first == Head(ch) && oldSize == |bytes| && |bytes| + |data| < 0x1_0000_0000
    requires InData(v.Vol().data, DirNode(v.tree, at).chain)
    requires IsAt(v.Vol(), v.bpb, DirNode(v.tree, at).chain, k, lba, offset, p)
    modifies v`disk, v`tree
    ensures v.Mounted()
    ensures AppendOutcome(old(v.Vol()), v.Vol(), old(v.tree), v.tree, at + [name], ch, bytes, data, r)
  {
    hide View, Bpb.Good, Mirrored, FileInSlot, ChainAppended, Appending, SlotWritten, Stat, DirIn, Head, IsAt,
      AppendOutcome, Vol.WellFormed, IsDirChain, InData, DirSecs, Get;
    ghost var vol0, t := v.Vol(), v.tree;
    FileSlotDir(vol0, t, at, k, name, ch, bytes);
    ghost var dch := DirNode(t, at).chain;
    ghost var vol1, added;
    r, vol1, added := AppendChain(v, first, oldSize, data, t, at, k, name, ch, bytes);
    ghost var vol2 := v.Vol();
    AppendSoFar(vol0, vol1, vol2, t, at, k, name, ch, bytes, added, data, r);
    if !r {
      v.tree := t;
      return;
    }
    SlotWhileAppending(vol0, vol1, vol2, v.bpb, t, at, k, name, ch, bytes, added, data, lba, offset, p);
    ghost var x := RelinkSlot(v, lba, offset, first, oldSize + |data|, dch, k, p);
    v.tree := AppendEnds(vol0, vol1, vol2, v.Vol(), t, at, k, name, ch, bytes, added, data, x);
  }

  lemma FileSlotDir(vol: Vol, t: Node, at: seq<Name>, k: nat, name: Name, ch: seq<nat>, bytes: seq<Byte>)
    requires FileInSlot(vol, t, at, k, name, ch, bytes)
    ensures DirIn(t, at) && Stat(t, at + [name]) == IsFile(ch, bytes)
  {
  }

  lemma AppendSoFar(vol0: Vol, vol1: Vol, vol2: Vol, t: Node, at: seq<Name>, k: nat, name: Name,
                    ch: seq<nat>, bytes: seq<Byte>, added: seq<nat>, data: seq<Byte>, ok: bool)
    requires ChainAppended(vol0, vol1, vol2, t, at, k, name, ch, bytes, added, data, ok)
    ensures ok ==> Appending(vol0, vol1, vol2, t, at, k, name, ch, bytes, added, data)
    ensures ok ==> vol2.spc == vol0.spc && Need(vol0.spc, |bytes| + |data|) <= |ch| + |FreeClusters(vol0)|
    ensures !ok ==> AppendOutcome(vol0, vol2, t, t, at + [name], ch, bytes, data, false)
  {
  }

  lemma SlotWhileAppending(vol0: Vol, vol1: Vol, vol2: Vol, b: Bpb, t: Node, at: seq<Name>, k: nat, name: Name,
                           ch: seq<nat>, bytes: seq<Byte>, added: seq<nat>, data: seq<Byte>,
                           lba: nat, offset: nat, p: Place)
    requires Appending(vol0, vol1, vol2, t, at, k, name, ch, bytes, added, data)
    requires InData(vol0.data, DirNode(t, at).chain)
    requires IsAt(vol0, b, DirNode(t, at).chain, k, lba, offset, p)
    ensures var dch := DirNode(t, at).chain;
            && vol2.WellFormed() && InData(vol2.data, dch) && IsDirChain(vol2, Head(dch), dch)
            && IsAt(vol2, b, dch, k, lba, offset, p) && k < Count(DirSecs(vol2, dch))
            && NameOf(SlotAt(DirSecs(vol2, dch), k)) == name && IsFileAttr(AttrOf(SlotAt(DirSecs(vol2, dch), k)))
  {
    var dch := DirNode(t, at).chain;
    DirWhileAppending(vol0, vol1, vol2, t, at, k, name, ch, bytes, added);
    SparedByAppend(vol0, vol1, vol2, ch, added);
    FileSlotKind(vol0, t, at, k);
    hide NodeRep, GrownFrom, Filled, Located;
    IsAtShape(vol0, vol2, b, Head(dch), dch, k, lba, offset, p);
  }

  lemma FileSlotKind(vol: Vol, t: Node, at: seq<Name>, k: nat)
    requires vol.WellFormed() && Represents(vol, t) && DirIn(t, at) && k < |DirNode(t, at).kids|
    requires DirNode(t, at).kids[k].Item? && DirNode(t, at).kids[k].node.File?
    ensures InData(vol.data, DirNode(t, at).chain) && k < Count(DirSecs(vol, DirNode(t, at).chain))
    ensures var s := SlotAt(DirSecs(vol, DirNode(t, at).chain), k);
            NameOf(s) == DirNode(t, at).kids[k].name && IsFileAttr(AttrOf(s))
  {
    DirOnDisk(vol, t, at);
    var d := DirNode(t, at);
    assert KidRep(vol, SlotAt(DirSecs(vol, d.chain), k), d.kids[k]);
  }

  lemma AppendEnds(vol0: Vol, vol1: Vol, vol2: Vol, vol3: Vol, t: Node, at: seq<Name>, k: nat, name: Name,
                   ch: seq<nat>, bytes: seq<Byte>, added: seq<nat>, data: seq<Byte>, x: Slot)
    returns (t': Node)
    requires Appending(vol0, vol1, vol2, t, at, k, name, ch, bytes, added, data) && vol3.WellFormed()
    requires InData(vol2.data, DirNode(t, at).chain) && k < Count(DirSecs(vol2, DirNode(t, at).chain))
    requires SlotWritten(vol2, vol3, DirNode(t, at).chain, k, x)
    requires Stat(t, at + [name]) == IsFile(ch, bytes) && vol3.spc == vol0.spc
    requires Need(vol0.spc, |bytes| + |data|) <= |ch| + |FreeClusters(vol0)|
    requires var s := SlotAt(DirSecs(vol2, DirNode(t, at).chain), k);
             NameOf(s) == name && IsFileAttr(AttrOf(s)) && Head(ch) < 0x1_0000 && |bytes| + |data| < 0x1_0000_0000
             && x == Relinked(s, Head(ch), |bytes| + |data|)
    ensures AppendOutcome(vol0, vol3, t, t', at + [name], ch, bytes, data, true)
  {
    hide Represents, Balanced, Appending, SlotWritten, Relinked, NodeRep, SlotAt, DirSecs, Count;
    AppendingShape(vol0, vol1, vol2, t, at, k, name, ch, bytes, added, data);
    t' := AppendDone(vol0, vol1, vol2, vol3, t, at, k, name, ch, bytes, added, data, x);
  }

  lemma LocatedFile(v: Volume, at: seq<Name>, name: Name, lba: nat, offset: nat, k: nat, p: Place)
    requires Valid(v) && v.Mounted() && FoundAt(v.Vol(), v.tree, v.bpb, at, name, lba, offset, k, p)
    requires Stat(v.tree, at + [name]).IsFile? && Stat(v.tree, at + [name]).chain != []
    requires name[0] != DOT
    ensures var e := Stat(v.tree, at + [name]); FileInSlot(v.Vol(), v.tree, at, k, name, e.chain, e.bytes)
  {
    KidInTree(v.Vol(), v.tree, at, name);
    DirOnDisk(v.Vol(), v.tree, at);
    KidNamesLive(v.Vol(), DirNode(v.tree, at));
    var d := DirNode(v.tree, at);
    var s := SlotAt(DirSecs(v.Vol(), d.chain), k);
    assert KidRep(v.Vol(), s, d.kids[k]);
    assert s[0] == NameOf(s)[0];
  }

  function OldBytes(e: Entry): seq<Byte> {
    if e.IsFile? then e.bytes else []
  }

  /** The append succeeds exactly if there is an entry to write to, and clusters enough for the longer file. */
  ghost predicate AppendFits(vol: Vol, t: Node, at: seq<Name>, name: Name, size: nat)
    requires vol.WellFormed()
  {
    var e := Stat(t, at + [name]);
    CanWrite(vol, t, at, name) && Need(vol.spc, |OldBytes(e)| + size) <= |FreeClusters(vol)| + |OldChain(e)|
  }

  /** What a failed append leaves of the file: its old contents, if it had any. */
  ghost predicate OldStays(vol: Vol, e: Entry) {
    vol.WellFormed() && (OldBytes(e) != [] ==> StillHolds(vol, OldChain(e), OldBytes(e)))
  }

  /** The contract of append_file in the directory at `at`, from vol and t to vol' and t'. */
  ghost predicate Appended(vol: Vol, vol': Vol, t: Node, t': Node, at: seq<Name>, name: Name, data: seq<Byte>,
        r: bool) {
    && vol.WellFormed() && vol'.WellFormed()
    && (r <==> AppendFits(vol, t, at, name, |data|))
    && var key, e := at + [name], Stat(t, at + [name]);
    if r then
      if IsStorable(name) then
        && Represents(vol', t') && Balanced(vol', t')
        && Wrote(t, t', key, OldBytes(e) + data) && OldChain(e) <= Stat(t', key).chain
      else Represents(vol', t') && t' == t
    else if CanWrite(vol, t, at, name) then
      DiskFull(vol', t', key) && KeptOrCreated(t, t', key) && OldStays(vol', e)
    else vol' == vol && t' == t
  }

  lemma AppendedTo(vol: Vol, vol': Vol, t: Node, t': Node, at: seq<Name>, k: nat, name: Name,
                   ch: seq<nat>, bytes: seq<Byte>, data: seq<Byte>, r: bool)
    requires FileInSlot(vol, t, at, k, name, ch, bytes)
    requires AppendOutcome(vol, vol', t, t', at + [name], ch, bytes, data, r)
    ensures Appended(vol, vol', t, t', at, name, data, r)
  {
    hide Represents, Balanced, Wrote, IntactBut, StillHolds, SetTo, Need, Get;
  }

  /** An append to a file that has no bytes is a write. */
  lemma AppendedByWrite(vol: Vol, vol': Vol, t: Node, t': Node, at: seq<Name>, name: Name, data: seq<Byte>, r: bool)
    requires !Stat(t, at + [name]).IsFile? || (Stat(t, at + [name]).chain == [] && Stat(t, at + [name]).bytes == [])
    requires WriteOutcome(vol, vol', t, t', at + [name], data, r)
    ensures Appended(vol, vol', t, t', at, name, data, r)
  {
    hide Represents, Balanced, SetTo, Need, Get, CanWrite, DiskFull, KeptOrCreated;
    assert [] + data == data;
    assert Front(at + [name]) == at && Last(at + [name]) == name;
  }

  lemma AppendedNot(vol: Vol, t: Node, at: seq<Name>, name: Name, data: seq<Byte>)
    requires vol.WellFormed() && !CanWrite(vol, t, at, name)
    ensures Appended(vol, vol, t, t, at, name, data, false)
  {
  }

  /** Appends to the file that `path` names, or creates it. */
  method AppendFile(v: Volume, path: Str, data: seq<Byte>) returns (r: bool)
    requires Valid(v) && FitsBuffers(v.currentPath, path)
    requires |OldBytes(Stat(v.tree, KeyOf(v.currentPath, path)))| + |data| < 0x1_0000_0000
    modifies v`disk, v`tree
    ensures v.Mounted()
    ensures var key := KeyOf(v.currentPath, path);
            if path == [] || key == [] then !r && v.Vol() == old(v.Vol()) && v.tree == old(v.tree)
            else Appended(old(v.Vol()), v.Vol(), old(v.tree), v.tree, Front(key), Last(key), data, r)
  {
    hide View, Bpb.Good, Mirrored, FitsBuffers, KeyOf, DirIn, Stat, EntryIs, FoundAt, Appended, CanWrite, WriteFits,
      WriteOutcome, Represents, Balanced, Wrote, DiskFull, KeptOrCreated, IsStorable, FileInSlot, AppendOutcome, IsAt,
      DirSecs, InData, Vol.WellFormed;
    if path == [] {
      return false;
    }
    ghost var key := KeyOf(v.currentPath, path);
    ghost var vol, t := v.Vol(), v.tree;
    var ok, parentCluster, filename := ResolveParent(v, path);
    if !ok {
      if key != [] {
        NoWriteWithoutParent(vol, t, key);
        AppendedNot(vol, t, Front(key), Last(key), data);
      }
      return false;
    }
    ghost var at, name := Front(key), Fmt(filename);
    var found, lba, offset, entry;
    ghost var k, p;
    found, lba, offset, entry, k, p := LocateIn(v, parentCluster, filename, at);
    ghost var e := Stat(t, at + [name]);
    if !found {
      r := WriteFile(v, path, data);
      AppendedByWrite(vol, v.Vol(), t, v.tree, at, name, data, r);
      return;
    }
    EntryKinds(vol, t, at, name, entry, e);
    if IsDirSlot(entry) {
      AppendedNot(vol, t, at, name, data);
      return false;
    }
    var cluster := ClusterOf(entry);
    if cluster == 0 {
      r := WriteFile(v, path, data);
      AppendedByWrite(vol, v.Vol(), t, v.tree, at, name, data, r);
      return;
    }
    FmtFirst(filename);
    LocatedFile(v, at, name, lba, offset, k, p);
    DirOfFound(vol, t, v.bpb, at, name, lba, offset, k, p);
    r := AppendTo(v, lba, offset, cluster, SizeOf(entry), data, at, k, name, e.chain, e.bytes, p);
    AppendedTo(vol, v.Vol(), t, v.tree, at, k, name, e.chain, e.bytes, data, r);
  }

  lemma DirOfFound(vol: Vol, t: Node, b: Bpb, at: seq<Name>, name: Name, lba: nat, offset: nat, k: nat, p: Place)
    requires FoundAt(vol, t, b, at, name, lba, offset, k, p)
    ensures DirIn(t, at) && InData(vol.data, DirNode(t, at).chain)
    ensures IsAt(vol, b, DirNode(t, at).chain, k, lba, offset, p)
  {
  }

  lemma EntryKinds(vol: Vol, t: Node, at: seq<Name>, name: Name, s: Slot, e: Entry)
    requires e == Stat(t, at + [name]) && EntryIs(s, e)
    ensures IsDirSlot(s) ==> !CanWrite(vol, t, at, name)
    ensures !IsDirSlot(s) ==>
              && e.IsFile? && SizeOf(s) == |e.bytes| && ClusterOf(s) == Head(e.chain)
              && (ClusterOf(s) == 0 <==> e.chain == []) && (e.chain == [] <==> e.bytes == [])
  {
  }
}
