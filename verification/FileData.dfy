/** Cluster chains grown and filled with file data: the loops of write_file and append_file. */
module FileData {
  import opened Bytes
  import opened Layout
  import opened Chains
  import opened Content
  import opened Names
  import opened VolumeState

  ghost function FreeClusters(vol: Vol): (r: set<nat>)
    requires vol.WellFormed()
    ensures forall c :: c in r <==> vol.IsCluster(c) && vol.fat[c] == 0
  {
    set c {:trigger vol.IsCluster(c)} | 0 <= c < |vol.data| && vol.IsCluster(c) && vol.fat[c] == 0
  }

  /** vol is vol0 with the chain ch0 (possibly empty) extended by `added`, all of which was free. */
  ghost predicate Extended(vol0: Vol, vol: Vol, ch0: seq<nat>, added: seq<nat>)
    requires vol0.WellFormed() && vol.WellFormed()
  {
    && vol.spc == vol0.spc && vol.root == vol0.root
    && (ch0 + added != [] ==> IsChain(vol, ch0 + added))
    && (forall i :: 0 <= i < |added| ==> added[i] in FreeClusters(vol0))
    && SameWords(vol0.fat, vol.fat, ch0, added)
    && SameData(vol0.data, vol.data, added)
  }

  /** The words of all clusters but the added ones and the one they were linked behind. */
  ghost predicate SameWords(fat0: seq<Word>, fat: seq<Word>, ch0: seq<nat>, added: seq<nat>) {
    && |fat| == |fat0|
    && forall c :: 0 <= c < |fat| && c !in added && (ch0 == [] || added == [] || c != Last(ch0)) ==> fat[c] == fat0[c]
  }

  ghost predicate SameData(data0: seq<seq<Sector>>, data: seq<seq<Sector>>, added: seq<nat>) {
    && |data| == |data0|
    && forall c :: 0 <= c < |data| && c !in added ==> data[c] == data0[c]
  }

  lemma HoldsAppend(secs: seq<Sector>, a: seq<Byte>, more: seq<Sector>, b: seq<Byte>)
    requires Holds(secs, a) && |a| == 512 * |secs| && Holds(more, b)
    ensures Holds(secs + more, a + b)
  {
    var n := |secs|;
    forall i | 0 <= i < |a + b|
      ensures (a + b)[i] == (secs + more)[i / 512][i % 512]
    {
      if i >= |a| {
        var k := i - |a|;
        assert i / 512 == n + k / 512 && i % 512 == k % 512;
      }
    }
  }

  /** One zeroed sector filled from `data`, as far as the data goes. */
  method FillSector(data: seq<Byte>, start: nat) returns (buf: Sector, written: nat)
    requires start <= |data|
    ensures written == Min(start + 512, |data|)
    ensures Holds([buf], data[start..written])
    ensures forall i :: written - start <= i < 512 ==> buf[i] == 0
  {
    buf := Zeros(512);
    written := start;
    var i := 0;
    while i < 512 && written < |data|
      invariant i == written - start <= 512 && written <= |data|
      invariant forall k :: 0 <= k < i ==> buf[k] == data[start + k]
      invariant forall k :: i <= k < 512 ==> buf[k] == 0
    {
      buf := buf[i := data[written]];
      written := written + 1;
      i := i + 1;
    }
  }

  /** The sectors of a new cluster filled from `data`, stopping when the data ends. */
  method FillCluster(v: Volume, cluster: nat, data: seq<Byte>, start: nat) returns (written: nat)
    requires v.Mounted() && v.Vol().IsCluster(cluster) && start < |data|
    modifies v`disk
    ensures v.Mounted() && written == Min(start + v.Vol().spc * 512, |data|)
    ensures var d := v.Vol().data;
            && |d| == |old(v.Vol()).data| && v.Vol() == old(v.Vol()).(data := d)
            && (forall c :: 0 <= c < |d| && c != cluster ==> d[c] == old(v.Vol()).data[c])
            && Holds(d[cluster], data[start..written])
  {
    hide View, Holds, Bpb.ClusterStart;
    ghost var vol0 := v.Vol();
    written := start;
    HoldsNothing(vol0.data[cluster][..0]);
    assert data[start..start] == [];
    var sectorStart := v.bpb.ClusterStart(cluster);
    var s := 0;
    while s < v.bpb.sectorsPerCluster
      invariant s <= v.bpb.sectorsPerCluster && v.Mounted()
      invariant written == start + s * 512 < |data|
      invariant |v.Vol().data| == |vol0.data| && v.Vol() == vol0.(data := v.Vol().data)
      invariant forall c :: 0 <= c < |vol0.data| && c != cluster ==> v.Vol().data[c] == vol0.data[c]
      invariant Holds(v.Vol().data[cluster][..s], data[start..written])
    {
      assert v.Vol().IsCluster(cluster);
      var buf, next := FillSector(data, written);
      FillStep(v.Vol().data[cluster], s, buf, data, start, written, next);
      v.WriteAt(sectorStart + s, buf, InCluster(cluster, s));
      written := next;
      s := s + 1;
      if written == |data| {
        break;
      }
    }
    HoldsPrefix(v.Vol().data[cluster], s, data[start..written]);
  }

  lemma HoldsNothing(secs: seq<Sector>)
    ensures Holds(secs, [])
  {
  }

  lemma FillStep(cluster: seq<Sector>, s: nat, buf: Sector, data: seq<Byte>, start: nat, written: nat, next: nat)
    requires s < |cluster| && start <= written <= next <= |data| && written == start + s * 512
    requires Holds(cluster[..s], data[start..written]) && Holds([buf], data[written..next])
    ensures Holds(cluster[s := buf][..s + 1], data[start..next])
  {
    assert cluster[s := buf][..s + 1] == cluster[..s] + [buf];
    HoldsAppend(cluster[..s], data[start..written], [buf], data[written..next]);
    assert data[start..written] + data[written..next] == data[start..next];
  }

  lemma HoldsPrefix(secs: seq<Sector>, n: nat, bytes: seq<Byte>)
    requires n <= |secs| && Holds(secs[..n], bytes)
    ensures Holds(secs, bytes)
  {
  }

  // ---------- one more cluster ----------

  /** vol' is vol with the free cluster c linked behind the chain ch (possibly empty); only c's contents changed. */
  ghost predicate ClusterAdded(vol: Vol, vol': Vol, ch: seq<nat>, c: nat)
    requires vol.WellFormed() && vol'.WellFormed()
  {
    && vol.IsCluster(c) && vol.fat[c] == 0
    && (ch != [] ==> IsChain(vol, ch))
    && vol'.spc == vol.spc && vol'.root == vol.root && |vol'.data| == |vol.data|
    && vol'.fat == (if ch == [] then vol.fat else vol.fat[Last(ch) := c])[c := END_OF_CHAIN]
    && forall k :: 0 <= k < |vol.data| && k != c ==> vol'.data[k] == vol.data[k]
  }

  /** A free cluster is in no chain, and no chain visits a cluster twice. */
  lemma FreshCluster(vol: Vol, ch: seq<nat>, c: nat)
    requires vol.WellFormed() && vol.IsCluster(c) && vol.fat[c] == 0 && (ch != [] ==> IsChain(vol, ch))
    ensures c !in ch
    ensures forall i, j :: 0 <= i < j < |ch| ==> ch[i] != ch[j]
    ensures forall i :: 0 <= i < |ch| ==> vol.IsCluster(ch[i]) && vol.fat[ch[i]] != 0
  {
    if ch != [] {
      ChainAcyclic(vol, ch);
      forall i | 0 <= i < |ch| ensures vol.fat[ch[i]] != 0 {
        ChainWord(vol, ch, i);
        if i + 1 < |ch| {
          assert vol.IsCluster(ch[i + 1]);
        }
      }
    }
  }

  lemma LinkedBehind(vol: Vol, vol': Vol, ch: seq<nat>, c: nat)
    requires vol.WellFormed() && vol'.WellFormed() && ClusterAdded(vol, vol', ch, c)
    ensures IsChain(vol', ch + [c])
  {
    FreshCluster(vol, ch, c);
    var ch' := ch + [c];
    forall i | 0 <= i < |ch'| ensures vol'.IsCluster(ch'[i]) {
      assert i < |ch| ==> vol.IsCluster(ch[i]);
    }
    forall i | 0 <= i < |ch'| - 1 ensures vol'.fat[ch'[i]] == ch'[i + 1] {
      assert vol.IsCluster(ch[i]) && ch[i] != c;
      if i < |ch| - 1 {
        assert ch[i] != ch[|ch| - 1];
        ChainWord(vol, ch, i);
      }
    }
  }

  lemma AddedChain(vol: Vol, vol': Vol, ch: seq<nat>, c: nat)
    requires vol.WellFormed() && vol'.WellFormed() && ClusterAdded(vol, vol', ch, c)
    ensures c !in ch
    ensures IsChain(vol', ch + [c])
    ensures InData(vol.data, ch) && Cat(vol'.data, ch + [c]) == Cat(vol.data, ch) + vol'.data[c]
    ensures FreeClusters(vol') == FreeClusters(vol) - {c}
  {
    FreshCluster(vol, ch, c);
    LinkedBehind(vol, vol', ch, c);
    hide IsChain;
    assert Front(ch + [c]) == ch;
    CatFrame(vol.data, vol'.data, ch);
    assert ch != [] ==> vol.fat[Last(ch)] != 0;
  }

  lemma AddedExtended(vol0: Vol, vol: Vol, vol': Vol, ch0: seq<nat>, added: seq<nat>, c: nat)
    requires vol0.WellFormed() && vol.WellFormed() && vol'.WellFormed()
    requires Extended(vol0, vol, ch0, added) && ClusterAdded(vol, vol', ch0 + added, c)
    requires ch0 != [] ==> IsChain(vol0, ch0)
    ensures Extended(vol0, vol', ch0, added + [c])
  {
    hide IsChain, Cat, SameWords, FreeClusters;
    AddedChain(vol, vol', ch0 + added, c);
    NotInParts(ch0, added, c);
    assert forall i :: 0 <= i < |ch0 + added| ==> (ch0 + added)[i] < |vol.fat|;
    KeptWord(vol0.fat, vol.fat, ch0, added, c);
    AddedWords(vol0.fat, vol.fat, ch0, added, c);
  }

  lemma NotInParts(a: seq<nat>, b: seq<nat>, c: nat)
    requires c !in a + b
    ensures c !in a && c !in b
    ensures a + (b + [c]) == a + b + [c]
  {
  }

  lemma KeptWord(fat0: seq<Word>, fat: seq<Word>, ch0: seq<nat>, added: seq<nat>, c: nat)
    requires SameWords(fat0, fat, ch0, added) && c < |fat| && c !in added && (ch0 != [] ==> c != Last(ch0))
    ensures fat[c] == fat0[c]
  {
  }

  lemma AddedWords(fat0: seq<Word>, fat: seq<Word>, ch0: seq<nat>, added: seq<nat>, c: Word)
    requires SameWords(fat0, fat, ch0, added) && c < |fat|
    requires forall i :: 0 <= i < |ch0 + added| ==> (ch0 + added)[i] < |fat|
    ensures var ch := ch0 + added;
            SameWords(fat0, (if ch == [] then fat else fat[Last(ch) := c])[c := END_OF_CHAIN], ch0, added + [c])
  {
    var ch := ch0 + added;
    var fat' := (if ch == [] then fat else fat[Last(ch) := c])[c := END_OF_CHAIN];
    forall k | 0 <= k < |fat'| && k !in added + [c] && (ch0 == [] || k != Last(ch0))
      ensures fat'[k] == fat0[k]
    {
      assert k !in added && k != c;
      if added != [] {
        assert Last(ch) == Last(added);
      }
    }
  }

  /** Takes a free cluster, clears it and links it behind `prev`; 0 iff no cluster is free. */
  method AddCluster(v: Volume, prev: nat, ghost ch: seq<nat>) returns (c: nat)
    requires v.Mounted()
    requires if ch == [] then prev == 0 else IsChain(v.Vol(), ch) && prev == Last(ch)
    modifies v`disk
    ensures v.Mounted()
    ensures c == 0 ==> v.Vol() == old(v.Vol()) && FreeClusters(v.Vol()) == {}
    ensures c != 0 ==> ClusterAdded(old(v.Vol()), v.Vol(), ch, c) && v.Vol().data[c] == ZeroCluster(v.Vol().spc)
  {
    hide View, BothWords, WordAt, SectorOf, Mirrored, Bpb.TotalClusters;
    ghost var vol0 := v.Vol();
    c := v.AllocCluster();
    if c == 0 {
      return;
    }
    v.ClearCluster(c);
    if ch != [] {
      ChainWord(vol0, ch, |ch| - 1);
      assert vol0.IsCluster(Last(ch));
    }
    if prev != 0 {
      v.SetFatEntry(prev, c);
    }
    v.SetFatEntry(c, END_OF_CHAIN);
  }

  /** The chain ch + added of vol holds the bytes in no more clusters than they need; the added clusters were
      free in vol0, and vol0 is otherwise unchanged but for the link behind ch. */
  ghost predicate Filled(vol0: Vol, vol: Vol, ch: seq<nat>, added: seq<nat>, bytes: seq<Byte>)
    requires vol0.WellFormed() && vol.WellFormed()
  {
    && Extended(vol0, vol, ch, added)
    && InData(vol.data, ch + added) && Holds(Cat(vol.data, ch + added), bytes)
    && |ch + added| == Need(vol.spc, |bytes|)
  }

  /** The chain holds exactly as many bytes as its clusters can. */
  predicate IsFull(spc: nat, ch: seq<nat>, bytes: seq<Byte>) {
    |bytes| == Capacity(spc, |ch|)
  }

  predicate IsTail(ch: seq<nat>, prev: nat) {
    prev == if ch == [] then 0 else Last(ch)
  }

  /** One turn of the loop: the cluster c, filled with `chunk`, joins the chain. */
  lemma GrowStep(vol0: Vol, vol: Vol, vol': Vol, ch: seq<nat>, added: seq<nat>, c: nat,
                 now: seq<Byte>, chunk: seq<Byte>)
    requires vol0.WellFormed() && vol.WellFormed() && vol'.WellFormed()
    requires Filled(vol0, vol, ch, added, now) && IsFull(vol.spc, ch + added, now)
    requires ClusterAdded(vol, vol', ch + added, c)
    requires ch != [] ==> IsChain(vol0, ch)
    requires Holds(vol'.data[c], chunk) && 0 < |chunk| <= vol.spc * 512
    ensures Filled(vol0, vol', ch, added + [c], now + chunk)
    ensures |chunk| == vol.spc * 512 ==> IsFull(vol.spc, ch + (added + [c]), now + chunk)
    ensures IsTail(ch + (added + [c]), c)
    ensures |FreeClusters(vol)| == |FreeClusters(vol')| + 1
  {
    var all := ch + added;
    AddedChain(vol, vol', all, c);
    AddedExtended(vol0, vol, vol', ch, added, c);
    NotInParts(ch, added, c);
    assert c in FreeClusters(vol);
    hide IsChain, Extended, ClusterAdded, FreeClusters;
    CapacityStep(vol.spc, |all|);
    NeedIs(vol.spc, |now + chunk|, |all| + 1);
    CatSize(vol, all);
    HoldsAppend(Cat(vol.data, all), now, vol'.data[c], chunk);
  }

  lemma CatSize(vol: Vol, ch: seq<nat>)
    requires vol.WellFormed() && InData(vol.data, ch) && (ch != [] ==> IsChain(vol, ch))
    ensures 512 * |Cat(vol.data, ch)| == Capacity(vol.spc, |ch|)
  {
    CatLength(vol, ch);
  }

  /** The body of the loop: one more cluster, holding the next stretch of the data. */
  method AddFilledCluster(v: Volume, prev: nat, data: seq<Byte>, written: nat,
                          ghost vol0: Vol, ghost ch: seq<nat>, ghost added: seq<nat>, ghost now: seq<Byte>)
    returns (c: nat, next: nat)
    requires v.Mounted() && written < |data| && vol0.WellFormed() && (ch != [] ==> IsChain(vol0, ch))
    requires Filled(vol0, v.Vol(), ch, added, now) && IsFull(v.Vol().spc, ch + added, now)
    requires IsTail(ch + added, prev)
    modifies v`disk
    ensures v.Mounted() && v.Vol().spc == old(v.Vol()).spc && written <= next <= |data|
    ensures c == 0 ==> v.Vol() == old(v.Vol()) && FreeClusters(v.Vol()) == {}
    ensures c != 0 ==>
              && written < next
              && Filled(vol0, v.Vol(), ch, added + [c], now + data[written..next])
              && (next < |data| ==> IsFull(v.Vol().spc, ch + (added + [c]), now + data[written..next]))
              && IsTail(ch + (added + [c]), c)
              && |FreeClusters(old(v.Vol()))| == |FreeClusters(v.Vol())| + 1
  {
    assert ch + added != [] ==> IsChain(v.Vol(), ch + added);
    hide View, IsChain, FreeClusters, Filled, IsFull;
    ghost var vol1 := v.Vol();
    c := AddCluster(v, prev, ch + added);
    if c == 0 {
      return c, written;
    }
    next := FillCluster(v, c, data, written);
    assert ClusterAdded(vol1, v.Vol(), ch + added, c);
    hide ClusterAdded;
    GrowStep(vol0, vol1, v.Vol(), ch, added, c, now, data[written..next]);
  }

  /** Appends clusters holding data[start..] behind the chain ch, whose clusters the bytes `held` fill exactly.
      Fails iff the clusters run out, after taking all that were free. */
  method AppendClusters(v: Volume, prev0: nat, data: seq<Byte>, start: nat, ghost ch: seq<nat>, ghost held: seq<Byte>)
    returns (ok: bool, first: nat, ghost added: seq<nat>)
    requires v.Mounted() && start <= |data| && (ch != [] ==> IsChain(v.Vol(), ch))
    requires Filled(v.Vol(), v.Vol(), ch, [], held) && IsTail(ch, prev0)
    requires start < |data| ==> IsFull(v.Vol().spc, ch, held)
    modifies v`disk
    ensures v.Mounted() && v.Vol().spc == old(v.Vol()).spc && Extended(old(v.Vol()), v.Vol(), ch, added)
    ensures ok <==> Need(v.Vol().spc, |held| + |data| - start) <= |ch| + |FreeClusters(old(v.Vol()))|
    ensures ok ==> Filled(old(v.Vol()), v.Vol(), ch, added, held + data[start..])
    ensures !ok ==> FreeClusters(v.Vol()) == {}
    ensures first == Head(added)
  {
    hide View, IsChain, FreeClusters, Filled, IsFull, IsTail, Need;
    ghost var vol0 := v.Vol();
    var written := start;
    var prev := prev0;
    first, added := 0, [];
    ghost var now := held;
    NothingAdded(ch, data, start, held);
    while written < |data|
      invariant written <= |data| && now == held + data[start..written]
      invariant v.Mounted() && v.Vol().spc == vol0.spc && Filled(vol0, v.Vol(), ch, added, now)
      invariant IsTail(ch + added, prev)
      invariant first == Head(added) && (first == 0 <==> added == [])
      invariant written < |data| ==> IsFull(v.Vol().spc, ch + added, now)
      invariant |added| + |FreeClusters(v.Vol())| == |FreeClusters(vol0)|
    {
      var c, next := AddFilledCluster(v, prev, data, written, vol0, ch, added, now);
      if c == 0 {
        RanOut(vol0, v.Vol(), ch, added, now, |held| + |data| - start);
        return false, first, added;
      }
      SliceMore(held, data, start, written, next);
      if first == 0 {
        first := c;
      }
      prev := c;
      now := now + data[written..next];
      written := next;
      added := added + [c];
    }
    assert data[start..|data|] == data[start..];
    FilledUnfolds(vol0, v.Vol(), ch, added, now);
    return true, first, added;
  }

  lemma SliceMore(held: seq<Byte>, data: seq<Byte>, i: nat, j: nat, k: nat)
    requires i <= j <= k <= |data|
    ensures held + data[i..j] + data[j..k] == held + data[i..k]
  {
  }

  lemma NothingAdded(ch: seq<nat>, data: seq<Byte>, start: nat, held: seq<Byte>)
    requires start <= |data|
    ensures ch + [] == ch && held + data[start..start] == held
  {
  }

  lemma FilledUnfolds(vol0: Vol, vol: Vol, ch: seq<nat>, added: seq<nat>, bytes: seq<Byte>)
    requires vol0.WellFormed() && vol.WellFormed() && Filled(vol0, vol, ch, added, bytes)
    ensures Extended(vol0, vol, ch, added) && |ch| + |added| == Need(vol.spc, |bytes|)
  {
  }

  /** Full clusters and none left: the rest of the data does not fit. */
  lemma RanOut(vol0: Vol, vol: Vol, ch: seq<nat>, added: seq<nat>, now: seq<Byte>, total: nat)
    requires vol0.WellFormed() && vol.WellFormed() && Filled(vol0, vol, ch, added, now)
    requires IsFull(vol.spc, ch + added, now) && |now| < total
    ensures Extended(vol0, vol, ch, added) && Need(vol.spc, total) > |ch| + |added|
  {
    var n := |ch + added|;
    if Need(vol.spc, total) <= n {
      CapacityMono(vol.spc, Need(vol.spc, total), n);
    }
  }
}
