/** Directories on disk: the root region or a cluster chain, searched and patched slot by slot. */
module Directory {
  import opened Bytes
  import opened Layout
  import opened Chains
  import opened Content
  import opened Slots
  import opened Names
  import opened VolumeState

  /** ch is the chain of the directory whose first cluster is c; the root is cluster 0 and has no chain. */
  ghost predicate IsDirChain(vol: Vol, c: nat, ch: seq<nat>)
    requires vol.WellFormed()
  {
    if c == 0 then ch == [] else IsChain(vol, ch) && ch[0] == c
  }

  ghost function DirSecs(vol: Vol, ch: seq<nat>): seq<Sector>
    requires InData(vol.data, ch)
  {
    if ch == [] then vol.root else Cat(vol.data, ch)
  }

  /** p is the place of sector j of the directory with chain ch. */
  ghost predicate Located(vol: Vol, ch: seq<nat>, j: nat, p: Place)
    requires InData(vol.data, ch)
  {
    match p
    case InRoot(s) => ch == [] && s == j < |vol.root|
    case InCluster(c, s) => exists i: nat :: LocatedIn(vol, ch, j, c, s, i)
  }

  ghost predicate LocatedIn(vol: Vol, ch: seq<nat>, j: nat, c: nat, s: nat, i: nat)
    requires InData(vol.data, ch)
  {
    && i < |ch| && ch[i] == c && vol.IsCluster(c) && s < |vol.data[c]|
    && |Cat(vol.data, ch[..i])| + s == j
  }

  lemma LocatedSector(vol: Vol, ch: seq<nat>, j: nat, p: Place)
    requires vol.WellFormed() && InData(vol.data, ch) && Located(vol, ch, j, p)
    ensures vol.Has(p) && j < |DirSecs(vol, ch)| && vol.SectorAt(p) == DirSecs(vol, ch)[j]
  {
    if p.InCluster? {
      var i: nat :| LocatedIn(vol, ch, j, p.c, p.s, i);
      CatCluster(vol.data, ch, i);
      assert Cat(vol.data, ch)[|Cat(vol.data, ch[..i])| + p.s] == vol.data[p.c][p.s];
    }
  }

  /** Writing a directory's sector in place changes that sector of the directory only. */
  lemma WriteLocated(vol: Vol, c: nat, ch: seq<nat>, j: nat, p: Place, x: Sector)
    requires vol.WellFormed() && IsDirChain(vol, c, ch) && Located(vol, ch, j, p)
    ensures vol.Has(p) && j < |DirSecs(vol, ch)|
    ensures var vol' := vol.WithSector(p, x);
            && vol'.WellFormed() && vol'.fat == vol.fat && |vol'.data| == |vol.data|
            && DirSecs(vol', ch) == DirSecs(vol, ch)[j := x]
            && (ch != [] ==> vol'.root == vol.root)
            && forall k :: 0 <= k < |vol.data| && k !in ch ==> vol'.data[k] == vol.data[k]
  {
    LocatedSector(vol, ch, j, p);
    if p.InCluster? {
      var i: nat :| LocatedIn(vol, ch, j, p.c, p.s, i);
      ChainAcyclic(vol, ch);
      CatUpdate(vol.data, ch, i, p.s, x);
    }
  }

  /** The loops shared by find_entry, find_entry_location, find_free_dir_entry and is_dir_empty: over the
      root's sectors, or over the clusters of a chain and the sectors of each. */
  method ScanDir(v: Volume, dirCluster: nat, goal: Goal, ghost ch: seq<nat>)
    returns (found: bool, lba: nat, offset: nat, slot: Slot, ghost p: Place)
    requires v.Mounted() && IsDirChain(v.Vol(), dirCluster, ch)
    ensures !found ==> First(DirSecs(v.Vol(), ch), goal) == Count(DirSecs(v.Vol(), ch))
    ensures found ==> IsHit(v.Vol(), v.bpb, ch, goal, lba, offset, slot, p)
  {
    hide View;
    if dirCluster == 0 {
      found, lba, offset, slot, p := ScanRoot(v, goal);
    } else {
      found, lba, offset, slot, p := ScanChain(v, dirCluster, goal, ch);
    }
  }

  /** The result of a search that found a slot: its contents and where it is on disk. */
  ghost predicate IsHit(vol: Vol, b: Bpb, ch: seq<nat>, goal: Goal, lba: nat, offset: nat, slot: Slot, p: Place)
    requires InData(vol.data, ch)
  {
    var k := First(DirSecs(vol, ch), goal);
    IsAt(vol, b, ch, k, lba, offset, p) && slot == SlotAt(DirSecs(vol, ch), k)
  }

  /** Slot k of the directory lies at `offset` in the sector number lba, which is that of p. */
  ghost predicate IsAt(vol: Vol, b: Bpb, ch: seq<nat>, k: nat, lba: nat, offset: nat, p: Place)
    requires InData(vol.data, ch)
  {
    && k < Count(DirSecs(vol, ch)) && offset == 32 * (k % 16)
    && Located(vol, ch, k / 16, p) && IsLba(b, p, lba)
  }

  ghost predicate IsLba(b: Bpb, p: Place, lba: nat) {
    b.bytesPerSector > 0 && (p.InCluster? ==> 2 <= p.c) && lba == b.Lba(p)
  }

  method ScanRoot(v: Volume, goal: Goal)
    returns (found: bool, lba: nat, offset: nat, slot: Slot, ghost p: Place)
    requires v.Mounted()
    ensures !found ==> First(v.Vol().root, goal) == Count(v.Vol().root)
    ensures found ==> IsHit(v.Vol(), v.bpb, [], goal, lba, offset, slot, p)
  {
    ViewShape(v.bpb, v.disk);
    hide View;
    var rootStart := v.bpb.RootStart();
    for s := 0 to v.bpb.RootSectors()
      invariant NoneBefore(v.Vol().root, goal, 16 * s)
    {
      p := InRoot(s);
      found, offset, slot := ScanAt(v, rootStart + s, goal, [], s, p);
      if found {
        return true, rootStart + s, offset, slot, p;
      }
    }
    FirstIs(v.Vol().root, goal, Count(v.Vol().root));
    return false, 0, 0, Zeros(32), InRoot(0);
  }

  method ScanChain(v: Volume, dirCluster: nat, goal: Goal, ghost ch: seq<nat>)
    returns (found: bool, lba: nat, offset: nat, slot: Slot, ghost p: Place)
    requires v.Mounted() && IsChain(v.Vol(), ch) && ch[0] == dirCluster
    ensures !found ==> First(DirSecs(v.Vol(), ch), goal) == Count(DirSecs(v.Vol(), ch))
    ensures found ==> IsHit(v.Vol(), v.bpb, ch, goal, lba, offset, slot, p)
  {
    hide View, IsHit, WordAt, SectorOf;
    ghost var vol := v.Vol();
    ghost var secs := DirSecs(vol, ch);
    var cluster := dirCluster;
    ghost var i := 0;
    while cluster < 0xFFF8
      invariant i <= |ch|
      invariant i < |ch| ==> cluster == ch[i]
      invariant i == |ch| ==> cluster >= 0xFFF8
      invariant NoneBefore(secs, goal, 16 * |Cat(vol.data, ch[..i])|)
      decreases |ch| - i
    {
      CatCluster(vol.data, ch, i);
      found, lba, offset, slot, p := ScanCluster(v, cluster, goal, ch, i);
      if found {
        return;
      }
      ChainWord(vol, ch, i);
      cluster := v.GetFatEntry(cluster);
      i := i + 1;
    }
    assert ch[..i] == ch;
    FirstIs(secs, goal, Count(secs));
    return false, 0, 0, Zeros(32), InRoot(0);
  }

  /** Scans the sectors of the i-th cluster of a directory, all of whose earlier slots have been passed over. */
  method ScanCluster(v: Volume, cluster: nat, goal: Goal, ghost ch: seq<nat>, ghost i: nat)
    returns (found: bool, lba: nat, offset: nat, slot: Slot, ghost p: Place)
    requires v.Mounted() && IsChain(v.Vol(), ch) && i < |ch| && ch[i] == cluster
    requires NoneBefore(DirSecs(v.Vol(), ch), goal, 16 * |Cat(v.Vol().data, ch[..i])|)
    ensures found ==> IsHit(v.Vol(), v.bpb, ch, goal, lba, offset, slot, p)
    ensures !found ==> NoneBefore(DirSecs(v.Vol(), ch), goal,
                                  16 * (|Cat(v.Vol().data, ch[..i])| + v.bpb.sectorsPerCluster))
  {
    hide View;
    ghost var vol := v.Vol();
    ghost var j := |Cat(vol.data, ch[..i])|;
    CatCluster(vol.data, ch, i);
    var startSector := v.bpb.ClusterStart(cluster);
    for s := 0 to v.bpb.sectorsPerCluster
      invariant NoneBefore(DirSecs(vol, ch), goal, 16 * (j + s))
    {
      p := InCluster(cluster, s);
      assert LocatedIn(vol, ch, j + s, cluster, s, i);
      found, offset, slot := ScanAt(v, startSector + s, goal, ch, j + s, p);
      if found {
        return true, startSector + s, offset, slot, p;
      }
    }
    return false, 0, 0, Zeros(32), InRoot(0);
  }

  ghost predicate NoneBefore(secs: seq<Sector>, goal: Goal, n: nat) {
    n <= Count(secs) && forall k :: 0 <= k < n ==> !Stops(goal, SlotAt(secs, k))
  }

  /** Scans sector j of a directory, all of whose earlier slots have been passed over. */
  method ScanAt(v: Volume, lba: nat, goal: Goal, ghost ch: seq<nat>, ghost j: nat, ghost p: Place)
    returns (found: bool, offset: nat, slot: Slot)
    requires v.Mounted() && InData(v.Vol().data, ch) && Located(v.Vol(), ch, j, p) && IsLba(v.bpb, p, lba)
    requires NoneBefore(DirSecs(v.Vol(), ch), goal, 16 * j)
    ensures found ==> IsHit(v.Vol(), v.bpb, ch, goal, lba, offset, slot, p)
    ensures !found ==> NoneBefore(DirSecs(v.Vol(), ch), goal, 16 * (j + 1))
  {
    hide View, IsHit, Located, First;
    LocatedSector(v.Vol(), ch, j, p);
    var sector := v.ReadAt(lba, p);
    var k := ScanSector(sector, goal);
    SectorSlots(DirSecs(v.Vol(), ch), j);
    if k < 16 {
      SectorHit(v.Vol(), v.bpb, ch, goal, j, k, lba, p);
      return true, 32 * k, SlotIn(sector, k);
    }
    return false, 0, Zeros(32);
  }

  lemma SectorHit(vol: Vol, b: Bpb, ch: seq<nat>, goal: Goal, j: nat, k: nat, lba: nat, p: Place)
    requires vol.WellFormed() && InData(vol.data, ch) && Located(vol, ch, j, p) && IsLba(b, p, lba)
    requires k < 16 && j < |DirSecs(vol, ch)|
    requires NoneBefore(DirSecs(vol, ch), goal, 16 * j + k)
    requires Stops(goal, SlotIn(DirSecs(vol, ch)[j], k))
    ensures IsHit(vol, b, ch, goal, lba, 32 * k, SlotIn(DirSecs(vol, ch)[j], k), p)
  {
    var secs := DirSecs(vol, ch);
    var n := 16 * j + k;
    assert n / 16 == j && n % 16 == k;
    FirstIs(secs, goal, n);
  }

  lemma SectorSlots(secs: seq<Sector>, j: nat)
    requires j < |secs|
    ensures forall i :: 0 <= i < 16 ==> SlotAt(secs, 16 * j + i) == SlotIn(secs[j], i)
    ensures forall k :: 16 * j <= k < 16 * (j + 1) ==>
                          SlotAt(secs, k) == SlotIn(secs[j], k - 16 * j)
  {
  }

  // ---------- the driver's searches ----------

  method FindEntry(v: Volume, dirCluster: nat, name: Str, ghost ch: seq<nat>) returns (found: bool, entry: Slot)
    requires v.Mounted() && IsDirChain(v.Vol(), dirCluster, ch)
    ensures found <==> Find(DirSecs(v.Vol(), ch), Fmt(name)) < Count(DirSecs(v.Vol(), ch))
    ensures found ==> entry == SlotAt(DirSecs(v.Vol(), ch), Find(DirSecs(v.Vol(), ch), Fmt(name)))
  {
    hide View, Located;
    var fatname := FormatFilename(name);
    var lba, offset;
    ghost var p;
    found, lba, offset, entry, p := ScanDir(v, dirCluster, Named(fatname), ch);
    if found && IsEnd(entry) {
      found := false;
    }
  }

  method FindEntryLocation(v: Volume, dirCluster: nat, name: Str, ghost ch: seq<nat>)
    returns (found: bool, lba: nat, offset: nat, entry: Slot, ghost p: Place)
    requires v.Mounted() && IsDirChain(v.Vol(), dirCluster, ch)
    ensures found <==> Find(DirSecs(v.Vol(), ch), Fmt(name)) < Count(DirSecs(v.Vol(), ch))
    ensures found ==>
              var k := Find(DirSecs(v.Vol(), ch), Fmt(name));
              entry == SlotAt(DirSecs(v.Vol(), ch), k) && IsAt(v.Vol(), v.bpb, ch, k, lba, offset, p)
  {
    hide View, Located;
    var fatname := FormatFilename(name);
    found, lba, offset, entry, p := ScanDir(v, dirCluster, Named(fatname), ch);
    if found && IsEnd(entry) {
      found := false;
    }
  }

  method FindFreeDirEntry(v: Volume, dirCluster: nat, ghost ch: seq<nat>)
    returns (found: bool, lba: nat, offset: nat, ghost p: Place)
    requires v.Mounted() && IsDirChain(v.Vol(), dirCluster, ch)
    ensures found <==> First(DirSecs(v.Vol(), ch), Vacant) < Count(DirSecs(v.Vol(), ch))
    ensures found ==> IsAt(v.Vol(), v.bpb, ch, First(DirSecs(v.Vol(), ch), Vacant), lba, offset, p)
  {
    hide View, Located;
    var slot;
    found, lba, offset, slot, p := ScanDir(v, dirCluster, Vacant, ch);
  }

  /** No slot before the end marker is live. */
  method IsDirEmpty(v: Volume, dirCluster: nat, ghost ch: seq<nat>) returns (empty: bool)
    requires v.Mounted() && IsChain(v.Vol(), ch) && dirCluster == ch[0]
    ensures var secs := DirSecs(v.Vol(), ch);
            var k := First(secs, Occupied);
            empty <==> k == Count(secs) || IsEnd(SlotAt(secs, k))
  {
    hide View, Located;
    var found, lba, offset, slot;
    ghost var p;
    assert v.Vol().IsCluster(ch[0]);
    found, lba, offset, slot, p := ScanDir(v, dirCluster, Occupied, ch);
    empty := !found || IsEnd(slot);
  }

  // ---------- patching one slot ----------

  method ReadSlot(v: Volume, lba: nat, offset: nat, ghost ch: seq<nat>, ghost k: nat, ghost p: Place)
    returns (slot: Slot)
    requires v.Mounted() && InData(v.Vol().data, ch) && IsAt(v.Vol(), v.bpb, ch, k, lba, offset, p)
    ensures slot == SlotAt(DirSecs(v.Vol(), ch), k)
  {
    hide View;
    LocatedSector(v.Vol(), ch, k / 16, p);
    var sector := v.ReadAt(lba, p);
    slot := sector[offset..offset + 32];
  }

  /** Reads the sector again, overwrites the slot and writes the sector back. */
  method WriteSlot(v: Volume, lba: nat, offset: nat, slot: Slot,
                   ghost c: nat, ghost ch: seq<nat>, ghost k: nat, ghost p: Place)
    requires v.Mounted() && IsDirChain(v.Vol(), c, ch) && IsAt(v.Vol(), v.bpb, ch, k, lba, offset, p)
    modifies v`disk
    ensures v.Mounted() && SlotWritten(old(v.Vol()), v.Vol(), ch, k, slot)
  {
    hide View;
    ghost var vol := v.Vol();
    LocatedSector(vol, ch, k / 16, p);
    var sector := v.ReadAt(lba, p);
    var patched: Sector := Splice(sector, offset, slot);
    WriteLocated(vol, c, ch, k / 16, p, patched);
    v.WriteAt(lba, patched, p);
  }

  /** vol' is vol with slot k of the directory ch replaced by x, and nothing else changed. */
  ghost predicate SlotWritten(vol: Vol, vol': Vol, ch: seq<nat>, k: nat, x: Slot)
    requires InData(vol.data, ch) && k < Count(DirSecs(vol, ch))
  {
    && InData(vol'.data, ch) && vol'.spc == vol.spc && vol'.fat == vol.fat && |vol'.data| == |vol.data|
    && DirSecs(vol', ch) == SetSlot(DirSecs(vol, ch), k, x)
    && (ch != [] ==> vol'.root == vol.root)
    && forall c :: 0 <= c < |vol.data| && c !in ch ==> vol'.data[c] == vol.data[c]
  }

  // ---------- places ----------

  lemma SameLength(vol0: Vol, vol: Vol, ch: seq<nat>)
    requires vol0.WellFormed() && vol.WellFormed() && vol.spc == vol0.spc && |vol.data| == |vol0.data|
    requires forall i :: 0 <= i < |ch| ==> vol0.IsCluster(ch[i])
    ensures InData(vol.data, ch) && InData(vol0.data, ch) && |Cat(vol.data, ch)| == |Cat(vol0.data, ch)|
  {
    assert forall i :: 0 <= i < |ch| ==> vol.IsCluster(ch[i]);
    CatLength(vol0, ch);
    CatLength(vol, ch);
  }

  /** Where a directory's sectors are depends on its chain and on the shape of the volume only. */
  lemma LocatedShape(vol: Vol, vol': Vol, c: nat, ch: seq<nat>, j: nat, p: Place)
    requires vol.WellFormed() && vol'.WellFormed() && IsDirChain(vol, c, ch) && Located(vol, ch, j, p)
    requires vol'.spc == vol.spc && |vol'.data| == |vol.data| && |vol'.root| == |vol.root|
    ensures InData(vol'.data, ch) && Located(vol', ch, j, p)
  {
    if p.InCluster? {
      var i: nat :| LocatedIn(vol, ch, j, p.c, p.s, i);
      SameLength(vol, vol', ch[..i]);
      assert vol'.IsCluster(p.c);
      assert LocatedIn(vol', ch, j, p.c, p.s, i);
    }
  }

  lemma IsAtShape(vol: Vol, vol': Vol, b: Bpb, c: nat, ch: seq<nat>, k: nat, lba: nat, offset: nat, p: Place)
    requires vol.WellFormed() && vol'.WellFormed() && IsDirChain(vol, c, ch) && IsAt(vol, b, ch, k, lba, offset, p)
    requires vol'.spc == vol.spc && |vol'.data| == |vol.data| && |vol'.root| == |vol.root|
    ensures InData(vol'.data, ch) && IsAt(vol', b, ch, k, lba, offset, p)
  {
    LocatedShape(vol, vol', c, ch, k / 16, p);
    LocatedSector(vol', ch, k / 16, p);
  }
}
