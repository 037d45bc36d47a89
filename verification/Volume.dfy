/** The mounted volume: driver state, sector access, and the FAT primitives. */
module VolumeState {
  import opened Bytes
  import opened Layout
  import opened Chains
  import opened Names
  import opened Nodes

  class Volume {
    var disk: seq<Sector>
    var bpb: Bpb
    var currentDirCluster: nat
    var currentPath: Str
    ghost var tree: Node // the files and directories that the disk holds
    const beyond: nat -> Sector // what the device delivers for a sector that it does not have

    /** The driver before fat16_init: the parameters are those of a zeroed sector. */
    constructor (disk: seq<Sector>, beyond: nat -> Sector, ghost tree: Node)
      ensures this.disk == disk && this.beyond == beyond && this.tree == tree
      ensures currentDirCluster == 0 && currentPath == [SLASH]
    {
      this.disk := disk;
      this.beyond := beyond;
      this.tree := tree;
      bpb := Bpb(0, 0, 0, 0, 0, 0, 0, 0);
      currentDirCluster := 0;
      currentPath := [SLASH];
    }

    /** The in-memory parameters are those of the boot sector, and describe a volume that fits the disk. */
    ghost predicate Mounted()
      reads this
    {
      && |disk| > 0
      && Signed(disk[0])
      && bpb == ParseBpb(disk[0])
      && bpb.Good(|disk|)
      && Mirrored(bpb, disk)
    }

    ghost function Vol(): (vol: Vol)
      requires Mounted()
      reads this
      ensures vol.WellFormed()
    {
      View(bpb, disk)
    }

    method ReadSector(lba: nat) returns (s: Sector)
      ensures s == SectorOf(disk, beyond, lba)
    {
      s := if lba < |disk| then disk[lba] else beyond(lba);
    }

    method WriteSector(lba: nat, s: Sector)
      modifies this`disk
      ensures disk == WithSectorOf(old(disk), lba, s)
    {
      if lba < |disk| {
        disk := disk[lba := s];
      }
    }

    /** Loads the parameters from sector 0. On a mounted volume this changes nothing. */
    method Init() returns (ok: bool)
      requires |disk| > 0
      modifies this`bpb
      ensures bpb == ParseBpb(disk[0])
      ensures forall b :: HoldsParameters(disk[0], b) <==> bpb == b
      ensures ok <==> Signed(disk[0]) && bpb.bytesPerSector == 512
      ensures old(Mounted()) ==> ok && bpb == old(bpb)
      ensures ok && bpb.Good(|disk|) && Mirrored(bpb, disk) ==> Mounted()
    {
      var sector := ReadSector(0);
      bpb := ParseBpb(sector);
      forall b: Bpb ensures HoldsParameters(sector, b) <==> ParseBpb(sector) == b {
        ParametersParse(sector, b);
      }
      if sector[510] != 0x55 || sector[511] != 0xAA {
        return false;
      }
      if bpb.bytesPerSector != 512 {
        return false;
      }
      return true;
    }

    /** The word of a cluster number; on a mounted volume, that of the FAT. */
    method GetFatEntry(cluster: nat) returns (w: Word)
      ensures w == WordAt(bpb, disk, beyond, cluster)
      ensures Mounted() && cluster < |Vol().fat| ==> w == Vol().fat[cluster]
    {
      hide View, Bpb.Good, Mirrored, SectorOf, Get16;
      var fatOffset := cluster * 2;
      var sector := ReadSector(bpb.reservedSectors + fatOffset / 512);
      w := Get16(sector, fatOffset % 512);
      WordInFat(bpb, disk, beyond, cluster);
    }

    /** Writes both copies of the FAT. */
    method SetFatEntry(cluster: nat, value: Word)
      modifies this`disk
      ensures disk == BothWords(bpb, old(disk), beyond, cluster, value)
      ensures old(Mounted()) && cluster < |old(Vol()).fat| ==>
                Mounted() && Vol() == old(Vol()).(fat := old(Vol()).fat[cluster := value])
    {
      hide View, Mirrored, Bpb.Good, ParseBpb, Put16, SectorOf, WithSectorOf, BothCopies;
      var fatStart := bpb.reservedSectors;
      var fatOffset := cluster * 2;
      var at := fatOffset % 512;
      ghost var disk0 := disk;

      var sector := ReadSector(fatStart + fatOffset / 512);
      WriteSector(fatStart + fatOffset / 512, Put16(sector, at, value));

      var fat2Start := fatStart + bpb.sectorsPerFat;
      sector := ReadSector(fat2Start + fatOffset / 512);
      WriteSector(fat2Start + fatOffset / 512, Put16(sector, at, value));
      if old(Mounted()) && cluster < |old(Vol()).fat| {
        SetInFat(bpb, disk0, beyond, cluster, value);
      }
    }

    /** Takes the lowest free cluster and marks it as the end of a chain; 0 iff no cluster is free. */
    method AllocCluster() returns (r: nat)
      requires Mounted()
      modifies this`disk
      ensures Mounted()
      ensures r == 0 ==> Vol() == old(Vol()) && forall c :: Vol().IsCluster(c) ==> Vol().fat[c] != 0
      ensures r != 0 ==>
                && old(Vol()).IsCluster(r) && old(Vol()).fat[r] == 0
                && (forall c :: 2 <= c < r ==> old(Vol()).fat[c] != 0)
                && Vol() == old(Vol()).(fat := old(Vol()).fat[r := END_OF_CHAIN])
    {
      hide View, WordAt, BothWords, Mirrored, ParseBpb, Signed;
      ViewShape(bpb, disk);
      var totalClusters := bpb.TotalClusters();
      var cluster := 2;
      while cluster < totalClusters + 2
        invariant Mounted() && 2 <= cluster <= totalClusters + 2
        invariant disk == old(disk)
        invariant forall c :: 2 <= c < cluster ==> Vol().fat[c] != 0
      {
        var w := GetFatEntry(cluster);
        if w == 0x0000 {
          SetFatEntry(cluster, END_OF_CHAIN);
          return cluster;
        }
        cluster := cluster + 1;
      }
      return 0;
    }

    /** Reads the sector number lba, which is that of p. */
    method ReadAt(lba: nat, ghost p: Place) returns (s: Sector)
      requires Mounted() && Vol().Has(p) && lba == bpb.Lba(p)
      ensures s == Vol().SectorAt(p)
    {
      PlaceInRange(bpb, disk, p);
      s := ReadSector(lba);
    }

    method WriteAt(lba: nat, s: Sector, ghost p: Place)
      requires Mounted() && Vol().Has(p) && lba == bpb.Lba(p)
      modifies this`disk
      ensures Mounted() && Vol() == old(Vol()).WithSector(p, s)
    {
      WritePlace(bpb, disk, p, s);
      hide View;
      WriteSector(lba, s);
    }

    method ClearCluster(cluster: nat)
      requires Mounted() && Vol().IsCluster(cluster)
      modifies this`disk
      ensures Mounted()
      ensures Vol() == old(Vol()).(data := old(Vol()).data[cluster := ZeroCluster(old(Vol()).spc)])
    {
      hide View, Bpb.ClusterStart;
      ghost var vol0 := Vol();
      var startSector := bpb.ClusterStart(cluster);
      ClearedEnds(vol0.data[cluster]);
      for s := 0 to bpb.sectorsPerCluster
        invariant Mounted()
        invariant Vol() == vol0.(data := vol0.data[cluster := ZeroCluster(s) + vol0.data[cluster][s..]])
      {
        ClearedStep(vol0.data[cluster], s);
        WriteAt(startSector + s, Zeros(512), InCluster(cluster, s));
      }
    }

    /** Frees a chain. On a volume whose links stay inside the FAT, cyclic or not, this ends and zeroes exactly
        what the start reaches. On any disk that holds a word for every link it ends, having only zeroed bytes. */
    method FreeClusterChain(start: nat)
      requires (Mounted() && LinksInside(Vol().fat, start)) || HoldsEveryWord(bpb, |disk|)
      modifies this`disk
      ensures old(Mounted()) && LinksInside(old(Vol()).fat, start) ==>
                Mounted() && Vol() == old(Vol()).(fat := Zeroed(old(Vol()).fat, Reachable(old(Vol()).fat, start)))
      ensures OnlyZeroed(old(disk), disk) && (bpb.reservedSectors > 0 && |disk| > 0 ==> disk[0] == old(disk)[0])
    {
      hide View, Inside, ZeroWords, WordAt, BothWords, OnlyZeroed, Mirrored, Bpb.TotalClusters, Reachable, LinksInside;
      ghost var disk0, inside := disk, Mounted() && LinksInside(Vol().fat, start);
      ghost var vol0 := if inside then Vol() else NO_VOLUME;
      ghost var freed: set<nat> := {};
      var cluster: nat := start;
      StartFreeing(disk0, vol0, bpb, beyond, start, inside);
      while cluster >= 2 && cluster < 0xFFF8
        invariant inside || HoldsEveryWord(bpb, |disk0|)
        invariant freed <= Links() && ZeroWords(bpb, disk, beyond, freed)
        invariant OnlyZeroed(disk0, disk) && |disk| == |disk0|
        invariant bpb.reservedSectors > 0 && |disk| > 0 ==> disk[0] == disk0[0]
        invariant inside ==> Mounted() && Inside(vol0, Vol(), start, freed, cluster)
        decreases Links() - freed, IsLink(cluster)
      {
        ghost var disk1, vol1 := disk, if inside then Vol() else NO_VOLUME;
        if inside {
          LinkInFat(vol0, vol1, start, freed, cluster);
          ViewShape(bpb, disk);
          FatOffset(bpb, |disk|, cluster);
        } else {
          WordInRange(bpb, |disk|, cluster);
        }
        var next := GetFatEntry(cluster);
        FreedWord(bpb, disk, beyond, freed, cluster);
        SetFatEntry(cluster, 0x0000);
        WordZeroed(bpb, disk1, beyond, freed, cluster);
        OnlyZeroedTwice(disk0, disk1, disk);
        if inside {
          OneFreed(vol0, vol1, start, freed, cluster, next);
        }
        freed := freed + {cluster};
        cluster := next;
      }
      if inside {
        AllFreed(vol0, Vol(), start, freed, cluster);
      }
    }
  }

  // ---------- freeing ----------

  /** The words that the driver follows. */
  ghost function Links(): (r: set<nat>)
    ensures forall c :: c in r <==> IsLink(c)
  {
    set c {:trigger c + 0} | 2 <= c < FIRST_END_MARK
  }

  const NO_VOLUME := Vol(0, [], [], [])

  /** The disk reaches at least as far as the FAT would if it had a word for every 16-bit number. */
  predicate HoldsEveryWord(b: Bpb, sectors: nat) {
    b.reservedSectors + 256 <= sectors
  }

  /** Every byte is as it was, or zero. */
  ghost predicate OnlyZeroed(d: seq<Sector>, d': seq<Sector>) {
    |d'| == |d| && forall l, i :: 0 <= l < |d| && 0 <= i < 512 ==> d'[l][i] == d[l][i] || d'[l][i] == 0
  }

  lemma OnlyZeroedTwice(d: seq<Sector>, d1: seq<Sector>, d2: seq<Sector>)
    requires OnlyZeroed(d, d1) && OnlyZeroed(d1, d2)
    ensures OnlyZeroed(d, d2) && |d2| == |d|
  {
  }

  ghost predicate ZeroWords(b: Bpb, d: seq<Sector>, beyond: nat -> Sector, cs: set<nat>) {
    forall c :: c in cs ==> WordAt(b, d, beyond, c) == 0
  }

  lemma FreedWord(b: Bpb, d: seq<Sector>, beyond: nat -> Sector, cs: set<nat>, c: nat)
    requires ZeroWords(b, d, beyond, cs)
    ensures c in cs ==> WordAt(b, d, beyond, c) == 0
  {
  }

  /** Both sectors with the word of cluster c set, as far as the disk has them. */
  function BothWords(b: Bpb, d: seq<Sector>, beyond: nat -> Sector, c: nat, v: Word): seq<Sector> {
    var l, m, at := b.reservedSectors + c * 2 / 512, b.reservedSectors + b.sectorsPerFat + c * 2 / 512, c * 2 % 512;
    WordFits(c);
    var d1 := WithSectorOf(d, l, Put16(SectorOf(d, beyond, l), at, v));
    WithSectorOf(d1, m, Put16(SectorOf(d1, beyond, m), at, v))
  }

  lemma SectorZeroed(d: seq<Sector>, beyond: nat -> Sector, l: nat, at: nat)
    requires at + 2 <= 512
    ensures var d' := WithSectorOf(d, l, Put16(SectorOf(d, beyond, l), at, 0));
            OnlyZeroed(d, d') && (l < |d| ==> Get16(d'[l], at) == 0) && (l > 0 && |d| > 0 ==> d'[0] == d[0])
  {
    var x := Put16(SectorOf(d, beyond, l), at, 0);
    assert x[at] == 0 && x[at + 1] == 0;
  }

  lemma ZeroStays(b: Bpb, d: seq<Sector>, d': seq<Sector>, beyond: nat -> Sector, c: nat)
    requires OnlyZeroed(d, d') && WordAt(b, d, beyond, c) == 0
    ensures WordAt(b, d', beyond, c) == 0
  {
    var l, at := b.reservedSectors + c * 2 / 512, c * 2 % 512;
    var s, s' := SectorOf(d, beyond, l), SectorOf(d', beyond, l);
    assert s[at] == 0 && s[at + 1] == 0;
    assert s'[at] == 0 && s'[at + 1] == 0;
  }

  /** One more word zeroed. */
  lemma WordZeroed(b: Bpb, d: seq<Sector>, beyond: nat -> Sector, cs: set<nat>, c: nat)
    requires ZeroWords(b, d, beyond, cs) && b.reservedSectors + c * 2 / 512 < |d|
    ensures var d' := BothWords(b, d, beyond, c, 0);
            && OnlyZeroed(d, d') && ZeroWords(b, d', beyond, cs + {c})
            && (b.reservedSectors > 0 && |d| > 0 ==> d'[0] == d[0])
  {
    hide OnlyZeroed, WordAt, WithSectorOf, SectorOf, Put16;
    var l, m, at := b.reservedSectors + c * 2 / 512, b.reservedSectors + b.sectorsPerFat + c * 2 / 512, c * 2 % 512;
    var d1 := WithSectorOf(d, l, Put16(SectorOf(d, beyond, l), at, 0));
    var d2 := WithSectorOf(d1, m, Put16(SectorOf(d1, beyond, m), at, 0));
    SectorZeroed(d, beyond, l, at);
    SectorZeroed(d1, beyond, m, at);
    OnlyZeroedTwice(d, d1, d2);
    WordIs(b, d1, beyond, c);
    ZeroStays(b, d1, d2, beyond, c);
    forall k | k in cs ensures WordAt(b, d2, beyond, k) == 0 {
      ZeroStays(b, d, d2, beyond, k);
    }
  }

  lemma WordIs(b: Bpb, d: seq<Sector>, beyond: nat -> Sector, c: nat)
    requires b.reservedSectors + c * 2 / 512 < |d|
    ensures WordAt(b, d, beyond, c) == Get16(d[b.reservedSectors + c * 2 / 512], c * 2 % 512)
  {
  }

  /** The state of the loop on a FAT whose links stay inside it: what has been freed can be reached, and the next
      cluster is the only link that leads out of it. */
  ghost predicate Inside(vol0: Vol, vol: Vol, start: nat, freed: set<nat>, cluster: nat) {
    var fat := vol0.fat;
    && vol == vol0.(fat := Zeroed(fat, freed))
    && freed <= Reachable(fat, start) && LinksInside(fat, start)
    && (IsLink(start) ==> start in freed || start == cluster)
    && (forall c :: c in freed && IsLink(fat[c]) ==> fat[c] in freed || fat[c] == cluster)
    && (IsLink(cluster) ==> cluster < |fat| && Reaches(fat, start, cluster))
  }

  lemma StartFreeing(d: seq<Sector>, vol: Vol, b: Bpb, beyond: nat -> Sector, start: nat, inside: bool)
    ensures ZeroWords(b, d, beyond, {}) && OnlyZeroed(d, d)
    ensures inside && LinksInside(vol.fat, start) ==> Inside(vol, vol, start, {}, start)
  {
    NothingZeroed(vol.fat);
    if inside && LinksInside(vol.fat, start) && IsLink(start) {
      ReachesStart(vol.fat, start);
    }
  }

  lemma LinkInFat(vol0: Vol, vol: Vol, start: nat, freed: set<nat>, cluster: nat)
    requires Inside(vol0, vol, start, freed, cluster) && IsLink(cluster)
    ensures cluster < |vol.fat| == |vol0.fat|
  {
  }

  lemma OneFreed(vol0: Vol, vol: Vol, start: nat, freed: set<nat>, cluster: nat, next: nat)
    requires Inside(vol0, vol, start, freed, cluster) && IsLink(cluster)
    requires cluster < |vol.fat| && next == vol.fat[cluster]
    ensures Inside(vol0, vol.(fat := vol.fat[cluster := 0]), start, freed + {cluster}, next)
  {
    hide Reachable, Reaches, Zeroed, IsPath;
    ZeroedWord(vol0.fat, freed, cluster);
    ReachableHas(vol0.fat, start, cluster);
    if IsLink(next) {
      ReachesNext(vol0.fat, start, cluster);
    }
  }

  lemma AllFreed(vol0: Vol, vol: Vol, start: nat, freed: set<nat>, cluster: nat)
    requires Inside(vol0, vol, start, freed, cluster) && !IsLink(cluster)
    ensures vol == vol0.(fat := Zeroed(vol0.fat, Reachable(vol0.fat, start)))
  {
    hide Reachable, Reaches, Zeroed, IsPath;
    ReachableLeast(vol0.fat, start, freed);
    assert freed == Reachable(vol0.fat, start);
  }

  lemma ClearedStep(cluster: seq<Sector>, s: nat)
    requires s < |cluster|
    ensures (ZeroCluster(s) + cluster[s..])[s := Zeros(512)] == ZeroCluster(s + 1) + cluster[s + 1..]
  {
  }

  lemma ClearedEnds(cluster: seq<Sector>)
    ensures ZeroCluster(0) + cluster[0..] == cluster
    ensures ZeroCluster(|cluster|) + cluster[|cluster|..] == ZeroCluster(|cluster|)
  {
  }

  function ZeroCluster(spc: nat): (r: seq<Sector>)
    ensures |r| == spc
  {
    seq(spc, _ => Zeros(512))
  }

  lemma FatOffset(b: Bpb, n: nat, c: nat)
    requires b.Good(n) && c < b.sectorsPerFat * 256
    ensures c * 2 / 512 == c / 256 < b.sectorsPerFat && c * 2 % 512 == 2 * (c % 256)
    ensures b.RootStart() == b.reservedSectors + 2 * b.sectorsPerFat <= n
  {
  }

  lemma WordInFat(b: Bpb, d: seq<Sector>, beyond: nat -> Sector, c: nat)
    ensures b.Good(|d|) && c < |View(b, d).fat| ==> WordAt(b, d, beyond, c) == View(b, d).fat[c]
  {
    hide Get16;
    if b.Good(|d|) && c < |View(b, d).fat| {
      ViewShape(b, d);
      FatOffset(b, |d|, c);
    }
  }

  lemma BothInFat(b: Bpb, d: seq<Sector>, beyond: nat -> Sector, c: nat, v: Word)
    requires b.Good(|d|) && c < b.sectorsPerFat * 256
    ensures BothWords(b, d, beyond, c, v) == BothCopies(b, d, c, v)
  {
    FatOffset(b, |d|, c);
  }

  lemma SetInFat(b: Bpb, d: seq<Sector>, beyond: nat -> Sector, c: nat, v: Word)
    requires b.Good(|d|) && Mirrored(b, d) && c < |View(b, d).fat|
    ensures var d' := BothWords(b, d, beyond, c, v);
            && |d'| == |d| > 0 && d'[0] == d[0] && Mirrored(b, d')
            && View(b, d') == View(b, d).(fat := View(b, d).fat[c := v])
  {
    ViewShape(b, d);
    hide View, Mirrored;
    BothInFat(b, d, beyond, c, v);
    BothCopiesWritten(b, d, c, v);
  }

  lemma WordInRange(b: Bpb, sectors: nat, c: nat)
    requires HoldsEveryWord(b, sectors) && c < 0x1_0000
    ensures b.reservedSectors + c * 2 / 512 < sectors
  {
  }

  /** The disk after the word of cluster c has been set in both copies of the FAT. */
  function BothCopies(b: Bpb, d: seq<Sector>, c: nat, v: Word): seq<Sector>
    requires b.Good(|d|) && c < b.sectorsPerFat * 256
  {
    var l, m, at := b.reservedSectors + c / 256, b.reservedSectors + b.sectorsPerFat + c / 256, 2 * (c % 256);
    var d1 := d[l := Put16(d[l], at, v)];
    d1[m := Put16(d1[m], at, v)]
  }

  lemma BothCopiesWritten(b: Bpb, d: seq<Sector>, c: nat, v: Word)
    requires b.Good(|d|) && Mirrored(b, d) && c < b.sectorsPerFat * 256
    ensures var d' := BothCopies(b, d, c, v);
            && |d'| == |d| && d'[0] == d[0]
            && Mirrored(b, d')
            && View(b, d') == View(b, d).(fat := View(b, d).fat[c := v])
  {
    hide View, Mirrored, Put16;
    var l, m, at := b.reservedSectors + c / 256, b.reservedSectors + b.sectorsPerFat + c / 256, 2 * (c % 256);
    FatOffset(b, |d|, c);
    MirrorWritten(b, d, c / 256, Put16(d[l], at, v));
    WriteFat(b, d, c, v);
    WriteMirror(b, d[l := Put16(d[l], at, v)], m, Put16(d[l], at, v));
  }

  /** One sector of the FAT replaced in both copies. */
  lemma MirrorWritten(b: Bpb, d: seq<Sector>, i: nat, x: Sector)
    requires b.Good(|d|) && Mirrored(b, d) && i < b.sectorsPerFat
    ensures var l, m := b.reservedSectors + i, b.reservedSectors + b.sectorsPerFat + i;
            l < m < |d| && d[m] == d[l] && Mirrored(b, d[l := x][m := x])
  {
    hide View;
    var r, f := b.reservedSectors as int, b.sectorsPerFat as int;
    var l, m := r + i, r + f + i;
    assert d[l] == d[r..r + f][i];
    assert d[m] == d[r + f..b.RootStart()][i];
    var d2 := d[l := x][m := x];
    assert d2[r..r + f] == d[r..r + f][i := x];
    assert d2[r + f..b.RootStart()] == d[r + f..b.RootStart()][i := x];
  }
}
