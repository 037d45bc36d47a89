/** The on-disk layout of a FAT16 volume, and the view of its sectors that the file system works on. */
module Layout {
  import opened Bytes

  /** The BIOS parameter block fields that the driver keeps in memory. */
  datatype Bpb = Bpb(
    bytesPerSector: Word,
    sectorsPerCluster: Byte,
    reservedSectors: Word,
    numFats: Byte,
    rootEntries: Word,
    totalSectors16: Word,
    sectorsPerFat: Word,
    totalSectors32: Dword)
  {
    function RootStart(): nat {
      reservedSectors + numFats * sectorsPerFat
    }

    function RootSectors(): nat
      requires bytesPerSector > 0
    {
      (rootEntries * 32 + (bytesPerSector - 1)) / bytesPerSector
    }

    function FirstData(): nat
      requires bytesPerSector > 0
    {
      RootStart() + RootSectors()
    }

    function TotalSectors(): nat {
      if totalSectors16 != 0 then totalSectors16 else totalSectors32
    }

    function TotalClusters(): nat
      requires bytesPerSector > 0 && sectorsPerCluster > 0 && FirstData() <= TotalSectors()
    {
      (TotalSectors() - FirstData()) / sectorsPerCluster
    }

    function ClusterStart(c: nat): nat
      requires bytesPerSector > 0 && 2 <= c
    {
      FirstData() + (c - 2) * sectorsPerCluster
    }

    function Lba(p: Place): nat
      requires bytesPerSector > 0 && (p.InCluster? ==> 2 <= p.c)
    {
      match p
      case InRoot(s) => RootStart() + s
      case InCluster(c, s) => ClusterStart(c) + s
    }

    /** The volumes the driver is written for: two FATs that can hold every cluster number. */
    ghost predicate Good(sectors: nat) {
      && bytesPerSector == 512
      && sectorsPerCluster > 0
      && reservedSectors >= 1
      && numFats == 2
      && FirstData() <= TotalSectors() <= sectors
      && TotalClusters() < 65525
      && TotalClusters() + 2 <= sectorsPerFat * 256
    }
  }

  function ParseBpb(s: Sector): Bpb {
    Bpb(Get16(s, 11), s[13], Get16(s, 14), s[16], Get16(s, 17), Get16(s, 19), Get16(s, 22), Get32(s, 32))
  }

  /** The bytes of a boot sector that hold these parameters, each field's lowest byte first. */
  predicate HoldsParameters(s: Sector, b: Bpb) {
    && IsWordAt(s, 11, b.bytesPerSector) && s[13] == b.sectorsPerCluster && IsWordAt(s, 14, b.reservedSectors)
    && s[16] == b.numFats && IsWordAt(s, 17, b.rootEntries) && IsWordAt(s, 19, b.totalSectors16)
    && IsWordAt(s, 22, b.sectorsPerFat) && IsDwordAt(s, 32, b.totalSectors32)
  }

  lemma ParametersParse(s: Sector, b: Bpb)
    ensures HoldsParameters(s, b) <==> ParseBpb(s) == b
  {
    hide Get16, Get32;
    Get16Is(s, 11, b.bytesPerSector);
    Get16Is(s, 14, b.reservedSectors);
    Get16Is(s, 17, b.rootEntries);
    Get16Is(s, 19, b.totalSectors16);
    Get16Is(s, 22, b.sectorsPerFat);
    Get32Is(s, 32, b.totalSectors32);
  }

  predicate Signed(s: Sector) {
    s[510] == 0x55 && s[511] == 0xAA
  }

  /** Where a sector of the root directory or of a cluster is. */
  datatype Place = InRoot(s: nat) | InCluster(c: nat, s: nat)

  /** What a volume holds: the FAT words, the root directory's sectors, and the sectors of each cluster.
      Cluster numbers start at 2; data[0] and data[1] are unused. */
  datatype Vol = Vol(spc: nat, fat: seq<Word>, root: seq<Sector>, data: seq<seq<Sector>>)
  {
    predicate IsCluster(c: int) {
      2 <= c < |data|
    }

    predicate Has(p: Place) {
      match p
      case InRoot(s) => s < |root|
      case InCluster(c, s) => IsCluster(c) && s < |data[c]|
    }

    function SectorAt(p: Place): Sector
      requires Has(p)
    {
      match p
      case InRoot(s) => root[s]
      case InCluster(c, s) => data[c][s]
    }

    function WithSector(p: Place, x: Sector): Vol
      requires Has(p)
    {
      match p
      case InRoot(s) => this.(root := root[s := x])
      case InCluster(c, s) => this.(data := SetSector(data, c, s, x))
    }

    ghost predicate WellFormed() {
      && spc > 0
      && |data| <= |fat|
      && 2 <= |data| < 0xFFF7
      && forall c :: IsCluster(c) ==> |data[c]| == spc
    }
  }

  /** Cluster contents with sector s of cluster c replaced by x. */
  function SetSector(data: seq<seq<Sector>>, c: nat, s: nat, x: Sector): seq<seq<Sector>>
    requires c < |data| && s < |data[c]|
  {
    var cluster: seq<Sector> := data[c];
    var updated: seq<Sector> := cluster[s := x];
    data[c := updated]
  }

  /** What the device delivers for a sector number: beyond its last sector, whatever it does then. */
  function SectorOf(d: seq<Sector>, beyond: nat -> Sector, lba: nat): Sector {
    if lba < |d| then d[lba] else beyond(lba)
  }

  /** A write beyond the last sector is lost. */
  function WithSectorOf(d: seq<Sector>, lba: nat, s: Sector): (r: seq<Sector>)
    ensures |r| == |d|
  {
    if lba < |d| then d[lba := s] else d
  }

  /** The word that the driver reads for any 16-bit number, be it a cluster of the volume or not. */
  function WordAt(b: Bpb, d: seq<Sector>, beyond: nat -> Sector, c: nat): Word {
    WordFits(c);
    Get16(SectorOf(d, beyond, b.reservedSectors + c * 2 / 512), c * 2 % 512)
  }

  /** No word lies across two sectors. */
  lemma WordFits(c: nat)
    ensures c * 2 % 512 + 2 <= 512
  {
    assert c * 2 % 512 % 2 == 0;
  }

  function FatWord(b: Bpb, d: seq<Sector>, c: nat): Word
    requires b.Good(|d|) && c < b.sectorsPerFat * 256
  {
    Get16(d[b.reservedSectors + c / 256], 2 * (c % 256))
  }

  function ClusterSectors(b: Bpb, d: seq<Sector>, c: nat): (r: seq<Sector>)
    requires b.Good(|d|) && 2 <= c < b.TotalClusters() + 2
    ensures |r| == b.sectorsPerCluster
  {
    ClusterInRange(b, |d|, c);
    d[b.ClusterStart(c)..b.ClusterStart(c) + b.sectorsPerCluster]
  }

  function View(b: Bpb, d: seq<Sector>): (vol: Vol)
    requires b.Good(|d|)
    ensures vol.WellFormed()
    ensures vol.spc == b.sectorsPerCluster
  {
    Vol(
      b.sectorsPerCluster,
      seq(b.sectorsPerFat * 256, c requires 0 <= c < b.sectorsPerFat * 256 => FatWord(b, d, c)),
      d[b.RootStart()..b.FirstData()],
      seq(b.TotalClusters() + 2,
          c requires 0 <= c < b.TotalClusters() + 2 => if c < 2 then [] else ClusterSectors(b, d, c)))
  }

  lemma ViewShape(b: Bpb, d: seq<Sector>)
    requires b.Good(|d|)
    ensures |View(b, d).root| == b.RootSectors()
    ensures |View(b, d).data| == b.TotalClusters() + 2
    ensures |View(b, d).fat| == b.sectorsPerFat * 256
  {
  }

  /** Both copies of the FAT are equal. */
  ghost predicate Mirrored(b: Bpb, d: seq<Sector>)
    requires b.Good(|d|)
  {
    d[b.reservedSectors..b.reservedSectors + b.sectorsPerFat] == d[b.reservedSectors + b.sectorsPerFat..b.RootStart()]
  }

  // ---------- where things are ----------

  /** The root directory takes the fewest sectors that its entries fit in. */
  lemma RootSectorsLeast(b: Bpb, n: nat)
    requires b.bytesPerSector == 512
    ensures 32 * b.rootEntries <= 512 * b.RootSectors()
    ensures 32 * b.rootEntries <= 512 * n ==> b.RootSectors() <= n
  {
  }

  /** Reserved sectors, two FATs, the root directory and the clusters follow each other without a gap, and the
      clusters are as many as fit. */
  lemma RegionsInOrder(b: Bpb, sectors: nat)
    requires b.Good(sectors)
    ensures b.RootStart() == b.reservedSectors + b.sectorsPerFat + b.sectorsPerFat
    ensures b.ClusterStart(2) == b.RootStart() + b.RootSectors()
    ensures forall c :: 2 <= c ==> b.ClusterStart(c + 1) == b.ClusterStart(c) + b.sectorsPerCluster
    ensures var total := if b.totalSectors16 != 0 then b.totalSectors16 else b.totalSectors32;
            b.ClusterStart(b.TotalClusters() + 2) <= total < b.ClusterStart(b.TotalClusters() + 3)
  {
    var total := b.TotalSectors();
    var n := b.TotalClusters();
    DivBound(total - b.FirstData(), b.sectorsPerCluster);
    hide Bpb.FirstData;
    forall c: nat | 2 <= c ensures b.ClusterStart(c + 1) == b.ClusterStart(c) + b.sectorsPerCluster {
      assert (c + 1 - 2) * b.sectorsPerCluster == (c - 2) * b.sectorsPerCluster + b.sectorsPerCluster;
    }
    assert b.ClusterStart(n + 2) == b.FirstData() + n * b.sectorsPerCluster;
  }

  /** The word of cluster c is the c-th pair of bytes of the FAT, the low byte first. */
  lemma FatWordBytes(b: Bpb, d: seq<Sector>, c: nat)
    requires b.Good(|d|) && c < |View(b, d).fat|
    ensures b.reservedSectors + 2 * c / 512 < |d|
    ensures var sector, at := d[b.reservedSectors + 2 * c / 512], 2 * c % 512;
            at + 2 <= 512 && IsWordAt(sector, at, View(b, d).fat[c])
  {
    ViewShape(b, d);
    assert 2 * c / 512 == c / 256 && 2 * c % 512 == 2 * (c % 256);
    Get16Is(d[b.reservedSectors + c / 256], 2 * (c % 256), View(b, d).fat[c]);
  }

  // ---------- arithmetic of the regions ----------

  lemma ClusterInRange(b: Bpb, n: nat, c: nat)
    requires b.Good(n) && 2 <= c < b.TotalClusters() + 2
    ensures b.FirstData() <= b.ClusterStart(c) && b.ClusterStart(c) + b.sectorsPerCluster <= b.TotalSectors() <= n
  {
    var first := b.FirstData();
    var total := b.TotalSectors();
    assert b.TotalClusters() == (total - first) / b.sectorsPerCluster;
    hide Bpb.FirstData, Bpb.TotalSectors, Bpb.TotalClusters;
    LastCluster(c - 2, total - first, b.sectorsPerCluster);
  }

  lemma LastCluster(i: nat, sectors: nat, spc: nat)
    requires spc > 0 && i < sectors / spc
    ensures i * spc + spc <= sectors
  {
    var q := sectors / spc;
    DivBound(sectors, spc);
    MulMono(i + 1, q, spc);
    assert (i + 1) * spc == i * spc + spc;
  }

  lemma MulMono(a: nat, b: nat, k: nat)
    requires a <= b
    ensures a * k <= b * k
  {
  }

  lemma DivBound(a: nat, k: nat)
    requires k > 0
    ensures (a / k) * k <= a < (a / k) * k + k
  {
    assert a == (a / k) * k + a % k;
  }

  /** Distinct clusters occupy disjoint sector ranges. */
  lemma ClustersDisjoint(b: Bpb, n: nat, c1: nat, c2: nat)
    requires b.Good(n) && 2 <= c1 < c2 < b.TotalClusters() + 2
    ensures b.ClusterStart(c1) + b.sectorsPerCluster <= b.ClusterStart(c2)
  {
    var spc := b.sectorsPerCluster;
    MulMono(c1 - 1, c2 - 2, spc);
    assert (c1 - 1) * spc == (c1 - 2) * spc + spc;
  }

  // ---------- the effect of writing one sector ----------

  lemma WriteFat(b: Bpb, d: seq<Sector>, c: nat, v: Word)
    requires b.Good(|d|) && c < b.sectorsPerFat * 256
    ensures var l := b.reservedSectors + c / 256;
            View(b, d[l := Put16(d[l], 2 * (c % 256), v)]) == View(b, d).(fat := View(b, d).fat[c := v])
  {
    var l := b.reservedSectors + c / 256;
    var d' := d[l := Put16(d[l], 2 * (c % 256), v)];
    forall k | 0 <= k < b.sectorsPerFat * 256
      ensures FatWord(b, d', k) == if k == c then v else FatWord(b, d, k)
    {
      if k / 256 == c / 256 && k != c {
        assert k % 256 != c % 256;
      }
    }
    SameOutsideFat(b, d, d');
    assert View(b, d').fat == View(b, d).fat[c := v];
  }

  lemma WriteMirror(b: Bpb, d: seq<Sector>, l: nat, s: Sector)
    requires b.Good(|d|) && b.reservedSectors + b.sectorsPerFat <= l < b.RootStart()
    ensures View(b, d[l := s]) == View(b, d)
  {
    var d' := d[l := s];
    SameOutsideFat(b, d, d');
    assert View(b, d').fat == View(b, d).fat;
  }

  lemma SameOutsideFat(b: Bpb, d: seq<Sector>, d': seq<Sector>)
    requires b.Good(|d|) && |d'| == |d|
    requires forall i :: b.RootStart() <= i < |d| ==> d'[i] == d[i]
    ensures View(b, d').root == View(b, d).root && View(b, d').data == View(b, d).data
  {
    forall c | 2 <= c < b.TotalClusters() + 2
      ensures ClusterSectors(b, d', c) == ClusterSectors(b, d, c)
    {
      ClusterInRange(b, |d|, c);
    }
    assert View(b, d').data == View(b, d).data;
  }

  lemma SameFat(b: Bpb, d: seq<Sector>, d': seq<Sector>)
    requires b.Good(|d|) && |d'| == |d|
    requires forall i :: 0 <= i < b.RootStart() ==> d'[i] == d[i]
    ensures View(b, d').fat == View(b, d).fat
    ensures Mirrored(b, d) ==> Mirrored(b, d')
  {
    var r, f := b.reservedSectors as int, b.sectorsPerFat as int;
    assert d'[r..r + f] == d[r..r + f];
    assert d'[r + f..b.RootStart()] == d[r + f..b.RootStart()];
    assert forall c :: 0 <= c < b.sectorsPerFat * 256 ==> FatWord(b, d', c) == FatWord(b, d, c);
    assert View(b, d').fat == View(b, d).fat;
  }

  lemma WriteRoot(b: Bpb, d: seq<Sector>, s: nat, x: Sector)
    requires b.Good(|d|) && s < b.RootSectors()
    ensures var d' := d[b.RootStart() + s := x];
            && View(b, d') == View(b, d).(root := View(b, d).root[s := x])
            && (Mirrored(b, d) ==> Mirrored(b, d'))
  {
    var d' := d[b.RootStart() + s := x];
    SameFat(b, d, d');
    forall c | 2 <= c < b.TotalClusters() + 2
      ensures ClusterSectors(b, d', c) == ClusterSectors(b, d, c)
    {
      ClusterInRange(b, |d|, c);
    }
    assert View(b, d').data == View(b, d).data;
    assert View(b, d').root == View(b, d).root[s := x];
  }

  lemma WriteCluster(b: Bpb, d: seq<Sector>, c: nat, s: nat, x: Sector)
    requires b.Good(|d|) && 2 <= c < b.TotalClusters() + 2 && s < b.sectorsPerCluster
    ensures b.FirstData() <= b.ClusterStart(c) + s < |d|
    ensures var d' := d[b.ClusterStart(c) + s := x];
            && View(b, d') == View(b, d).(data := SetSector(View(b, d).data, c, s, x))
            && (Mirrored(b, d) ==> Mirrored(b, d'))
  {
    ClusterInRange(b, |d|, c);
    var d' := d[b.ClusterStart(c) + s := x];
    SameFat(b, d, d');
    forall k | 2 <= k < b.TotalClusters() + 2
      ensures ClusterSectors(b, d', k) ==
              if k == c then ClusterSectors(b, d, c)[s := x] else ClusterSectors(b, d, k)
    {
      ClusterInRange(b, |d|, k);
      if k < c {
        ClustersDisjoint(b, |d|, k, c);
      } else if c < k {
        ClustersDisjoint(b, |d|, c, k);
      }
    }
    assert View(b, d').root == View(b, d).root;
    assert View(b, d').data == SetSector(View(b, d).data, c, s, x);
  }

  lemma PlaceInRange(b: Bpb, d: seq<Sector>, p: Place)
    requires b.Good(|d|) && View(b, d).Has(p)
    ensures 0 < b.Lba(p) < |d| && d[b.Lba(p)] == View(b, d).SectorAt(p)
  {
    match p
    case InRoot(s) =>
    case InCluster(c, s) =>
      ClusterInRange(b, |d|, c);
      assert View(b, d).data[c] == ClusterSectors(b, d, c);
  }

  lemma WritePlace(b: Bpb, d: seq<Sector>, p: Place, x: Sector)
    requires b.Good(|d|) && Mirrored(b, d) && View(b, d).Has(p)
    ensures 0 < b.Lba(p) < |d|
    ensures View(b, d[b.Lba(p) := x]) == View(b, d).WithSector(p, x)
    ensures Mirrored(b, d[b.Lba(p) := x])
  {
    PlaceInRange(b, d, p);
    match p
    case InRoot(s) => WriteRoot(b, d, s, x);
    case InCluster(c, s) => WriteCluster(b, d, c, s, x);
  }
}
