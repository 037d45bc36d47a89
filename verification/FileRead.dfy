/** read_file and read_at: the bytes of a cluster chain, whole or from an offset on. */
module FileRead {
  import opened Bytes
  import opened Layout
  import opened Chains
  import opened Content
  import opened Slots
  import opened Names
  import opened Paths
  import opened VolumeState
  import opened FileData
  import opened TreeOps
  import opened Resolve
  import opened Lookup
  import opened FileWrite

  // ---------- the bytes of a walk ----------

  /** All bytes of the sectors, end to end. */
  ghost function Flat(secs: seq<Sector>): (r: seq<Byte>)
    ensures |r| == 512 * |secs|
  {
    seq(512 * |secs|, i requires 0 <= i < 512 * |secs| => secs[i / 512][i % 512])
  }

  lemma HoldsFlat(secs: seq<Sector>, bytes: seq<Byte>)
    ensures Holds(secs, bytes) <==> bytes <= Flat(secs)
  {
    if bytes <= Flat(secs) {
      assert bytes == Flat(secs)[..|bytes|];
    }
  }

  lemma FlatAppend(a: seq<Sector>, b: seq<Sector>)
    ensures Flat(a + b) == Flat(a) + Flat(b)
  {
    HoldsFlat(a, Flat(a));
    HoldsFlat(b, Flat(b));
    HoldsAppend(a, Flat(a), b, Flat(b));
    HoldsFlat(a + b, Flat(a) + Flat(b));
  }

  /** Clusters each linked to the next. In a cyclic FAT a walk may visit a cluster again and again. */
  ghost predicate IsWalk(vol: Vol, walk: seq<nat>)
    requires vol.WellFormed()
  {
    && |walk| > 0
    && (forall i :: 0 <= i < |walk| ==> vol.IsCluster(walk[i]))
    && (forall i :: 0 <= i < |walk| - 1 ==> vol.fat[walk[i]] == walk[i + 1])
  }

  ghost predicate Ends(vol: Vol, walk: seq<nat>)
    requires vol.WellFormed() && IsWalk(vol, walk)
  {
    vol.fat[walk[|walk| - 1]] >= FIRST_END_MARK
  }

  ghost function BytesOf(vol: Vol, walk: seq<nat>): seq<Byte>
    requires vol.WellFormed() && IsWalk(vol, walk)
  {
    Flat(Cat(vol.data, walk))
  }

  lemma {:induction false} WalkBytes(vol: Vol, walk: seq<nat>, i: nat)
    requires vol.WellFormed() && IsWalk(vol, walk) && i < |walk|
    ensures Capacity(vol.spc, i + 1) == Capacity(vol.spc, i) + vol.spc * 512
    ensures Capacity(vol.spc, i + 1) <= |BytesOf(vol, walk)| == Capacity(vol.spc, |walk|)
    ensures BytesOf(vol, walk)[Capacity(vol.spc, i)..Capacity(vol.spc, i + 1)] == Flat(vol.data[walk[i]])
    decreases |walk|
  {
    hide Flat;
    CapacityStep(vol.spc, i);
    CatLength(vol, walk);
    assert Capacity(vol.spc, |walk|) == 512 * |Cat(vol.data, walk)|;
    CapacityMono(vol.spc, i + 1, |walk|);
    var front := Front(walk);
    FlatAppend(Cat(vol.data, front), vol.data[Last(walk)]);
    CatLength(vol, front);
    if i < |walk| - 1 {
      WalkBytes(vol, front, i);
      CapacityMono(vol.spc, i + 1, |front|);
    }
  }

  lemma {:induction false} CatCons(data: seq<seq<Sector>>, ch: seq<nat>)
    requires InData(data, ch) && ch != []
    ensures Cat(data, ch) == data[ch[0]] + Cat(data, ch[1..])
    decreases |ch|
  {
    var rest := ch[1..];
    if |ch| > 1 {
      CatCons(data, Front(ch));
      assert Front(ch)[1..] == Front(rest) && Last(rest) == Last(ch);
      calc {
        Cat(data, ch);
        (data[ch[0]] + Cat(data, Front(rest))) + data[Last(ch)];
        data[ch[0]] + (Cat(data, Front(rest)) + data[Last(ch)]);
        data[ch[0]] + Cat(data, rest);
      }
    } else {
      assert Front(ch) == [] && rest == [];
    }
  }

  // ---------- what the links of any FAT lead to ----------

  /** 32-bit arithmetic. */
  function Wrap(x: int): nat {
    x % 0x1_0000_0000
  }

  /** The first sector of a cluster number as the driver computes it. */
  function ClusterLba(b: Bpb, c: nat): nat
    requires b.bytesPerSector > 0
  {
    Wrap(b.FirstData() + (c - 2) * b.sectorsPerCluster)
  }

  function RawSector(d: seq<Sector>, beyond: nat -> Sector, lba: nat): Sector {
    SectorOf(d, beyond, Wrap(lba))
  }

  /** What the device delivers for n sector numbers in a row. */
  ghost function SectorsFrom(d: seq<Sector>, beyond: nat -> Sector, first: nat, n: nat): (r: seq<Sector>)
    ensures |r| == n
  {
    seq<Sector>(n, s requires 0 <= s < n => RawSector(d, beyond, first + s))
  }

  /** The sectors that the driver reads for a cluster number, be it a cluster of the volume or not. */
  ghost function RawSectors(b: Bpb, d: seq<Sector>, beyond: nat -> Sector, c: nat): (r: seq<Sector>)
    requires b.bytesPerSector > 0
    ensures |r| == b.sectorsPerCluster
  {
    SectorsFrom(d, beyond, ClusterLba(b, c), b.sectorsPerCluster)
  }

  /** At most n bytes from cluster number c on, following whatever words the links lead to, up to an end mark. */
  ghost function Stream(b: Bpb, d: seq<Sector>, beyond: nat -> Sector, c: nat, n: nat): (r: seq<Byte>)
    requires b.bytesPerSector > 0 && b.sectorsPerCluster > 0
    ensures |r| <= n
    decreases n
  {
    var here := Flat(RawSectors(b, d, beyond, c));
    if n <= |here| then here[..n]
    else
      var next := WordAt(b, d, beyond, c);
      here + if next >= FIRST_END_MARK then [] else Stream(b, d, beyond, next, n - |here|)
  }

  /** Where the links never come to an end mark, say on a cycle, there are as many bytes as one likes. */
  lemma {:induction false} CycleFills(b: Bpb, d: seq<Sector>, beyond: nat -> Sector, cycle: set<nat>, c: nat, n: nat)
    requires b.bytesPerSector > 0 && b.sectorsPerCluster > 0 && c in cycle
    requires forall k :: k in cycle ==> WordAt(b, d, beyond, k) in cycle && WordAt(b, d, beyond, k) < FIRST_END_MARK
    ensures |Stream(b, d, beyond, c, n)| == n
    decreases n
  {
    hide Stream, WordAt, RawSectors, Flat;
    StreamStep(b, d, beyond, c, n);
    var size := |Flat(RawSectors(b, d, beyond, c))|;
    if n > size {
      CycleFills(b, d, beyond, cycle, WordAt(b, d, beyond, c), n - size);
    }
  }

  lemma RawCluster(b: Bpb, d: seq<Sector>, beyond: nat -> Sector, c: nat)
    requires b.Good(|d|) && View(b, d).IsCluster(c)
    ensures RawSectors(b, d, beyond, c) == View(b, d).data[c]
  {
    hide Bpb.Good, Bpb.FirstData, Bpb.TotalSectors, View, Wrap, SectorsFrom;
    ClusterOnDisk(b, d, c);
    InOrder(d, beyond, b.ClusterStart(c), b.sectorsPerCluster);
    WrapSmall(b.ClusterStart(c));
  }

  lemma ClusterOnDisk(b: Bpb, d: seq<Sector>, c: nat)
    requires b.Good(|d|) && View(b, d).IsCluster(c)
    ensures b.bytesPerSector > 0 && b.ClusterStart(c) + b.sectorsPerCluster <= |d|
    ensures b.ClusterStart(c) + b.sectorsPerCluster < 0x1_0000_0000
    ensures View(b, d).data[c] == d[b.ClusterStart(c)..b.ClusterStart(c) + b.sectorsPerCluster]
  {
    ClusterInRange(b, |d|, c);
    assert View(b, d).data[c] == ClusterSectors(b, d, c);
  }

  lemma WrapSmall(x: nat)
    requires x < 0x1_0000_0000
    ensures Wrap(x) == x
  {
  }

  lemma InOrder(d: seq<Sector>, beyond: nat -> Sector, first: nat, n: nat)
    requires first + n <= |d| && first + n < 0x1_0000_0000
    ensures SectorsFrom(d, beyond, first, n) == d[first..first + n]
  {
    hide Wrap;
    forall s | 0 <= s < n ensures SectorsFrom(d, beyond, first, n)[s] == d[first + s] {
      WrapSmall(first + s);
      assert SectorsFrom(d, beyond, first, n)[s] == RawSector(d, beyond, first + s);
    }
  }

  /** On a mounted volume the bytes are those of the clusters that the links lead along. */
  lemma {:induction false} WalkStream(v: Volume, walk: seq<nat>, n: nat)
    requires v.Mounted() && IsWalk(v.Vol(), walk)
    requires Ends(v.Vol(), walk) || n <= |BytesOf(v.Vol(), walk)|
    ensures v.bpb.bytesPerSector > 0 && v.bpb.sectorsPerCluster > 0
    ensures Stream(v.bpb, v.disk, v.beyond, walk[0], n) ==
            BytesOf(v.Vol(), walk)[..Min(n, |BytesOf(v.Vol(), walk)|)]
    decreases |walk|
  {
    hide View, RawSectors, Flat, WordAt, Mirrored, Bpb.Good, BytesOf, IsWalk, Stream;
    WalkStep(v, walk);
    StreamStep(v.bpb, v.disk, v.beyond, walk[0], n);
    var here := Flat(RawSectors(v.bpb, v.disk, v.beyond, walk[0]));
    var rest := if |walk| > 1 then BytesOf(v.Vol(), walk[1..]) else [];
    JoinedPrefix(here, rest, n);
    if |walk| > 1 && n > |here| {
      WalkStream(v, walk[1..], n - |here|);
    }
  }

  lemma JoinedPrefix(a: seq<Byte>, b: seq<Byte>, n: nat)
    ensures n > |a| ==> (a + b)[..Min(n, |a + b|)] == a + b[..Min(n - |a|, |b|)]
    ensures n <= |a| ==> (a + b)[..Min(n, |a + b|)] == a[..n]
  {
  }

  lemma WalkStep(v: Volume, walk: seq<nat>)
    requires v.Mounted() && IsWalk(v.Vol(), walk)
    ensures v.bpb.bytesPerSector > 0 && v.bpb.sectorsPerCluster > 0 && |walk| > 0
    ensures |walk| > 1 ==> IsWalk(v.Vol(), walk[1..]) && (Ends(v.Vol(), walk) <==> Ends(v.Vol(), walk[1..]))
    ensures |walk| > 1 ==>
              && WordAt(v.bpb, v.disk, v.beyond, walk[0]) == walk[1..][0] < FIRST_END_MARK
    ensures |walk| == 1 && Ends(v.Vol(), walk) ==>
              WordAt(v.bpb, v.disk, v.beyond, walk[0]) >= FIRST_END_MARK
    ensures BytesOf(v.Vol(), walk) ==
            Flat(RawSectors(v.bpb, v.disk, v.beyond, walk[0])) +
            if |walk| > 1 then BytesOf(v.Vol(), walk[1..]) else []
  {
    hide View, RawSectors, Flat, WordAt, Mirrored, Bpb.Good;
    var vol := v.Vol();
    SomeBpb(v);
    FirstOfWalk(vol, walk);
    RawCluster(v.bpb, v.disk, v.beyond, walk[0]);
    WordOfCluster(v, walk[0]);
    CatCons(vol.data, walk);
    FlatAppend(vol.data[walk[0]], Cat(vol.data, walk[1..]));
    if |walk| == 1 {
      assert walk[1..] == [];
      NoBytes();
    }
  }

  lemma SomeBpb(v: Volume)
    requires v.Mounted()
    ensures v.bpb.bytesPerSector > 0 && v.bpb.sectorsPerCluster > 0
  {
  }

  lemma FirstOfWalk(vol: Vol, walk: seq<nat>)
    requires vol.WellFormed() && IsWalk(vol, walk)
    ensures vol.IsCluster(walk[0]) && (|walk| > 1 ==> vol.fat[walk[0]] == walk[1] < |vol.data|)
  {
    assert |walk| > 1 ==> vol.IsCluster(walk[1]);
  }

  lemma NoBytes()
    ensures Flat([]) == []
  {
  }

  lemma WordOfCluster(v: Volume, c: nat)
    requires v.Mounted() && v.Vol().IsCluster(c)
    ensures WordAt(v.bpb, v.disk, v.beyond, c) == v.Vol().fat[c]
  {
    hide View, Bpb.Good, Mirrored, WordAt;
    WordInFat(v.bpb, v.disk, v.beyond, c);
  }

  // ---------- read_at's loops ----------

  /** bytes[from..from + n], as far as there are any. */
  function Slice(bytes: seq<Byte>, from: nat, n: nat): (r: seq<Byte>)
    ensures |r| <= n
    ensures r == [] <==> n == 0 || from >= |bytes|
  {
    if from >= |bytes| then [] else bytes[from..Min(from + n, |bytes|)]
  }

  /** The i-th byte read is the i-th from the offset on, and as many are read as were asked for and are there. */
  lemma SliceAt(bytes: seq<Byte>, from: nat, n: nat)
    ensures |Slice(bytes, from, n)| == if from >= |bytes| then 0 else if n <= |bytes| - from then n else |bytes| - from
    ensures forall i :: 0 <= i < |Slice(bytes, from, n)| ==> Slice(bytes, from, n)[i] == bytes[from + i]
  {
  }

  /** Consecutive reads compose. */
  lemma SliceCompose(bytes: seq<Byte>, from: nat, m: nat, n: nat)
    ensures Slice(bytes, from, m) + Slice(bytes, from + m, n) == Slice(bytes, from, m + n)
  {
  }

  /** The byte loop over one sector. */
  method TakeBytes(sector: Sector, from: nat, remaining: nat) returns (out: seq<Byte>)
    requires from <= 512
    ensures out == sector[from..Min(from + remaining, 512)]
    ensures from < 512 ==> out == Slice(sector, from, remaining)
  {
    out := [];
    var i := from;
    while i < 512 && |out| < remaining
      invariant i == from + |out| <= 512 && |out| <= remaining
      invariant out == sector[from..i]
    {
      out := out + [sector[i]];
      i := i + 1;
    }
  }

  /** The sector loop over one cluster: `skip` bytes are passed over. */
  method ReadCluster(v: Volume, cluster: nat, skip0: nat, remaining0: nat) returns (out: seq<Byte>)
    requires v.bpb.bytesPerSector > 0 && skip0 < v.bpb.sectorsPerCluster * 512
    ensures out == Slice(Flat(RawSectors(v.bpb, v.disk, v.beyond, cluster)), skip0, remaining0)
  {
    hide Slice, Flat, ClusterLba, SectorOf;
    ghost var secs := RawSectors(v.bpb, v.disk, v.beyond, cluster);
    ghost var bytes := Flat(secs);
    var sectorStart := ClusterLba(v.bpb, cluster);
    var skip: nat, remaining: nat := skip0, remaining0;
    out := [];
    SliceEnds(bytes, skip0, 0);
    var s := 0;
    while s < v.bpb.sectorsPerCluster && remaining > 0
      invariant s <= v.bpb.sectorsPerCluster && |out| + remaining == remaining0
      invariant out == Slice(bytes, skip0, |out|) && skip0 + |out| <= |bytes|
      invariant remaining > 0 ==> skip0 + |out| == 512 * s + skip
    {
      var sector := v.ReadSector(Wrap(sectorStart + s));
      var from: nat := 0;
      if skip > 0 {
        from := skip;
        if from >= 512 {
          skip := skip - 512;
          s := s + 1;
          continue;
        }
        skip := 0;
      }
      var chunk := TakeBytes(sector, from, remaining);
      FlatSector(secs, s);
      ChunkJoins(bytes, skip0, |out|, 512 * s, 512, sector, from, remaining);
      out := out + chunk;
      remaining := remaining - |chunk|;
      s := s + 1;
    }
    SliceEnds(bytes, skip0, |out|);
  }

  lemma SliceEnds(bytes: seq<Byte>, from: nat, n: nat)
    ensures Slice(bytes, from, 0) == []
    ensures from + n == |bytes| ==> forall m: nat :: m >= n ==> Slice(bytes, from, m) == Slice(bytes, from, n)
  {
  }

  lemma FlatSector(secs: seq<Sector>, s: nat)
    requires s < |secs|
    ensures Flat(secs)[512 * s..512 * s + 512] == secs[s]
  {
  }

  /** The cluster that the offset lies in, skip bytes from its start; fails iff the links end before. */
  method SkipClusters(v: Volume, first: nat, offset: nat, ghost len: nat)
    returns (ok: bool, cluster: nat, skip: nat, ghost before: seq<Byte>)
    requires v.bpb.bytesPerSector > 0 && v.bpb.sectorsPerCluster > 0 && len > 0
    ensures ok ==> skip < v.bpb.sectorsPerCluster * 512 && |before| + skip == offset
    ensures ok ==> Stream(v.bpb, v.disk, v.beyond, first, offset + len) ==
                   before + Stream(v.bpb, v.disk, v.beyond, cluster, skip + len)
    ensures ok ==> if offset < v.bpb.sectorsPerCluster * 512 then cluster == first else cluster < FIRST_END_MARK
    ensures !ok ==> offset >= v.bpb.sectorsPerCluster * 512
                    && |Stream(v.bpb, v.disk, v.beyond, first, offset + len)| <= offset
  {
    hide Stream, StreamRest, WordAt, RawSectors, Flat;
    ghost var b, d, beyond := v.bpb, v.disk, v.beyond;
    ghost var all := Stream(b, d, beyond, first, offset + len);
    var clusterSizeBytes := v.bpb.sectorsPerCluster * 512;
    cluster, skip, before := first, offset, [];
    while skip >= clusterSizeBytes
      invariant |before| + skip == offset && all == before + Stream(b, d, beyond, cluster, skip + len)
      invariant (cluster == first && skip == offset) || (cluster < FIRST_END_MARK && offset >= clusterSizeBytes)
      decreases skip
    {
      StreamStep(b, d, beyond, cluster, skip + len);
      var next := v.GetFatEntry(cluster);
      if next >= 0xFFF8 {
        return false, cluster, skip, before;
      }
      ghost var here := Flat(RawSectors(b, d, beyond, cluster));
      Associates(before, here, Stream(b, d, beyond, next, skip + len - |here|));
      before := before + here;
      cluster := next;
      skip := skip - clusterSizeBytes;
    }
    ok := true;
  }

  /** The cluster loops of read_at, on every FAT: whatever the words, and whatever clusters they name, the loops
      end, as `skip` and `remaining` shrink, and give exactly the bytes that the links lead to. */
  method ReadRange(v: Volume, first: nat, offset: nat, len: nat) returns (ok: bool, out: seq<Byte>)
    requires v.bpb.bytesPerSector > 0 && v.bpb.sectorsPerCluster > 0 && len > 0
    ensures var s := Stream(v.bpb, v.disk, v.beyond, first, offset + len);
            if first >= FIRST_END_MARK && offset < v.bpb.sectorsPerCluster * 512 then ok && out == []
            else (ok <==> offset < |s|) && (ok ==> out == s[offset..])
  {
    hide Stream, StreamRest, Slice, WordAt, RawSectors, Flat, IsRead, Reading, Min;
    ghost var b, d, beyond := v.bpb, v.disk, v.beyond;
    ghost var all := Stream(b, d, beyond, first, offset + len);
    ghost var before;
    var cluster: nat, skip: nat;
    ok, cluster, skip, before := SkipClusters(v, first, offset, len);
    out := [];
    if !ok {
      return;
    }
    StartReading(all, before, Stream(b, d, beyond, cluster, skip + len), offset, skip);
    var remaining: nat := len;
    while cluster < 0xFFF8 && remaining > 0
      invariant |out| + remaining == len && IsRead(all, offset, out)
      invariant cluster < FIRST_END_MARK && remaining > 0 ==>
                  skip < v.bpb.sectorsPerCluster * 512
                  && Reading(all, before, Stream(b, d, beyond, cluster, skip + remaining), offset, out, skip)
      invariant if first >= FIRST_END_MARK && offset < v.bpb.sectorsPerCluster * 512 then cluster == first && out == []
                else cluster >= FIRST_END_MARK || remaining == 0 ==> |out| > 0 && |all| == offset + |out|
      decreases remaining
    {
      StreamStep(b, d, beyond, cluster, skip + remaining);
      var chunk := ReadCluster(v, cluster, skip, remaining);
      ghost var here := Flat(RawSectors(b, d, beyond, cluster));
      ghost var rest := StreamRest(b, d, beyond, cluster, skip + remaining);
      ReadOn(all, before, here, rest, offset, out, skip, remaining);
      out := out + chunk;
      remaining := remaining - |chunk|;
      if remaining == 0 {
        break;
      }
      cluster := v.GetFatEntry(cluster);
      before := before + here;
      skip := 0;
    }
    AllRead(all, offset, out);
  }

  /** The bytes read so far are those from the offset on. */
  ghost predicate IsRead(all: seq<Byte>, offset: nat, out: seq<Byte>) {
    out == [] || (offset + |out| <= |all| && out == all[offset..offset + |out|])
  }

  /** What is left to read starts skip bytes into rest. */
  ghost predicate Reading(all: seq<Byte>, before: seq<Byte>, rest: seq<Byte>, offset: nat, out: seq<Byte>, skip: nat) {
    all == before + rest && |before| + skip == offset + |out| && IsRead(all, offset, out)
  }

  lemma StartReading(all: seq<Byte>, before: seq<Byte>, rest: seq<Byte>, offset: nat, skip: nat)
    requires all == before + rest && |before| + skip == offset
    ensures Reading(all, before, rest, offset, [], skip) && IsRead(all, offset, [])
  {
  }

  lemma AllRead(all: seq<Byte>, offset: nat, out: seq<Byte>)
    requires IsRead(all, offset, out)
    ensures out != [] && |all| == offset + |out| ==> out == all[offset..]
  {
  }

  lemma Associates(a: seq<Byte>, b: seq<Byte>, c: seq<Byte>)
    ensures a + (b + c) == a + b + c
  {
  }

  /** What Stream has behind the bytes of the first cluster. */
  ghost function StreamRest(b: Bpb, d: seq<Sector>, beyond: nat -> Sector, c: nat, n: nat): seq<Byte>
    requires b.bytesPerSector > 0 && b.sectorsPerCluster > 0
  {
    var size, next := b.sectorsPerCluster * 512, WordAt(b, d, beyond, c);
    if n <= size || next >= FIRST_END_MARK then [] else Stream(b, d, beyond, next, n - size)
  }

  lemma StreamStep(b: Bpb, d: seq<Sector>, beyond: nat -> Sector, c: nat, n: nat)
    requires b.bytesPerSector > 0 && b.sectorsPerCluster > 0
    ensures var here, next := Flat(RawSectors(b, d, beyond, c)), WordAt(b, d, beyond, c);
            && |here| == b.sectorsPerCluster * 512
            && (n <= |here| ==> Stream(b, d, beyond, c, n) == here[..n])
            && (n > |here| ==>
                  Stream(b, d, beyond, c, n) == here + StreamRest(b, d, beyond, c, n)
                  && StreamRest(b, d, beyond, c, n) ==
                     if next >= FIRST_END_MARK then [] else Stream(b, d, beyond, next, n - |here|))
  {
    hide RawSectors, Flat, WordAt;
  }

  /** One more cluster read. */
  lemma ReadOn(all: seq<Byte>, before: seq<Byte>, here: seq<Byte>, rest: seq<Byte>, offset: nat, out: seq<Byte>,
               skip: nat, remaining: nat)
    requires skip < |here| && remaining > 0
    requires Reading(all, before, if skip + remaining <= |here| then here[..skip + remaining] else here + rest,
                     offset, out, skip)
    ensures var chunk := Slice(here, skip, remaining);
            && 0 < |chunk| <= remaining && IsRead(all, offset, out + chunk)
            && (|chunk| < remaining ==> |chunk| == |here| - skip)
            && (|chunk| == remaining || rest == [] ==> |all| == offset + |out + chunk|)
            && (|chunk| < remaining ==> Reading(all, before + here, rest, offset, out + chunk, 0))
  {
    hide Slice, IsRead, Min;
    SliceTail(here, skip, remaining);
    if skip + remaining <= |here| {
      ReadMore(all, before, here[..skip + remaining], [], offset, out, skip);
    } else {
      ReadMore(all, before, here, rest, offset, out, skip);
      assert |all| == |before| + |here| + |rest|;
    }
  }

  lemma SliceTail(here: seq<Byte>, skip: nat, remaining: nat)
    requires skip < |here|
    ensures var chunk := Slice(here, skip, remaining);
            if skip + remaining <= |here| then chunk == here[..skip + remaining][skip..] && |chunk| == remaining
            else chunk == here[skip..] && |chunk| == |here| - skip < remaining
  {
  }

  lemma ReadMore(all: seq<Byte>, before: seq<Byte>, here: seq<Byte>, tail: seq<Byte>, offset: nat, out: seq<Byte>,
                 skip: nat)
    requires all == before + (here + tail) && |before| + skip == offset + |out| && skip < |here|
    requires IsRead(all, offset, out)
    ensures all == before + here + tail && IsRead(all, offset, out + here[skip..])
  {
    var a, m := offset + |out|, |here| - skip;
    assert all[a..a + m] == here[skip..];
    assert out != [] ==> all[offset..a + m] == all[offset..a] + all[a..a + m];
  }

  lemma ChunkJoins(bytes: seq<Byte>, offset: nat, n: nat, base: nat, size: nat, cluster: seq<Byte>, skip: nat,
        remaining: nat)
    requires base + size <= |bytes| && cluster == bytes[base..base + size] && |cluster| == size
    requires skip < size && offset + n == base + skip && remaining > 0
    ensures var chunk := Slice(cluster, skip, remaining);
            && |chunk| == Min(remaining, size - skip)
            && Slice(bytes, offset, n) + chunk == Slice(bytes, offset, n + |chunk|)
  {
    hide Slice;
    var m := Min(remaining, size - skip);
    SliceCut(cluster, skip, remaining);
    SliceCut(bytes, offset, n);
    SliceCut(bytes, offset, n + m);
    SliceOfSlice(bytes, base, base + size, skip, skip + m);
    SlicesJoin(bytes, offset, offset + n, offset + n + m);
  }

  lemma SliceCut(bytes: seq<Byte>, from: nat, n: nat)
    requires from <= |bytes|
    ensures Slice(bytes, from, n) == bytes[from..from + Min(n, |bytes| - from)]
  {
  }

  lemma SliceOfSlice(s: seq<Byte>, a: nat, b: nat, i: nat, j: nat)
    requires a <= b <= |s| && i <= j <= b - a
    ensures s[a..b][i..j] == s[a + i..a + j]
  {
    var x, y := s[a..b][i..j], s[a + i..a + j];
    assert |x| == |y| && forall k :: 0 <= k < |x| ==> x[k] == y[k];
  }

  lemma SlicesJoin(s: seq<Byte>, a: nat, b: nat, c: nat)
    requires a <= b <= c <= |s|
    ensures s[a..b] + s[b..c] == s[a..c]
  {
  }

  // ---------- read_file's loops ----------

  /** The byte loop of read_file: returns early as soon as nothing remains. */
  method TakeSector(sector: Sector, remaining0: nat) returns (out: seq<Byte>, done: bool)
    ensures out == sector[..Min(remaining0, 512)] && (done <==> remaining0 < 512)
  {
    out := [];
    for i := 0 to 512
      invariant |out| == i <= remaining0 && out == sector[..i]
    {
      if |out| == remaining0 {
        return out, true;
      }
      out := out + [sector[i]];
    }
    return out, false;
  }

  method TakeCluster(v: Volume, cluster: nat, remaining0: nat) returns (out: seq<Byte>, done: bool)
    requires v.Mounted() && v.Vol().IsCluster(cluster)
    ensures var bytes := Flat(v.Vol().data[cluster]);
            out == bytes[..Min(remaining0, |bytes|)] && (done <==> remaining0 < |bytes|)
  {
    hide View, Mirrored, Bpb.TotalClusters, Bpb.ClusterStart, Flat;
    ghost var secs := v.Vol().data[cluster];
    ghost var bytes := Flat(secs);
    var sectorStart := v.bpb.ClusterStart(cluster);
    out := [];
    for s := 0 to v.bpb.sectorsPerCluster
      invariant |out| == 512 * s <= remaining0 && out == bytes[..512 * s]
    {
      var sector := v.ReadAt(sectorStart + s, InCluster(cluster, s));
      var chunk;
      chunk, done := TakeSector(sector, remaining0 - |out|);
      FlatSector(secs, s);
      PrefixJoins(bytes, 512 * s, sector, remaining0 - |out|);
      out := out + chunk;
      if done {
        return;
      }
    }
    done := false;
  }

  /** The cluster loop of read_file. */
  method ReadChain(v: Volume, first: nat, size: nat, ghost ch: seq<nat>) returns (out: seq<Byte>)
    requires v.Mounted() && IsChain(v.Vol(), ch) && ch[0] == first && size <= |BytesOf(v.Vol(), ch)|
    ensures out == BytesOf(v.Vol(), ch)[..size]
  {
    hide View, BytesOf, Cat, Capacity, Mirrored, Bpb.TotalClusters;
    ghost var vol := v.Vol();
    ghost var bytes := BytesOf(vol, ch);
    CapacityStep(vol.spc, 0);
    var cluster := first;
    out := [];
    ghost var i := 0;
    while cluster < 0xFFF8
      invariant i <= |ch| && (if i < |ch| then cluster == ch[i] else cluster >= 0xFFF8)
      invariant |out| == Capacity(vol.spc, i) <= size && out == bytes[..|out|]
      decreases |ch| - i
    {
      WalkBytes(vol, ch, i);
      ChainWord(vol, ch, i);
      var chunk, done := TakeCluster(v, cluster, size - |out|);
      PrefixJoins(bytes, |out|, Flat(vol.data[ch[i]]), size - |out|);
      out := out + chunk;
      if done {
        return;
      }
      cluster := v.GetFatEntry(cluster);
      i := i + 1;
    }
    WalkBytes(vol, ch, |ch| - 1);
  }

  lemma PrefixJoins(bytes: seq<Byte>, n: nat, cluster: seq<Byte>, remaining: nat)
    requires n + |cluster| <= |bytes| && cluster == bytes[n..n + |cluster|]
    ensures var m := Min(remaining, |cluster|); bytes[..n] + cluster[..m] == bytes[..n + m]
  {
  }

  // ---------- the file that a path names ----------

  /** A file's bytes are the first of those on its chain. */
  lemma FileBytes(v: Volume, key: seq<Name>)
    requires Holding(v) && Stat(v.tree, key).IsFile? && Stat(v.tree, key).chain != []
    ensures v.Mounted()
    ensures var e := Stat(v.tree, key);
            IsChain(v.Vol(), e.chain) && e.bytes <= BytesOf(v.Vol(), e.chain)
  {
    StatChain(v.Vol(), v.tree, key);
    var e := Stat(v.tree, key);
    HoldsFlat(Cat(v.Vol().data, e.chain), e.bytes);
  }

  /** Tells the size of the file that `path` names; fails iff it names no file. */
  method FileSize(v: Volume, path: Str) returns (ok: bool, size: Dword)
    requires Holding(v) && FitsBuffers(v.currentPath, path)
    ensures ok <==> path != [] && Stat(v.tree, KeyOf(v.currentPath, path)).IsFile?
    ensures ok ==> size == |Stat(v.tree, KeyOf(v.currentPath, path)).bytes|
  {
    hide View, Holding, KeyOf, FitsBuffers, Stat;
    if path == [] {
      return false, 0;
    }
    RootIsDir(v, KeyOf(v.currentPath, path));
    var found, entry := FindPath(v, path);
    if !found || IsDirSlot(entry) {
      return false, 0;
    }
    return true, SizeOf(entry);
  }

  lemma RootIsDir(v: Volume, key: seq<Name>)
    requires Holding(v)
    ensures key == [] ==> Stat(v.tree, key).IsDir?
  {
  }

  method IsDirectory(v: Volume, path: Str) returns (r: bool)
    requires Holding(v) && FitsBuffers(v.currentPath, path)
    ensures r <==> path != [] && Stat(v.tree, KeyOf(v.currentPath, path)).IsDir?
  {
    hide View, Holding, KeyOf, FitsBuffers, Stat, Normalized;
    if path == [] {
      return false;
    }
    RootKey(v.currentPath, path);
    RootIsDir(v, KeyOf(v.currentPath, path));
    var abs := NormalizePath(v.currentPath, path);
    if abs == ROOT {
      return true;
    }
    var found, entry := FindPath(v, path);
    return found && IsDirSlot(entry);
  }

  /** Reads the whole of a file of at most maxSize bytes. */
  method ReadFile(v: Volume, path: Str, maxSize: nat) returns (ok: bool, out: seq<Byte>)
    requires Holding(v) && FitsBuffers(v.currentPath, path)
    ensures var e := Stat(v.tree, KeyOf(v.currentPath, path));
            && (ok <==> path != [] && e.IsFile? && |e.bytes| <= maxSize)
            && (ok ==> out == e.bytes)
  {
    hide View, Represents, KeyOf, FitsBuffers, Stat;
    if path == [] {
      return false, [];
    }
    ghost var key := KeyOf(v.currentPath, path);
    RootIsDir(v, key);
    var found, entry := FindPath(v, path);
    if !found || IsDirSlot(entry) {
      return false, [];
    }
    var size := SizeOf(entry);
    if size > maxSize {
      return false, [];
    }
    var cluster := ClusterOf(entry);
    if size == 0 {
      return true, [];
    }
    if cluster < 2 {
      assert false;
      return false, [];
    }
    FileBytes(v, key);
    out := ReadChain(v, cluster, size, Stat(v.tree, key).chain);
    ok := true;
  }

  /** Reads at most len bytes from `offset` on: exactly those that the file has there. */
  method ReadAt(v: Volume, path: Str, offset: nat, len: nat) returns (ok: bool, out: seq<Byte>)
    requires Holding(v) && FitsBuffers(v.currentPath, path)
    ensures var e := Stat(v.tree, KeyOf(v.currentPath, path));
            && (ok <==> path != [] && e.IsFile?)
            && out == if ok then Slice(e.bytes, offset, len) else []
  {
    hide View, Represents, KeyOf, FitsBuffers, Stat, BytesOf, Stream, Mirrored, Bpb.TotalClusters;
    if path == [] {
      return false, [];
    }
    ghost var key := KeyOf(v.currentPath, path);
    RootIsDir(v, key);
    var found, entry := FindPath(v, path);
    if !found || IsDirSlot(entry) {
      return false, [];
    }
    var size := SizeOf(entry);
    if offset >= size {
      return true, [];
    }
    var remaining := Min(size - offset, len);
    if remaining == 0 {
      return true, [];
    }
    var cluster := ClusterOf(entry);
    if cluster < 2 {
      assert false;
      return false, [];
    }
    FileBytes(v, key);
    ghost var e := Stat(v.tree, key);
    WalkStream(v, e.chain, offset + remaining);
    SliceOfPrefix(e.bytes, BytesOf(v.Vol(), e.chain), offset, len);
    ok, out := ReadRange(v, cluster, offset, remaining);
  }

  lemma SliceOfPrefix(bytes: seq<Byte>, all: seq<Byte>, offset: nat, len: nat)
    requires bytes <= all && offset < |bytes|
    ensures var n := Min(|bytes| - offset, len);
            offset + n <= |all| && all[..offset + n][offset..] == Slice(bytes, offset, len)
  {
    assert bytes == all[..|bytes|];
  }
}
