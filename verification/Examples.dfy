/** A small volume, and concrete inputs on which the kernel does not keep what one would expect of it. */
module Examples {
  import opened Bytes
  import opened Layout
  import opened Content
  import opened Names
  import opened Paths
  import opened VolumeState
  import opened FileData
  import opened Nodes
  import opened TreeOps
  import opened Resolve
  import opened Accounting
  import opened Entries
  import opened WorkingDir
  import opened FileRead
  import opened UserStack
  import opened Elf
  import Runs

  // ---------- formatted volumes ----------

  /** A boot sector with these parameters. */
  function BootSector(b: Bpb): (s: Sector)
    ensures HoldsParameters(s, b) && Signed(s)
  {
    var s1 := Zeros(512)[11 := b.bytesPerSector % 0x100][12 := b.bytesPerSector / 0x100][13 := b.sectorsPerCluster];
    var s2 := s1[14 := b.reservedSectors % 0x100][15 := b.reservedSectors / 0x100][16 := b.numFats];
    var s3 := s2[17 := b.rootEntries % 0x100][18 := b.rootEntries / 0x100];
    var s4 := s3[19 := b.totalSectors16 % 0x100][20 := b.totalSectors16 / 0x100];
    var s5 := s4[22 := b.sectorsPerFat % 0x100][23 := b.sectorsPerFat / 0x100];
    var s6 := s5[32 := b.totalSectors32 % 0x100][33 := b.totalSectors32 / 0x100 % 0x100];
    var s7 := s6[34 := b.totalSectors32 / 0x1_0000 % 0x100][35 := b.totalSectors32 / 0x100_0000];
    s7[510 := 0x55][511 := 0xAA]
  }

  /** Behind the boot sector there are only zeros. */
  function FormattedDisk(b: Bpb): (d: seq<Sector>)
    requires b.TotalSectors() > 0
    ensures |d| == b.TotalSectors() && d[0] == BootSector(b)
    ensures forall l :: 1 <= l < |d| ==> d[l] == Zeros(512)
  {
    [BootSector(b)] + seq<Sector>(b.TotalSectors() - 1, _ => Zeros(512))
  }

  lemma FormattedIsFresh(b: Bpb)
    requires b.TotalSectors() > 0 && b.Good(b.TotalSectors())
    ensures var d := FormattedDisk(b);
            && Mirrored(b, d)
            && var vol := View(b, d);
            && |vol.root| == b.RootSectors() && |vol.data| == b.TotalClusters() + 2
            && (forall s :: 0 <= s < |vol.root| ==> vol.root[s] == Zeros(512))
            && forall c :: vol.IsCluster(c) ==> vol.fat[c] == 0
  {
    hide BootSector, FormattedDisk;
    var d := FormattedDisk(b);
    ViewShape(b, d);
    forall c | View(b, d).IsCluster(c) ensures View(b, d).fat[c] == 0 {
      assert FatWord(b, d, c) == 0;
    }
  }

  lemma GoodHasSectors(b: Bpb, sectors: nat)
    requires b.Good(sectors)
    ensures b.TotalSectors() > 0
  {
  }

  /** Mounting it gives a valid, empty volume with exactly these parameters, whose clusters are all free. */
  method Mount(b: Bpb) returns (v: Volume)
    requires b.Good(b.TotalSectors())
    ensures fresh(v) && Runs.Good(v) && v.bpb == b && v.currentPath == ROOT
    ensures forall q :: q != [] ==> Stat(v.tree, q).Absent?
    ensures b.rootEntries > 0 ==> HasRoom(v.Vol(), v.tree)
    ensures forall c :: 2 <= c < b.TotalClusters() + 2 ==> c in FreeClusters(v.Vol())
  {
    hide View, Runs.Good, Stat, BootSector, ParseBpb, Mirrored, Bpb.TotalClusters, HoldsParameters, FreeClusters;
    GoodHasSectors(b, b.TotalSectors());
    FormattedIsFresh(b);
    v := new Volume(FormattedDisk(b), _ => Zeros(512), Dir([], seq(16 * b.RootSectors(), _ => Hole)));
    var ok := v.Init();
    Runs.FreshVolume(v);
  }

  /** One reserved sector, two FATs of one sector, 16 root entries, and ten clusters of one sector. */
  const SMALL := Bpb(512, 1, 1, 2, 16, 14, 1, 0)

  /** Two volumes whose parameters all differ, with the number of sectors in either field. */
  const SHORT := Bpb(512, 4, 3, 2, 224, 2880, 9, 0)
  const LONG := Bpb(512, 8, 4, 2, 256, 0, 20, 40960)

  lemma ExamplesAreGood()
    ensures SMALL.Good(14) && SMALL.TotalSectors() == 14 && SMALL.TotalClusters() == 10
    ensures SHORT.Good(2880) && SHORT.TotalSectors() == 2880 && SHORT.RootStart() == 21 && SHORT.ClusterStart(2) == 35
    ensures LONG.Good(40960) && LONG.TotalSectors() == 40960 && LONG.RootStart() == 44 && LONG.ClusterStart(2) == 60
  {
  }

  /** Each field is read from its place: no two can be exchanged unnoticed. */
  method MountBoth() returns (v: Volume, w: Volume)
    ensures v.bpb == SHORT && w.bpb == LONG && v != w
    ensures v.Mounted() && Holding(v) && w.Mounted() && Holding(w)
  {
    ExamplesAreGood();
    v := Mount(SHORT);
    w := Mount(LONG);
  }

  // ---------- paths ----------

  /** A name below the root, from everywhere. */
  lemma BelowRoot(cwd: Str, name: Str)
    requires IsName(name) && IsAbsolute(cwd)
    ensures FitsBuffers(cwd, [SLASH] + name) && Resolved(cwd, [SLASH] + name) == [name]
    ensures KeyOf(cwd, [SLASH] + name) == [Fmt(name)]
  {
    SlashedOne(name);
    PartsRender([name]);
    PartsSlash([SLASH] + name);
    OneStep(name);
    assert Joined(cwd, [SLASH] + name) == [SLASH] + ([SLASH] + name);
    assert Keys([name]) == [Fmt(name)];
  }

  lemma SlashedOne(name: Str)
    ensures Render([name]) == [SLASH] + name
  {
    assert Front([name]) == [] && Last([name]) == name;
    assert Slashed([name]) == Slashed([]) + [SLASH] + name == [SLASH] + name;
  }

  lemma OneStep(name: Str)
    requires IsName(name)
    ensures Fold([], [name]) == [name] && forall i :: 0 <= i <= 1 ==> |Fold([], [name][..i])| <= 1
  {
    FoldNames([], [name]);
    assert [] + [name] == [name];
    assert [name][..0] == [] && [name][..1] == [name];
  }

  lemma BelowHere(name: Str)
    requires IsName(name) && !IsAbsolute(name)
    ensures FitsBuffers(ROOT, name) && KeyOf(ROOT, name) == [Fmt(name)]
  {
    SlashedOne(name);
    PartsRender([name]);
    OneStep(name);
    assert Joined(ROOT, name) == [SLASH] + name;
    assert Keys([name]) == [Fmt(name)];
  }

  // ---------- names that start with the deleted mark ----------

  const MARKED_NAME: Str := [0xE5]

  /** touch reports success, and there is no such file. */
  method TouchedButAbsent() returns (made: bool, found: bool)
    ensures made && !found
  {
    hide View, HasRoom, Represents, Balanced, KeyOf, FitsBuffers, Stat, Fmt;
    ExamplesAreGood();
    var v := Mount(SMALL);
    BelowHere(MARKED_NAME);
    FmtFirst(MARKED_NAME);
    AtRoot(v, MARKED_NAME);
    made := Touch(v, MARKED_NAME, []);
    var size;
    found, size := FileSize(v, MARKED_NAME);
  }

  lemma AtRoot(v: Volume, name: Str)
    requires Runs.Good(v) && v.currentPath == ROOT
    requires HasRoom(v.Vol(), v.tree) && forall q :: q != [] ==> Stat(v.tree, q).Absent?
    ensures Home(v.currentPath) == [] && IsDirAt(v.tree, [], v.currentDirCluster)
    ensures CanInsert(v.Vol(), v.tree, [], Fmt(name))
  {
    PartsRender([]);
    assert Keys([]) == [];
    FmtFirst(name);
    StatIsGet(v.tree, [] + [Fmt(name)]);
  }

  // ---------- deleting the current directory ----------

  const DIR_NAME: Str := [0x41]
  const DIR_PATH: Str := [0x2F, 0x41]

  lemma DirPath(cwd: Str)
    requires IsAbsolute(cwd)
    ensures FitsBuffers(cwd, DIR_PATH) && KeyOf(cwd, DIR_PATH) == [Fmt(DIR_NAME)]
    ensures Normalized(cwd, DIR_PATH) == DIR_PATH && Home(DIR_PATH) == [Fmt(DIR_NAME)]
  {
    assert DIR_PATH == [SLASH] + DIR_NAME;
    BelowRoot(cwd, DIR_NAME);
    SlashedOne(DIR_NAME);
    PartsRender([DIR_NAME]);
  }

  /** The current directory is made. */
  lemma DirCanBeMade(a: Runs.Moment)
    requires a.vol.WellFormed() && a.path == ROOT && 2 in FreeClusters(a.vol) && Home(a.path) == []
    requires CanInsert(a.vol, a.tree, [], Fmt(DIR_NAME))
    ensures var op := Runs.NewDir(DIR_NAME);
            Runs.IsAdmissible(a.path, op) && Runs.Succeeds(op, a) && Runs.SparesHome(op, a)
  {
    hide CanInsert, FreeClusters;
  }

  /** It is entered. */
  lemma DirCanBeEntered(a: Runs.Moment, b: Runs.Moment)
    requires Runs.Did(Runs.NewDir(DIR_NAME), a, b) && a.path == ROOT && Home(a.path) == [] && b.vol.WellFormed()
    ensures var op := Runs.Cd(DIR_PATH);
            Runs.IsAdmissible(b.path, op) && Runs.Succeeds(op, b) && Runs.SparesHome(op, b)
    ensures b.path == ROOT && Stat(b.tree, [Fmt(DIR_NAME)]).IsDir?
  {
    hide Fmt, FitsBuffers, KeyOf, Home;
    assert [] + [Fmt(DIR_NAME)] == [Fmt(DIR_NAME)];
    DirPath(ROOT);
    DirAtStat(b.tree, [Fmt(DIR_NAME)], 0);
  }

  /** It can be deleted. */
  lemma DirCanBeDeleted(b: Runs.Moment, c: Runs.Moment)
    requires Runs.Did(Runs.Cd(DIR_PATH), b, c) && b.path == ROOT && Stat(b.tree, [Fmt(DIR_NAME)]).IsDir?
    requires c.vol.WellFormed()
    ensures var op := Runs.DeleteAll(DIR_PATH);
            Runs.IsAdmissible(c.path, op) && Runs.Succeeds(op, c) && c.path == DIR_PATH
  {
    hide Fmt, FitsBuffers, KeyOf, Stat, Normalized;
    DirPath(ROOT);
    DirPath(DIR_PATH);
  }

  lemma DirIsGone(c: Runs.Moment, d: Runs.Moment, cluster: nat)
    requires Runs.Did(Runs.DeleteAll(DIR_PATH), c, d) && c.path == DIR_PATH
    ensures d.path == DIR_PATH && Stat(d.tree, [Fmt(DIR_NAME)]).Absent? && !AtHome(d.tree, d.path, cluster)
  {
    hide Fmt, FitsBuffers, KeyOf, Stat, Home;
    DirPath(DIR_PATH);
    DirAtStat(d.tree, [Fmt(DIR_NAME)], cluster);
  }

  /** mkdir A, cd /A, rm_rf /A: all succeed, and the current directory is none any more. */
  method HomeDeleted() returns (v: Volume)
    ensures Valid(v) && v.currentPath == DIR_PATH && Stat(v.tree, [Fmt(DIR_NAME)]).Absent?
    ensures !AtHome(v.tree, v.currentPath, v.currentDirCluster)
  {
    hide View, HasRoom, Represents, Balanced, Stat, Fmt, AtHome, CanInsert, FreeClusters, Home, Runs.IsAdmissible,
      Runs.Succeeds, Runs.SparesHome, Runs.Did, Runs.FailsHalfway, Runs.Stays, Volume.Mounted, Bpb.Good;
    ExamplesAreGood();
    v := Mount(SMALL);
    Runs.GoodNow(v);
    AtRoot(v, DIR_NAME);
    ghost var a := Runs.Now(v);
    DirCanBeMade(a);
    var ok := Runs.Execute(v, Runs.NewDir(DIR_NAME));
    Runs.GoodNow(v);
    ghost var b := Runs.Now(v);
    DirCanBeEntered(a, b);
    ok := Runs.Execute(v, Runs.Cd(DIR_PATH));
    Runs.GoodNow(v);
    ghost var c := Runs.Now(v);
    DirCanBeDeleted(b, c);
    ok := Runs.Execute(v, Runs.DeleteAll(DIR_PATH));
    DirIsGone(c, Runs.Now(v), v.currentDirCluster);
  }

  // ---------- executables ----------

  /** The header of a 386 executable. */
  function HeaderBytes(entry: Dword, phoff: Dword, phnum: Word): (h: seq<Byte>)
    ensures |h| == EHDR_SIZE && HoldsHeader(h, entry, phoff, phnum)
  {
    var ident: seq<Byte> := [0x7F, 0x45, 0x4C, 0x46, 1, 1, 1];
    var types: seq<Byte> := [2, 0, 3, 0];
    var count: seq<Byte> := [32, 0, phnum % 0x100, phnum / 0x100];
    var h := ident + Zeros(9) + types + Zeros(4) + WordBytes(entry) + WordBytes(phoff) + Zeros(10) + count + Zeros(6);
    assert h[..7] == ident && h[16..20] == types && h[24..28] == WordBytes(entry) && h[28..32] == WordBytes(phoff);
    assert h[42..46] == count;
    h
  }

  /** The program header of a segment, whatever its physical address. */
  function SegmentBytes(s: Segment, paddr: Dword): (r: seq<Byte>)
    ensures |r| == PHDR_SIZE && HoldsSegment(r, 0, s) && IsDwordAt(r, 12, paddr)
  {
    var r := WordBytes(s.kind) + WordBytes(s.offset) + WordBytes(s.vaddr) + WordBytes(paddr)
             + WordBytes(s.filesz) + WordBytes(s.memsz) + Zeros(8);
    assert r[0..4] == WordBytes(s.kind) && r[4..8] == WordBytes(s.offset) && r[8..12] == WordBytes(s.vaddr);
    assert r[12..16] == WordBytes(paddr) && r[16..20] == WordBytes(s.filesz) && r[20..24] == WordBytes(s.memsz);
    r
  }

  /** A file with one segment. */
  function ProgramFile(entry: Dword, s: Segment, paddr: Dword, rest: seq<Byte>): (file: seq<Byte>)
    ensures |file| == 84 + |rest| && HoldsProgram(file, entry, 52, [s])
    ensures file[..EHDR_SIZE] == HeaderBytes(entry, 52, 1) && file[84..] == rest
  {
    var file := HeaderBytes(entry, 52, 1) + SegmentBytes(s, paddr) + rest;
    assert file[..EHDR_SIZE] == HeaderBytes(entry, 52, 1);
    assert file[52..84] == SegmentBytes(s, paddr);
    SegmentMoved(file, 52, SegmentBytes(s, paddr), s);
    file
  }

  lemma SegmentMoved(file: seq<Byte>, at: nat, r: seq<Byte>, s: Segment)
    requires |r| == PHDR_SIZE && at + PHDR_SIZE <= |file| && file[at..at + PHDR_SIZE] == r && HoldsSegment(r, 0, s)
    ensures HoldsSegment(file, at, s)
  {
    assert forall i: nat :: i < PHDR_SIZE ==> file[at + i] == r[i];
  }

  lemma OneSegment(s: Segment)
    requires s.Loads()
    ensures Loading([s]) == [s]
  {
    assert Front([s]) == [] && Loading([]) == [];
  }

  // Offset, address, physical address, file size and memory size all differ.
  const SEGMENT := Segment(PT_LOAD, 96, 0x20_0100, 4, 8)
  const CODE: seq<Byte> := [0xB8, 0x2A, 0xCD, 0x80]

  function SampleProgram(): (file: seq<Byte>)
    ensures |file| == 100 && file[96..] == CODE && HoldsProgram(file, 0x20_0102, 52, [SEGMENT])
  {
    var file := ProgramFile(0x20_0102, SEGMENT, 0x30_0000, Zeros(12) + CODE);
    assert file[96..] == file[84..][12..] == CODE;
    file
  }

  lemma SampleLoads()
    ensures IsLoadable(SampleProgram()) && AllSegments(SampleProgram()) == [SEGMENT] && SEGMENT.Fits(100)
  {
    hide SampleProgram, HoldsProgram, IsLoadable;
    var file, segs := SampleProgram(), [SEGMENT];
    OneSegment(SEGMENT);
    ProgramByBytes(file, 0x20_0102, 52, segs);
    LoadableByBytes(file, 0x20_0102, 52, segs);
    assert segs[0].vaddr <= 0x20_0102 < segs[0].vaddr + segs[0].memsz;
  }

  /** Where the bytes of a file end up: the code at its address, zeros behind it, and all else is as it was. */
  lemma SampleLoaded(ram: seq<Byte>, i: nat, a: nat)
    requires |ram| >= USER_MAX && i < 4 && a < |ram| && !(0x20_0100 <= a < 0x20_0108)
    ensures IsLoadable(SampleProgram()) && AllSegments(SampleProgram()) == [SEGMENT]
    ensures SEGMENT.Fits(|SampleProgram()|) && SEGMENT.Reach() <= |ram|
    ensures var m := Image(ram, SampleProgram(), [SEGMENT]);
            m[0x20_0100 + i] == CODE[i] && m[0x20_0104 + i] == 0 && m[a] == ram[a]
  {
    hide SampleProgram, HoldsProgram, Image, IsLoadable, AllSegments;
    var file, segs := SampleProgram(), [SEGMENT];
    SampleLoads();
    ImageBytes(ram, file, segs, 0, i);
    ImageBytes(ram, file, segs, 0, 4 + i);
    ImageAt(ram, file, segs, a, 0);
    assert file[96 + i] == file[96..][i];
  }

  // The whole file of 84 bytes goes to the start of user memory, into one byte.
  const OVERRUNNING := Segment(PT_LOAD, 0, USER_MIN, 84, 1)

  function OverrunningFile(): (file: seq<Byte>)
    ensures |file| == 84 && file[1] == 0x45 && HoldsProgram(file, USER_MIN, 52, [OVERRUNNING])
  {
    var file := ProgramFile(USER_MIN, OVERRUNNING, USER_MIN, []);
    assert file[1] == file[..EHDR_SIZE][1] == file[..EHDR_SIZE][..7][1];
    file
  }

  lemma OverrunningLoads()
    ensures IsLoadable(OverrunningFile()) && AllSegments(OverrunningFile()) == [OVERRUNNING] && OVERRUNNING.Fits(84)
  {
    hide OverrunningFile, HoldsProgram, IsLoadable;
    var file, segs := OverrunningFile(), [OVERRUNNING];
    OneSegment(OVERRUNNING);
    ProgramByBytes(file, USER_MIN, 52, segs);
    LoadableByBytes(file, USER_MIN, 52, segs);
    assert segs[0].vaddr <= USER_MIN < segs[0].vaddr + segs[0].memsz;
  }

  /** The loader accepts the file, and overwrites the byte behind the end that it reports, whatever was there. */
  lemma LoadedBeyondEnd(ram: seq<Byte>)
    requires |ram| >= USER_MAX
    ensures IsLoadable(OverrunningFile()) && AllSegments(OverrunningFile()) == [OVERRUNNING]
    ensures OVERRUNNING.Fits(|OverrunningFile()|) && OVERRUNNING.Reach() <= |ram|
    ensures High([OVERRUNNING]) == USER_MIN + 1 && Image(ram, OverrunningFile(), [OVERRUNNING])[USER_MIN + 1] == 0x45
  {
    hide OverrunningFile, HoldsProgram, Image, IsLoadable, AllSegments;
    OverrunningLoads();
    ImageBytes(ram, OverrunningFile(), [OVERRUNNING], 0, 1);
  }
}
