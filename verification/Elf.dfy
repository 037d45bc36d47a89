/** Loading a 32-bit ELF executable from a file into memory. */
module Elf {
  import opened Bytes
  import opened Names
  import opened Paths
  import opened Content
  import opened Layout
  import opened VolumeState
  import opened TreeOps
  import opened Resolve
  import opened FileRead
  import opened UserStack

  const USER_MIN := 0x20_0000
  const USER_MAX := 0x3F_0000
  const EHDR_SIZE := 52
  const PHDR_SIZE := 32
  const PHDRS_MAX := 32
  const PT_LOAD := 1

  /** The fields of a program header that the loader uses. */
  datatype Segment = Segment(kind: Dword, offset: Dword, vaddr: Dword, filesz: Dword, memsz: Dword)
  {
    /** PT_LOAD with something to load. */
    predicate Loads() {
      kind == PT_LOAD && memsz != 0
    }

    function End(): nat { vaddr + memsz }

    /** The last address that the loader may write, plus one: file bytes can reach past the memory size. */
    function Reach(): nat {
      vaddr + if filesz > memsz then filesz else memsz
    }

    predicate Holds(a: nat) {
      vaddr <= a < Reach()
    }

    /** The file bytes are there, and the memory is in the user window. */
    predicate Fits(size: nat) {
      offset + filesz <= size && USER_MIN <= vaddr && End() <= USER_MAX
    }
  }

  function ParseSegment(bytes: seq<Byte>, at: nat): Segment
    requires at + PHDR_SIZE <= |bytes|
  {
    Segment(Get32(bytes, at), Get32(bytes, at + 4), Get32(bytes, at + 8), Get32(bytes, at + 16), Get32(bytes, at + 20))
  }

  /** The bytes of a program header that hold these fields, each lowest byte first; those between, as the physical
      address at 12, are not looked at. */
  predicate HoldsSegment(bytes: seq<Byte>, at: nat, s: Segment)
    requires at + PHDR_SIZE <= |bytes|
  {
    && IsDwordAt(bytes, at, s.kind) && IsDwordAt(bytes, at + 4, s.offset) && IsDwordAt(bytes, at + 8, s.vaddr)
    && IsDwordAt(bytes, at + 16, s.filesz) && IsDwordAt(bytes, at + 20, s.memsz)
  }

  lemma SegmentParses(bytes: seq<Byte>, at: nat, s: Segment)
    requires at + PHDR_SIZE <= |bytes|
    ensures HoldsSegment(bytes, at, s) <==> ParseSegment(bytes, at) == s
  {
    hide Get32, IsDwordAt;
    Get32Is(bytes, at, s.kind);
    Get32Is(bytes, at + 4, s.offset);
    Get32Is(bytes, at + 8, s.vaddr);
    Get32Is(bytes, at + 16, s.filesz);
    Get32Is(bytes, at + 20, s.memsz);
  }

  /** The segments to load among the first n program headers of the table. */
  function Segments(table: seq<Byte>, n: nat): (r: seq<Segment>)
    requires n * PHDR_SIZE <= |table|
    ensures forall i :: 0 <= i < |r| ==> r[i].Loads()
  {
    if n == 0 then []
    else
      var s := ParseSegment(table, (n - 1) * PHDR_SIZE);
      Segments(table, n - 1) + if s.Loads() then [s] else []
  }

  predicate IdentOk(h: seq<Byte>)
    requires |h| == EHDR_SIZE
  {
    && h[0] == 0x7F && h[1] == 0x45 && h[2] == 0x4C && h[3] == 0x46
    && h[4] == 1 && h[5] == 1 && h[6] == 1
  }

  /** The header checks, without those of the program headers. */
  predicate HeaderOk(h: seq<Byte>, size: nat)
    requires |h| == EHDR_SIZE
  {
    && IdentOk(h) && Get16(h, 16) == 2 && Get16(h, 18) == 3
    && Get16(h, 42) == PHDR_SIZE && 0 < Get16(h, 44) <= PHDRS_MAX
    && Get32(h, 28) + Get16(h, 44) * PHDR_SIZE <= size
  }

  function Table(file: seq<Byte>): seq<Byte>
    requires |file| >= EHDR_SIZE && HeaderOk(file[..EHDR_SIZE], |file|)
  {
    var h := file[..EHDR_SIZE];
    file[Get32(h, 28)..Get32(h, 28) + Get16(h, 44) * PHDR_SIZE]
  }

  function AllSegments(file: seq<Byte>): seq<Segment>
    requires |file| >= EHDR_SIZE && HeaderOk(file[..EHDR_SIZE], |file|)
  {
    Segments(Table(file), Get16(file[..EHDR_SIZE], 44))
  }

  function EntryPoint(file: seq<Byte>): Dword
    requires |file| >= EHDR_SIZE
  {
    Get32(file[..EHDR_SIZE], 24)
  }

  // ---------- the file, byte by byte ----------

  /** The bytes of the header of a 386 executable, each field's lowest byte first. */
  predicate HoldsHeader(h: seq<Byte>, entry: Dword, phoff: Dword, phnum: Word)
    requires |h| == EHDR_SIZE
  {
    && h[..7] == [0x7F, 0x45, 0x4C, 0x46, 1, 1, 1] && IsWordAt(h, 16, 2) && IsWordAt(h, 18, 3)
    && IsDwordAt(h, 24, entry) && IsDwordAt(h, 28, phoff) && IsWordAt(h, 42, 32) && IsWordAt(h, 44, phnum)
  }

  lemma HeaderByBytes(h: seq<Byte>, entry: Dword, phoff: Dword, phnum: Word, size: nat)
    requires |h| == EHDR_SIZE
    ensures HoldsHeader(h, entry, phoff, phnum) ==>
              && Get32(h, 24) == entry && Get32(h, 28) == phoff && Get16(h, 44) == phnum
              && (HeaderOk(h, size) <==> 0 < phnum <= 32 && phoff + 32 * phnum <= size)
    ensures HeaderOk(h, size) ==> HoldsHeader(h, Get32(h, 24), Get32(h, 28), Get16(h, 44))
  {
    IdentByBytes(h);
    hide IdentOk, Get16, Get32, IsWordAt, IsDwordAt;
    Get16Is(h, 16, 2);
    Get16Is(h, 18, 3);
    Get32Is(h, 24, entry);
    Get32Is(h, 24, Get32(h, 24));
    Get32Is(h, 28, phoff);
    Get32Is(h, 28, Get32(h, 28));
    Get16Is(h, 42, 32);
    Get16Is(h, 44, phnum);
    Get16Is(h, 44, Get16(h, 44));
  }

  lemma IdentByBytes(h: seq<Byte>)
    requires |h| == EHDR_SIZE
    ensures IdentOk(h) <==> h[..7] == [0x7F, 0x45, 0x4C, 0x46, 1, 1, 1]
  {
    var ident: seq<Byte> := [0x7F, 0x45, 0x4C, 0x46, 1, 1, 1];
    if h[..7] == ident {
      assert forall i :: 0 <= i < 7 ==> h[i] == ident[i];
    }
  }

  /** The segments that a program header table has to load. */
  function Loading(all: seq<Segment>): seq<Segment> {
    if all == [] then [] else Loading(Front(all)) + if Last(all).Loads() then [Last(all)] else []
  }

  lemma {:induction false} SegmentsByBytes(table: seq<Byte>, all: seq<Segment>)
    requires 32 * |all| <= |table| && forall i :: 0 <= i < |all| ==> HoldsSegment(table, 32 * i, all[i])
    ensures Segments(table, |all|) == Loading(all)
    decreases |all|
  {
    hide HoldsSegment, ParseSegment;
    if all != [] {
      SegmentsByBytes(table, Front(all));
      SegmentParses(table, 32 * (|all| - 1), Last(all));
    }
  }

  /** The bytes of an executable with this entry point and these program headers. */
  ghost predicate HoldsProgram(file: seq<Byte>, entry: Dword, phoff: Dword, all: seq<Segment>) {
    && |file| >= EHDR_SIZE && 0 < |all| <= 32 && phoff + 32 * |all| <= |file|
    && HoldsHeader(file[..EHDR_SIZE], entry, phoff, |all|)
    && forall i :: 0 <= i < |all| ==> HoldsSegment(file, phoff + 32 * i, all[i])
  }

  /** What the loader takes from a file, in terms of its bytes. */
  lemma ProgramByBytes(file: seq<Byte>, entry: Dword, phoff: Dword, all: seq<Segment>)
    requires HoldsProgram(file, entry, phoff, all)
    ensures HeaderOk(file[..EHDR_SIZE], |file|) && EntryPoint(file) == entry && AllSegments(file) == Loading(all)
  {
    hide IsDwordAt, Get32, Get16, HeaderOk, HoldsHeader, Loading, Segments;
    HeaderByBytes(file[..EHDR_SIZE], entry, phoff, |all|, |file|);
    var table := Table(file);
    assert table == file[phoff..phoff + |all| * 32];
    forall i: nat | i < |all| ensures HoldsSegment(table, 32 * i, all[i]) {
      SameSegment(file, phoff, table, 32 * i, all[i]);
    }
    SegmentsByBytes(table, all);
  }

  /** When the loader accepts the file, in the same terms. */
  lemma LoadableByBytes(file: seq<Byte>, entry: Dword, phoff: Dword, all: seq<Segment>)
    requires HoldsProgram(file, entry, phoff, all)
    ensures var segs := Loading(all);
            IsLoadable(file) <==>
              && segs != []
              && (forall k :: 0 <= k < |segs| ==>
                    && segs[k].offset + segs[k].filesz <= |file|
                    && 0x20_0000 <= segs[k].vaddr && segs[k].vaddr + segs[k].memsz <= 0x3F_0000)
              && (exists k :: 0 <= k < |segs| && segs[k].vaddr <= entry)
              && exists k :: 0 <= k < |segs| && entry < segs[k].vaddr + segs[k].memsz
  {
    hide HeaderOk, HoldsHeader, HoldsSegment, AllSegments, EntryPoint, Loading, Low, High;
    ProgramByBytes(file, entry, phoff, all);
    var segs := Loading(all);
    if segs != [] {
      var low, high := Low(segs), High(segs);
      assert low <= entry <==> exists k :: 0 <= k < |segs| && segs[k].vaddr <= entry;
      assert entry < high <==> exists k :: 0 <= k < |segs| && entry < segs[k].End();
    }
    assert forall k :: 0 <= k < |segs| ==> (segs[k].Fits(|file|) <==>
      segs[k].offset + segs[k].filesz <= |file| && 0x20_0000 <= segs[k].vaddr
      && segs[k].vaddr + segs[k].memsz <= 0x3F_0000);
  }

  lemma SameSegment(file: seq<Byte>, from: nat, table: seq<Byte>, at: nat, s: Segment)
    requires from + |table| <= |file| && table == file[from..from + |table|] && at + PHDR_SIZE <= |table|
    requires HoldsSegment(file, from + at, s)
    ensures HoldsSegment(table, at, s)
  {
    assert forall i: nat :: i < |table| ==> table[i] == file[from + i];
  }

  function Low(segs: seq<Segment>): (r: nat)
    requires segs != []
    ensures forall i :: 0 <= i < |segs| ==> r <= segs[i].vaddr
    ensures exists i :: 0 <= i < |segs| && r == segs[i].vaddr
  {
    if |segs| == 1 then segs[0].vaddr else
      var rest := Low(Front(segs));
      if Last(segs).vaddr < rest then Last(segs).vaddr else rest
  }

  function High(segs: seq<Segment>): (r: nat)
    requires segs != []
    ensures forall i :: 0 <= i < |segs| ==> segs[i].End() <= r
    ensures exists i :: 0 <= i < |segs| && r == segs[i].End()
  {
    if |segs| == 1 then segs[0].End() else
      var rest := High(Front(segs));
      if Last(segs).End() > rest then Last(segs).End() else rest
  }

  /** A file that the loader accepts. */
  predicate IsLoadable(file: seq<Byte>) {
    && |file| >= EHDR_SIZE && HeaderOk(file[..EHDR_SIZE], |file|)
    && var segs := AllSegments(file);
    && segs != [] && (forall i :: 0 <= i < |segs| ==> segs[i].Fits(|file|))
    && Low(segs) <= EntryPoint(file) < High(segs)
  }

  // ---------- the image ----------

  /** The memory after one segment: its file bytes, then zeros up to its memory size. */
  function Placed(ram: seq<Byte>, file: seq<Byte>, s: Segment): (r: seq<Byte>)
    requires s.Fits(|file|) && s.Reach() <= |ram|
    ensures |r| == |ram|
  {
    var filled := Splice(ram, s.vaddr, file[s.offset..s.offset + s.filesz]);
    if s.memsz > s.filesz then Splice(filled, s.vaddr + s.filesz, Zeros(s.memsz - s.filesz)) else filled
  }

  function Image(ram: seq<Byte>, file: seq<Byte>, segs: seq<Segment>): (r: seq<Byte>)
    requires forall i :: 0 <= i < |segs| ==> segs[i].Fits(|file|) && segs[i].Reach() <= |ram|
    ensures |r| == |ram|
  {
    if segs == [] then ram else Placed(Image(ram, file, Front(segs)), file, Last(segs))
  }

  /** The byte that a segment puts at address a: from the file, or zero. */
  function ByteOf(file: seq<Byte>, s: Segment, a: nat): Byte
    requires s.Fits(|file|) && s.Holds(a)
  {
    if a - s.vaddr < s.filesz then file[s.offset + (a - s.vaddr)] else 0
  }

  lemma PlacedAt(ram: seq<Byte>, file: seq<Byte>, s: Segment, a: nat)
    requires s.Fits(|file|) && s.Reach() <= |ram| && a < |ram|
    ensures Placed(ram, file, s)[a] == if s.Holds(a) then ByteOf(file, s, a) else ram[a]
  {
    var bytes := file[s.offset..s.offset + s.filesz];
    var filled := Splice(ram, s.vaddr, bytes);
    if s.vaddr <= a < s.vaddr + s.filesz {
      assert filled[a] == filled[s.vaddr..s.vaddr + |bytes|][a - s.vaddr];
    }
    if s.memsz > s.filesz {
      var zeros := Zeros(s.memsz - s.filesz);
      var at := s.vaddr + s.filesz;
      var r := Splice(filled, at, zeros);
      if at <= a < at + |zeros| {
        assert r[a] == r[at..at + |zeros|][a - at];
      }
    }
  }

  /** Every address holds the byte that the last segment covering it gives, or what it held before. */
  lemma {:induction false} ImageAt(ram: seq<Byte>, file: seq<Byte>, segs: seq<Segment>, a: nat, i: nat)
    requires forall k :: 0 <= k < |segs| ==> segs[k].Fits(|file|) && segs[k].Reach() <= |ram|
    requires a < |ram| && i <= |segs|
    requires forall k :: i <= k < |segs| ==> !segs[k].Holds(a)
    requires i > 0 ==> segs[i - 1].Holds(a)
    ensures Image(ram, file, segs)[a] == if i == 0 then ram[a] else ByteOf(file, segs[i - 1], a)
    decreases |segs|
  {
    if segs != [] {
      PlacedAt(Image(ram, file, Front(segs)), file, Last(segs), a);
      if i < |segs| {
        ImageAt(ram, file, Front(segs), a, i);
      }
    }
  }

  /** The i-th byte of a segment is the i-th of those in the file from its offset on, then zero, unless a later
      segment lies over it. */
  lemma ImageBytes(ram: seq<Byte>, file: seq<Byte>, segs: seq<Segment>, k: nat, i: nat)
    requires forall j :: 0 <= j < |segs| ==> segs[j].Fits(|file|) && segs[j].Reach() <= |ram|
    requires k < |segs| && (i < segs[k].filesz || i < segs[k].memsz)
    requires forall j :: k < j < |segs| ==> !segs[j].Holds(segs[k].vaddr + i)
    ensures segs[k].vaddr + i < |ram|
    ensures Image(ram, file, segs)[segs[k].vaddr + i] == if i < segs[k].filesz then file[segs[k].offset + i] else 0
  {
    hide Image;
    ImageAt(ram, file, segs, segs[k].vaddr + i, k + 1);
  }

  /** If no segment has more file bytes than memory, nothing outside [low, high) changes. */
  lemma OutsideUnchanged(ram: seq<Byte>, file: seq<Byte>, segs: seq<Segment>, a: nat)
    requires segs != [] && a < |ram| && !(Low(segs) <= a < High(segs))
    requires forall k :: 0 <= k < |segs| ==>
             segs[k].Fits(|file|) && segs[k].Reach() <= |ram| && segs[k].filesz <= segs[k].memsz
    ensures Image(ram, file, segs)[a] == ram[a]
  {
    ImageAt(ram, file, segs, a, 0);
  }

  /** The memory behind the image is safe, whatever it held, iff no segment's file bytes reach past `high`. */
  lemma BehindImage(file: seq<Byte>, segs: seq<Segment>, size: nat)
    requires segs != [] && forall k :: 0 <= k < |segs| ==> segs[k].Fits(|file|) && segs[k].Reach() <= size
    ensures (forall k :: 0 <= k < |segs| ==> segs[k].vaddr + segs[k].filesz <= High(segs)) <==>
            (forall ram: seq<Byte> | |ram| == size ::
               forall a: nat :: High(segs) <= a < size ==> Image(ram, file, segs)[a] == ram[a])
  {
    if forall k :: 0 <= k < |segs| ==> segs[k].vaddr + segs[k].filesz <= High(segs) {
      forall ram: seq<Byte>, a: nat | |ram| == size && High(segs) <= a < size
        ensures Image(ram, file, segs)[a] == ram[a]
      {
        ImageAt(ram, file, segs, a, 0);
      }
    } else {
      var k :| 0 <= k < |segs| && segs[k].vaddr + segs[k].filesz > High(segs);
      var ram := Changed(file, segs, size, k, High(segs));
      assert |ram| == size && Image(ram, file, segs)[High(segs)] != ram[High(segs)];
    }
  }

  /** The address belongs to the memory of some segment. */
  ghost predicate Covered(segs: seq<Segment>, a: nat) {
    exists k :: 0 <= k < |segs| && segs[k].vaddr <= a < segs[k].End()
  }

  /** The address takes a file byte that its segment has no memory for. */
  ghost predicate Overrun(segs: seq<Segment>, a: nat) {
    exists k :: 0 <= k < |segs| && segs[k].End() <= a < segs[k].vaddr + segs[k].filesz
  }

  /** No memory but the segments' own is ever changed, whatever it held, iff every overrun stays in that of another
      segment. */
  lemma OwnMemoryOnly(file: seq<Byte>, segs: seq<Segment>, size: nat)
    requires forall k :: 0 <= k < |segs| ==> segs[k].Fits(|file|) && segs[k].Reach() <= size
    ensures (forall a: nat :: Overrun(segs, a) ==> Covered(segs, a)) <==>
            (forall ram: seq<Byte> | |ram| == size ::
               forall a: nat :: a < size && !Covered(segs, a) ==> Image(ram, file, segs)[a] == ram[a])
  {
    hide Image;
    if forall a: nat :: Overrun(segs, a) ==> Covered(segs, a) {
      forall ram: seq<Byte>, a: nat | |ram| == size && a < size && !Covered(segs, a)
        ensures Image(ram, file, segs)[a] == ram[a]
      {
        assert !Overrun(segs, a);
        ImageAt(ram, file, segs, a, 0);
      }
    } else {
      var a: nat :| Overrun(segs, a) && !Covered(segs, a);
      var k :| 0 <= k < |segs| && segs[k].End() <= a < segs[k].vaddr + segs[k].filesz;
      var ram := Changed(file, segs, size, k, a);
      assert |ram| == size && Image(ram, file, segs)[a] != ram[a];
    }
  }

  /** A memory that a segment changes at an address it holds. */
  lemma Changed(file: seq<Byte>, segs: seq<Segment>, size: nat, k: nat, a: nat) returns (ram: seq<Byte>)
    requires forall i :: 0 <= i < |segs| ==> segs[i].Fits(|file|) && segs[i].Reach() <= size
    requires k < |segs| && segs[k].Holds(a)
    ensures |ram| == size && a < size && Image(ram, file, segs)[a] != ram[a]
  {
    hide Image;
    var i := LastHolding(segs, a, k);
    var other: Byte := (ByteOf(file, segs[i], a) + 1) % 0x100;
    ram := seq(size, _ => other);
    ImageAt(ram, file, segs, a, i + 1);
  }

  lemma LastHolding(segs: seq<Segment>, a: nat, k: nat) returns (i: nat)
    requires k < |segs| && segs[k].Holds(a)
    ensures i < |segs| && segs[i].Holds(a) && forall j :: i < j < |segs| ==> !segs[j].Holds(a)
  {
    i := |segs| - 1;
    while !segs[i].Holds(a)
      invariant k <= i < |segs| && forall j :: i < j < |segs| ==> !segs[j].Holds(a)
      decreases i
    {
      i := i - 1;
    }
  }

  // ---------- the loader ----------

  lemma {:induction false} SegmentsPrefix(table: seq<Byte>, m: nat, n: nat)
    requires m <= n && n * PHDR_SIZE <= |table|
    ensures Segments(table, m) <= Segments(table, n)
    decreases n
  {
    if m < n {
      SegmentsPrefix(table, m, n - 1);
    }
  }

  ghost predicate AllFit(segs: seq<Segment>, size: nat) {
    forall k :: 0 <= k < |segs| ==> segs[k].Fits(size)
  }

  /** The least start and the greatest end so far, as the loader keeps them. */
  ghost predicate IsSpan(segs: seq<Segment>, low: Dword, high: Dword) {
    if segs == [] then low == 0xFFFF_FFFF && high == 0 else low == Low(segs) && high == High(segs)
  }

  /** The memory so far. */
  ghost predicate IsImage(ram0: seq<Byte>, ram: seq<Byte>, file: seq<Byte>, segs: seq<Segment>) {
    && |file| + USER_MAX <= |ram0| && AllFit(segs, |file|)
    && ram == Image(ram0, file, segs)
  }

  ghost predicate SameBelow(ram: seq<Byte>, ram': seq<Byte>) {
    |ram'| == |ram| && USER_MIN <= |ram| && forall a :: 0 <= a < USER_MIN ==> ram'[a] == ram[a]
  }

  lemma SplicedAbove(ram0: seq<Byte>, ram: seq<Byte>, at: nat, bytes: seq<Byte>)
    requires SameBelow(ram0, ram) && USER_MIN <= at && at + |bytes| <= |ram|
    ensures SameBelow(ram0, Splice(ram, at, bytes))
  {
  }

  lemma MoreImage(ram0: seq<Byte>, ram: seq<Byte>, file: seq<Byte>, segs: seq<Segment>, s: Segment)
    requires IsImage(ram0, ram, file, segs) && s.Fits(|file|) && s.Reach() <= |ram|
    ensures IsImage(ram0, Placed(ram, file, s), file, segs + [s])
  {
    assert Front(segs + [s]) == segs && Last(segs + [s]) == s;
  }

  lemma MoreSpan(segs: seq<Segment>, s: Segment, low: Dword, high: Dword)
    requires IsSpan(segs, low, high) && s.memsz > 0 && s.End() <= USER_MAX
    ensures s.End() < 0x1_0000_0000
    ensures IsSpan(segs + [s], if s.vaddr < low then s.vaddr else low, if s.End() > high then s.End() else high)
  {
    assert Front(segs + [s]) == segs && Last(segs + [s]) == s;
  }

  lemma NothingPlaced(ram: seq<Byte>, file: seq<Byte>)
    requires |file| + USER_MAX <= |ram|
    ensures IsImage(ram, ram, file, []) && IsSpan([], 0xFFFF_FFFF, 0) && SameBelow(ram, ram)
  {
  }

  /** The file that `path` names. */
  ghost function FileOf(v: Volume, path: Str): seq<Byte>
    reads v
  {
    var e := Stat(v.tree, KeyOf(v.currentPath, path));
    if e.IsFile? then e.bytes else []
  }

  /** The loader's range checks, in 32-bit arithmetic. */
  method CheckSegment(s: Segment, size: Dword) returns (ok: bool)
    requires s.Loads()
    ensures ok <==> PassesCheck(s, size)
  {
    if (s.offset as nat + s.filesz) % 0x1_0000_0000 > size {
      return false;
    }
    var segEnd := (s.vaddr as nat + s.memsz) % 0x1_0000_0000;
    ok := !(s.vaddr < USER_MIN || segEnd > USER_MAX || segEnd <= s.vaddr);
  }

  /** An end of file that wraps around passes; an end of memory that does cannot. */
  predicate PassesCheck(s: Segment, size: nat) {
    (s.offset as nat + s.filesz) % 0x1_0000_0000 <= size && USER_MIN <= s.vaddr && s.End() <= USER_MAX
  }

  /** What passes fits, if the file bytes can be read in full. */
  lemma PassesAndReads(s: Segment, file: seq<Byte>)
    requires |file| < 0x1_0000_0000
    ensures s.Fits(|file|) ==>
             PassesCheck(s, |file|) && Slice(file, s.offset, s.filesz) == file[s.offset..s.offset + s.filesz]
    ensures PassesCheck(s, |file|) && |Slice(file, s.offset, s.filesz)| == s.filesz ==> s.Fits(|file|)
  {
    hide Slice;
    Wraps(s.offset as nat + s.filesz);
    SliceFull(file, s.offset, s.filesz);
  }

  lemma Wraps(x: nat)
    requires x < 0x2_0000_0000
    ensures x % 0x1_0000_0000 == if x < 0x1_0000_0000 then x else x - 0x1_0000_0000
  {
  }

  lemma SliceFull(file: seq<Byte>, offset: nat, n: nat)
    ensures |Slice(file, offset, n)| == n ==> n == 0 || offset + n <= |file|
    ensures offset + n <= |file| ==> Slice(file, offset, n) == file[offset..offset + n]
  {
  }

  /** Checks one segment and puts it into memory. */
  method LoadSegment(v: Volume, ram: Ram, path: Str, s: Segment, size: Dword) returns (ok: bool)
    requires Holding(v) && FitsBuffers(v.currentPath, path) && path != []
    requires Stat(v.tree, KeyOf(v.currentPath, path)).IsFile? && size == |FileOf(v, path)| && s.Loads()
    requires size + USER_MAX <= |ram.bytes|
    modifies ram
    ensures ok <==> s.Fits(size)
    ensures ok ==> s.Reach() <= |ram.bytes| && ram.bytes == Placed(old(ram.bytes), FileOf(v, path), s)
    ensures SameBelow(old(ram.bytes), ram.bytes)
  {
    hide View, Represents, KeyOf, FitsBuffers, Stat, SameBelow, Placed, PassesCheck, Segment.Fits, Segment.Reach,
      Segment.Loads;
    SameBelowSelf(ram.bytes);
    ghost var file := FileOf(v, path);
    PassesAndReads(s, file);
    var passes := CheckSegment(s, size);
    if !passes {
      return false;
    }
    var got: seq<Byte> := [];
    if s.filesz > 0 {
      var there;
      there, got := ReadAt(v, path, s.offset, s.filesz);
    } else {
      NothingToRead(s, file);
    }
    ok := PlaceSegment(ram, s, got, file);
  }

  lemma NothingToRead(s: Segment, file: seq<Byte>)
    requires s.filesz == 0
    ensures Slice(file, s.offset, s.filesz) == []
  {
  }

  /** What was read goes into memory, and zeros behind it; gives up if it is not all. */
  method PlaceSegment(ram: Ram, s: Segment, got: seq<Byte>, ghost file: seq<Byte>) returns (ok: bool)
    requires got == Slice(file, s.offset, s.filesz) && |file| + USER_MAX <= |ram.bytes| && |file| < 0x1_0000_0000
    requires PassesCheck(s, |file|)
    modifies ram
    ensures ok <==> s.Fits(|file|)
    ensures ok ==> s.Reach() <= |ram.bytes| && ram.bytes == Placed(old(ram.bytes), file, s)
    ensures SameBelow(old(ram.bytes), ram.bytes)
  {
    hide Slice, Splice, SameBelow;
    ghost var ram0 := ram.bytes;
    SameBelowSelf(ram0);
    PassesAndReads(s, file);
    SliceInFile(file, s.offset, s.filesz);
    SplicedAbove(ram0, ram0, s.vaddr, got);
    ram.bytes := Splice(ram.bytes, s.vaddr, got);
    if |got| != s.filesz {
      return false;
    }
    if s.memsz > s.filesz {
      SplicedAbove(ram0, ram.bytes, s.vaddr + s.filesz, Zeros(s.memsz - s.filesz));
      ram.bytes := Splice(ram.bytes, s.vaddr + s.filesz, Zeros(s.memsz - s.filesz));
    }
    ok := true;
  }

  lemma SliceInFile(file: seq<Byte>, offset: nat, n: nat)
    ensures |Slice(file, offset, n)| <= |file| && |Slice(file, offset, n)| <= n
  {
  }

  lemma SameBelowSelf(ram: seq<Byte>)
    requires USER_MIN <= |ram|
    ensures SameBelow(ram, ram)
  {
  }

  /** The loop over the program headers. */
  method LoadSegments(v: Volume, ram: Ram, path: Str, table: seq<Byte>, n: nat, size: Dword)
    returns (ok: bool, low: Dword, high: Dword)
    requires Holding(v) && FitsBuffers(v.currentPath, path) && path != []
    requires Stat(v.tree, KeyOf(v.currentPath, path)).IsFile? && size == |FileOf(v, path)|
    requires n * PHDR_SIZE == |table| && size + USER_MAX <= |ram.bytes|
    modifies ram
    ensures SameBelow(old(ram.bytes), ram.bytes)
    ensures ok <==> AllFit(Segments(table, n), size)
    ensures ok ==> IsSpan(Segments(table, n), low, high)
                   && IsImage(old(ram.bytes), ram.bytes, FileOf(v, path), Segments(table, n))
  {
    hide View, Represents, KeyOf, FitsBuffers, Stat, IsImage, IsSpan, SameBelow, AllFit, Segments, Holding;
    ghost var ram0, file := ram.bytes, FileOf(v, path);
    low, high := 0xFFFF_FFFF, 0;
    NothingPlaced(ram0, file);
    NoSegments(table);
    var i := 0;
    while i < n
      invariant i <= n && SameBelow(ram0, ram.bytes) && |ram.bytes| == |ram0| && FileOf(v, path) == file
      invariant IsSpan(Segments(table, i), low, high) && IsImage(ram0, ram.bytes, file, Segments(table, i))
    {
      NextSegment(table, i, n);
      var s := ParseSegment(table, i * PHDR_SIZE);
      ghost var segs, ram1 := Segments(table, i), ram.bytes;
      if s.Loads() {
        var placed := LoadSegment(v, ram, path, s, size);
        BelowTwice(ram0, ram1, ram.bytes);
        if !placed {
          Misfit(table, i, n, s, size);
          return false, low, high;
        }
        MoreImage(ram0, ram1, file, segs, s);
        MoreSpan(segs, s, low, high);
        if s.vaddr < low {
          low := s.vaddr;
        }
        if s.End() > high {
          high := s.End();
        }
      }
      i := i + 1;
    }
    FitSoFar(ram0, ram.bytes, file, Segments(table, n));
    ok := true;
  }

  lemma NoSegments(table: seq<Byte>)
    ensures Segments(table, 0) == []
  {
  }

  lemma NextSegment(table: seq<Byte>, i: nat, n: nat)
    requires i < n && n * PHDR_SIZE <= |table|
    ensures i * PHDR_SIZE + PHDR_SIZE <= |table|
    ensures var s := ParseSegment(table, i * PHDR_SIZE);
            Segments(table, i + 1) == Segments(table, i) + if s.Loads() then [s] else []
    ensures Segments(table, i) + [] == Segments(table, i)
  {
  }

  lemma BelowTwice(ram0: seq<Byte>, ram1: seq<Byte>, ram2: seq<Byte>)
    requires SameBelow(ram0, ram1) && SameBelow(ram1, ram2)
    ensures SameBelow(ram0, ram2) && |ram2| == |ram0|
  {
  }

  lemma Misfit(table: seq<Byte>, i: nat, n: nat, s: Segment, size: nat)
    requires i < n && n * PHDR_SIZE <= |table| && s == ParseSegment(table, i * PHDR_SIZE) && s.Loads() && !s.Fits(size)
    ensures !AllFit(Segments(table, n), size)
  {
    SegmentsPrefix(table, i + 1, n);
    assert Last(Segments(table, i + 1)) == s;
    assert Segments(table, n)[|Segments(table, i + 1)| - 1] == s;
  }

  lemma FitSoFar(ram0: seq<Byte>, ram: seq<Byte>, file: seq<Byte>, segs: seq<Segment>)
    requires IsImage(ram0, ram, file, segs)
    ensures AllFit(segs, |file|)
  {
  }

  /** The checks of the header, in 32-bit arithmetic. */
  method CheckHeader(h: seq<Byte>, size: Dword) returns (ok: bool)
    requires |h| == EHDR_SIZE
    ensures ok <==> HeaderPasses(h, size)
  {
    if h[0] != 0x7F || h[1] != 0x45 || h[2] != 0x4C || h[3] != 0x46 {
      return false;
    }
    if h[4] != 1 || h[5] != 1 || h[6] != 1 {
      return false;
    }
    if Get16(h, 16) != 2 || Get16(h, 18) != 3 {
      return false;
    }
    if Get16(h, 42) != PHDR_SIZE || Get16(h, 44) == 0 {
      return false;
    }
    var tableBytes := Get16(h, 44) * Get16(h, 42);
    if (Get32(h, 28) as nat + tableBytes) % 0x1_0000_0000 > size {
      return false;
    }
    ok := Get16(h, 44) <= PHDRS_MAX;
  }

  predicate HeaderPasses(h: seq<Byte>, size: nat)
    requires |h| == EHDR_SIZE
  {
    && IdentOk(h) && Get16(h, 16) == 2 && Get16(h, 18) == 3
    && Get16(h, 42) == PHDR_SIZE && 0 < Get16(h, 44) <= PHDRS_MAX
    && (Get32(h, 28) as nat + Get16(h, 44) * PHDR_SIZE) % 0x1_0000_0000 <= size
  }

  /** A header is good iff it passes the 32-bit checks and the table that it names can be read in full. */
  lemma HeaderReads(file: seq<Byte>)
    requires EHDR_SIZE <= |file| < 0x1_0000_0000
    ensures var h := file[..EHDR_SIZE];
            && Slice(file, 0, EHDR_SIZE) == h
            && var n := Get16(h, 44) * PHDR_SIZE;
            && (HeaderOk(h, |file|) <==> HeaderPasses(h, |file|) && |Slice(file, Get32(h, 28), n)| == n)
            && (HeaderOk(h, |file|) ==> Slice(file, Get32(h, 28), n) == Table(file))
            && (HeaderPasses(h, |file|) ==> 0 < n < 0x1_0000_0000)
  {
    hide IdentOk, Get16, Get32;
  }

  /** The end of the load: there is something in the window, and the entry is in it. */
  lemma SpanEnds(file: seq<Byte>, low: Dword, high: Dword)
    requires |file| >= EHDR_SIZE && HeaderOk(file[..EHDR_SIZE], |file|)
    requires AllFit(AllSegments(file), |file|) && IsSpan(AllSegments(file), low, high)
    ensures low == 0xFFFF_FFFF || high == 0 <==> AllSegments(file) == []
    ensures AllSegments(file) != [] ==>
              && low == Low(AllSegments(file)) && high == High(AllSegments(file))
              && USER_MIN <= low < high <= USER_MAX
              && (IsLoadable(file) <==> low <= EntryPoint(file) < high)
    ensures AllSegments(file) == [] ==> !IsLoadable(file)
  {
    var segs := AllSegments(file);
    if segs != [] {
      var i :| 0 <= i < |segs| && Low(segs) == segs[i].vaddr;
      var j :| 0 <= j < |segs| && High(segs) == segs[j].End();
      assert segs[i].Fits(|file|) && segs[j].Fits(|file|) && segs[i].Loads();
    }
  }

  /** Loads an executable: succeeds iff the file is one, and then the memory is its image, its bounds are those of
      its segments, and the entry lies in them. Memory below the user window is never touched. */
  method Load(v: Volume, ram: Ram, path: Str) returns (ok: bool, entry: Dword, low: Dword, high: Dword)
    requires Holding(v) && FitsBuffers(v.currentPath, path) && |FileOf(v, path)| + USER_MAX <= |ram.bytes|
    modifies v`bpb, ram
    ensures Holding(v) && v.Vol() == old(v.Vol())
    ensures SameBelow(old(ram.bytes), ram.bytes)
    ensures var file := FileOf(v, path);
            && (ok <==> path != [] && IsLoadable(file))
            && (ok ==>
                  && entry == EntryPoint(file) && low == Low(AllSegments(file)) && high == High(AllSegments(file))
                  && USER_MIN <= low <= entry < high <= USER_MAX
                  && IsImage(old(ram.bytes), ram.bytes, file, AllSegments(file)))
            && (!ok ==> entry == 0 && low == 0 && high == 0)
  {
    hide View, Represents, KeyOf, FitsBuffers, Stat, IsImage, IsSpan, SameBelow, AllFit, HeaderPasses, HeaderOk,
      IsLoadable, AllSegments, Table, EntryPoint, Slice;
    entry, low, high := 0, 0, 0;
    BelowStart(ram.bytes);
    ghost var file := FileOf(v, path);
    NotLoadable(file);
    ok := Remount(v);
    var size, h, table;
    ok, size := FileSize(v, path);
    if !ok || size < EHDR_SIZE {
      return false, 0, 0, 0;
    }
    HeaderReads(file);
    ok, h := ReadAt(v, path, 0, EHDR_SIZE);
    var passes := CheckHeader(h, size);
    if !passes {
      return false, 0, 0, 0;
    }
    var tableBytes := Get16(h, 44) * PHDR_SIZE;
    ok, table := ReadAt(v, path, Get32(h, 28), tableBytes);
    if |table| != tableBytes {
      return false, 0, 0, 0;
    }
    var l, t;
    ok, l, t := LoadSegments(v, ram, path, table, Get16(h, 44), size);
    TableSegments(file, table, h);
    if !ok {
      return false, 0, 0, 0;
    }
    SpanEnds(file, l, t);
    if l == 0xFFFF_FFFF || t == 0 {
      return false, 0, 0, 0;
    }
    var e := Get32(h, 24);
    EntryIs24(file, h);
    if e < l || e >= t {
      return false, 0, 0, 0;
    }
    return true, e, l, t;
  }

  lemma BelowStart(ram: seq<Byte>)
    ensures USER_MAX <= |ram| ==> SameBelow(ram, ram)
  {
  }

  lemma NotLoadable(file: seq<Byte>)
    ensures |file| < EHDR_SIZE ==> !IsLoadable(file)
    ensures |file| >= EHDR_SIZE && !HeaderOk(file[..EHDR_SIZE], |file|) ==> !IsLoadable(file)
  {
  }

  lemma EntryIs24(file: seq<Byte>, h: seq<Byte>)
    requires |file| >= EHDR_SIZE && h == file[..EHDR_SIZE]
    ensures EntryPoint(file) == Get32(h, 24)
  {
  }

  lemma TableSegments(file: seq<Byte>, table: seq<Byte>, h: seq<Byte>)
    requires |file| >= EHDR_SIZE && h == file[..EHDR_SIZE] && HeaderOk(h, |file|) && table == Table(file)
    ensures |table| == Get16(h, 44) * PHDR_SIZE && AllSegments(file) == Segments(table, Get16(h, 44))
    ensures !AllFit(AllSegments(file), |file|) ==> !IsLoadable(file)
  {
  }
}
