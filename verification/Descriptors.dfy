/** The file descriptor system calls: open, read, write and close over a table of 16 entries. */
module Descriptors {
  import opened Bytes
  import opened Layout
  import opened Content
  import opened Slots
  import opened Names
  import opened Paths
  import opened VolumeState
  import opened FileData
  import opened Nodes
  import opened Tree
  import opened Directory
  import opened TreePaths
  import opened TreeOps
  import opened Resolve
  import opened Accounting
  import opened Entries
  import opened FileWrite
  import opened FileAppend
  import opened FileRead
  import opened WorkingDir

  const MAX_FDS := 16
  const ERROR: Dword := 0xFFFF_FFFF

  // open() flags
  const O_WRONLY := 1
  const O_APPEND := 2
  const O_CREAT := 4
  const O_TRUNC := 8

  /** The test `flags & bit` for a power of two. */
  predicate Has(flags: Dword, bit: nat)
    requires bit > 0
  {
    flags / bit % 2 == 1
  }

  /** flags & ~bit */
  function Without(flags: Dword, bit: nat): (r: Dword)
    requires bit > 0
  {
    if Has(flags, bit) && bit <= flags then flags - bit else flags
  }

  datatype FdEntry = FdEntry(used: bool, flags: Dword, offset: Dword, size: Dword, path: Str)

  const FREE_ENTRY := FdEntry(false, 0, 0, 0, [])

  predicate IsOpen(entries: seq<FdEntry>, fd: int) {
    0 <= fd < |entries| && entries[fd].used
  }

  /** The entry that fd_alloc takes, or the number of entries. */
  function LowestUnused(entries: seq<FdEntry>): (k: nat)
    ensures k <= |entries| && (k < |entries| ==> !entries[k].used)
    ensures forall i :: 0 <= i < k ==> entries[i].used
  {
    UnusedFrom(entries, 0)
  }

  function UnusedFrom(entries: seq<FdEntry>, i: nat): (k: nat)
    requires i <= |entries|
    ensures i <= k <= |entries| && (k < |entries| ==> !entries[k].used)
    ensures forall j :: i <= j < k ==> entries[j].used
    decreases |entries| - i
  {
    if i < |entries| && entries[i].used then UnusedFrom(entries, i + 1) else i
  }

  /** The entry that open fills in. */
  function NewEntry(path: Str, flags: Dword, size: Dword): FdEntry {
    FdEntry(true, flags, if Has(flags, O_APPEND) then size else 0, size, path)
  }

  /** An open entry has a path, and has been written to only if it no longer truncates. */
  predicate IsProper(en: FdEntry) {
    en.path != [] && (Has(en.flags, O_WRONLY) && Has(en.flags, O_TRUNC) && !Has(en.flags, O_APPEND) ==> en.offset == 0)
  }

  predicate AreProper(entries: seq<FdEntry>) {
    forall i :: 0 <= i < |entries| && entries[i].used ==> IsProper(entries[i])
  }

  class FdTable {
    const v: Volume
    const entries: array<FdEntry>

    ghost predicate Ready()
      reads this, v, entries
    {
      entries.Length == MAX_FDS && AreProper(entries[..]) && Valid(v)
    }

    constructor (v: Volume)
      requires Valid(v)
      ensures this.v == v && fresh(entries) && Ready() && forall i :: 0 <= i < MAX_FDS ==> !entries[i].used
    {
      this.v := v;
      entries := new FdEntry[MAX_FDS](_ => FREE_ENTRY);
    }

    method FdAlloc() returns (fd: int)
      requires entries.Length == MAX_FDS
      modifies entries
      ensures var k := LowestUnused(old(entries[..]));
              if k < MAX_FDS then fd == k && entries[..] == old(entries[..])[k := FREE_ENTRY.(used := true)]
              else fd == -1 && entries[..] == old(entries[..])
    {
      for i := 0 to MAX_FDS
        invariant entries[..] == old(entries[..])
        invariant forall j :: 0 <= j < i ==> entries[j].used
      {
        if !entries[i].used {
          entries[i] := FREE_ENTRY.(used := true);
          return i;
        }
      }
      return -1;
    }

    method FdFree(fd: int)
      requires entries.Length == MAX_FDS
      modifies entries
      ensures entries[..] == if 0 <= fd < MAX_FDS then old(entries[..])[fd := FREE_ENTRY] else old(entries[..])
    {
      if fd < 0 || fd >= MAX_FDS {
        return;
      }
      entries[fd] := FREE_ENTRY;
    }

    /** The end of open: an entry is taken and filled in. */
    method Install(path: Str, flags: Dword, size: Dword) returns (eax: Dword)
      requires entries.Length == MAX_FDS
      modifies entries
      ensures var k := LowestUnused(old(entries[..]));
              if k < MAX_FDS then eax == k && entries[..] == old(entries[..])[k := NewEntry(path, flags, size)]
              else eax == ERROR && entries[..] == old(entries[..])
    {
      var fd := FdAlloc();
      if fd < 0 {
        return ERROR;
      }
      entries[fd] := entries[fd].(path := path);
      entries[fd] := entries[fd].(flags := flags);
      entries[fd] := entries[fd].(size := size);
      if Has(flags, O_APPEND) {
        entries[fd] := entries[fd].(offset := size);
      } else {
        entries[fd] := entries[fd].(offset := 0);
      }
      return fd;
    }

    /** Opens a file that is there, or creates it; the lowest unused descriptor is taken. */
    method Open(path: Str, flags: Dword) returns (eax: Dword)
      requires Ready() && FitsBuffers(v.currentPath, path)
      modifies v`bpb, v`disk, v`tree, entries
      ensures v.Mounted() && v.bpb == old(v.bpb)
      ensures var key := KeyOf(v.currentPath, path);
              var e := Stat(old(v.tree), key);
              var k := LowestUnused(old(entries[..]));
              var created := path != [] && !e.IsFile? && Has(flags, O_CREAT) && key != []
                             && CanInsert(old(v.Vol()), old(v.tree), Front(key), Last(key));
              && (if created then WriteOutcome(old(v.Vol()), v.Vol(), old(v.tree), v.tree, key, [], true)
                  else v.Vol() == old(v.Vol()) && v.tree == old(v.tree))
              && (created || (path != [] && e.IsFile?) ==>
                    var size := if e.IsFile? then |e.bytes| else 0;
                    if k < MAX_FDS then eax == k && size < 0x1_0000_0000
                                        && entries[..] == old(entries[..])[k := entries[k]]
                                        && entries[k] == FdEntry(true, flags, entries[k].offset, size, path)
                                        && (!Has(flags, O_APPEND) ==> entries[k].offset == 0)
                                        && (Has(flags, O_APPEND) ==> entries[k].offset == size)
                    else eax == ERROR && entries[..] == old(entries[..]))
              && (!created && (path == [] || !e.IsFile?) ==> eax == ERROR && entries[..] == old(entries[..]))
              && (!created || IsStorable(Last(key)) ==> Ready())
    {
      hide View, Represents, Balanced, Bpb.Good, Mirrored, Stat, WriteOutcome, KeyOf, FitsBuffers, CanInsert, NewEntry,
        LowestUnused, Has, AreProper;
      ghost var vol, t := v.Vol(), v.tree;
      ghost var key := KeyOf(v.currentPath, path);
      var ok := Remount(v);
      var exists_, fsize := FileSize(v, path);
      if !exists_ {
        if Has(flags, O_CREAT) {
          ok := WriteFile(v, path, []);
          Created(vol, v.Vol(), t, v.tree, path, key, ok);
          if !ok {
            return ERROR;
          }
          fsize := 0;
        } else {
          return ERROR;
        }
      }
      eax := Install(path, flags, fsize);
      PathsKept(old(entries[..]), path, flags, fsize);
      EntryOpened(path, flags, fsize);
    }

    /** Reads from the descriptor's offset on, and moves it past what was read. */
    method Read(fd: int, count: Dword) returns (eax: Dword, buf: seq<Byte>)
      requires Ready()
      requires IsOpen(entries[..], fd) ==> FitsBuffers(v.currentPath, entries[fd].path)
      modifies v`bpb, entries
      ensures Ready() && v.Vol() == old(v.Vol())
      ensures if IsOpen(old(entries[..]), fd) && IsReadable(old(entries[fd]), v.tree, v.currentPath) then
                var en := old(entries[fd]);
                && buf == Slice(Stat(v.tree, KeyOf(v.currentPath, en.path)).bytes, en.offset, count) && eax == |buf|
                && en.offset + |buf| < 0x1_0000_0000
                && entries[..] == old(entries[..])[fd := en.(offset := en.offset + |buf|)]
              else eax == ERROR && buf == [] && entries[..] == old(entries[..])
    {
      hide View, Represents, Balanced, Bpb.Good, Mirrored, Stat, KeyOf, FitsBuffers, Has, Slice;
      buf := [];
      if fd < 0 || fd >= MAX_FDS || !entries[fd].used {
        return ERROR, buf;
      }
      if Has(entries[fd].flags, O_WRONLY) {
        return ERROR, buf;
      }
      var ok := Remount(v);
      ok, buf := ReadAt(v, entries[fd].path, entries[fd].offset, count);
      if !ok {
        return ERROR, buf;
      }
      SizeIsDword(v, KeyOf(v.currentPath, entries[fd].path), entries[fd].offset, count);
      entries[fd] := entries[fd].(offset := entries[fd].offset + |buf|);
      return |buf|, buf;
    }

    /** Writes through the descriptor: the first write after open with TRUNC replaces the file, all others append. */
    method Write(fd: int, buf: seq<Byte>) returns (eax: Dword, ghost ok: bool)
      requires Ready() && |buf| < 0x1_0000_0000
      requires IsOpen(entries[..], fd) ==>
                 var en := entries[fd];
                 && FitsBuffers(v.currentPath, en.path)
                 && |OldBytes(Stat(v.tree, KeyOf(v.currentPath, en.path)))| + |buf| < 0x1_0000_0000
      modifies v`bpb, v`disk, v`tree, entries
      ensures v.Mounted() && v.bpb == old(v.bpb)
      ensures if IsOpen(old(entries[..]), fd) && Has(old(entries[fd]).flags, O_WRONLY) then
                var en := old(entries[fd]);
                && FdWritten(old(v.Vol()), v.Vol(), old(v.tree), v.tree, KeyOf(v.currentPath, en.path),
                             Truncates(en), buf, ok)
                && eax == (if ok then |buf| else ERROR)
                && entries[..] == old(entries[..])[fd := AfterWrite(en, |buf|, ok)]
                && entries[fd].used && entries[fd].path == en.path
                && (ok ==> entries[fd].offset == (en.offset as nat + |buf|) % 0x1_0000_0000
                           && entries[fd].size == (en.size as nat + |buf|) % 0x1_0000_0000)
                && (!ok ==> entries[fd].offset == en.offset && entries[fd].size == en.size)
                && (Truncates(en) ==> !Has(entries[fd].flags, O_TRUNC) && entries[fd].flags + O_TRUNC == en.flags)
                && (!Truncates(en) ==> entries[fd].flags == en.flags)
              else !ok && eax == ERROR && v.Vol() == old(v.Vol()) && v.tree == old(v.tree)
                   && entries[..] == old(entries[..])
    {
      hide View, Represents, Balanced, Bpb.Good, Mirrored, Stat, WriteOutcome, Appended, KeyOf, FitsBuffers, Has,
        Without, AreProper;
      if fd < 0 || fd >= MAX_FDS || !entries[fd].used {
        return ERROR, false;
      }
      if !Has(entries[fd].flags, O_WRONLY) {
        return ERROR, false;
      }
      HasPath(entries[..], fd);
      ClearTrunc(entries[fd].flags);
      var remounted := Remount(v);
      ghost var en := entries[fd];
      var written := false;
      if Has(entries[fd].flags, O_APPEND) {
        written := AppendFile(v, entries[fd].path, buf);
      } else if Has(entries[fd].flags, O_TRUNC) && entries[fd].offset == 0 {
        written := WriteFile(v, entries[fd].path, buf);
        entries[fd] := entries[fd].(flags := Without(entries[fd].flags, O_TRUNC));
      } else {
        written := AppendFile(v, entries[fd].path, buf);
      }
      ok := written;
      if !written {
        return ERROR, ok;
      }
      entries[fd] := entries[fd].(offset := (entries[fd].offset as nat + |buf|) % 0x1_0000_0000);
      entries[fd] := entries[fd].(size := (entries[fd].size as nat + |buf|) % 0x1_0000_0000);
      return |buf|, ok;
    }

    method Close(fd: int) returns (eax: Dword)
      requires Ready()
      modifies entries
      ensures Ready()
      ensures if IsOpen(old(entries[..]), fd) then eax == 0 && entries[..] == old(entries[..])[fd := FREE_ENTRY]
              else eax == ERROR && entries[..] == old(entries[..])
    {
      if fd < 0 || fd >= MAX_FDS || !entries[fd].used {
        return ERROR;
      }
      FdFree(fd);
      return 0;
    }

    // ---------- streams: what a program sees over many calls ----------

    /** open for reading, then one read after the other: the pieces, laid end to end, are the file from its first
        byte on; from its end on, if it was opened to append. */
    method OpenThenRead(path: Str, flags: Dword, counts: seq<Dword>) returns (eax: Dword, pieces: seq<seq<Byte>>)
      requires Ready() && FitsBuffers(v.currentPath, path) && path != []
      requires Stat(v.tree, KeyOf(v.currentPath, path)).IsFile? && !Has(flags, O_WRONLY)
      modifies v`bpb, v`disk, v`tree, entries
      ensures Ready() && v.Vol() == old(v.Vol()) && v.tree == old(v.tree)
      ensures eax == ERROR <==> forall i :: 0 <= i < MAX_FDS ==> old(entries[..])[i].used
      ensures var bytes := Stat(v.tree, KeyOf(v.currentPath, path)).bytes;
              eax != ERROR ==>
                Concat(pieces) == Slice(bytes, if Has(flags, O_APPEND) then |bytes| else 0, Sum(counts))
    {
      hide View, Represents, Balanced, Bpb.Good, Mirrored, Stat, WriteOutcome, KeyOf, FitsBuffers, CanInsert, Has,
        Slice, Concat, Sum, AreProper, Volume.Mounted;
      eax := Open(path, flags);
      if eax == ERROR {
        return eax, [];
      }
      pieces := ReadStream(eax, counts);
    }

    /** open for writing, then one write after the other. The flags alone decide what becomes of the old contents:
        they go with O_TRUNC and without O_APPEND, and stay in front of what is written otherwise. */
    method OpenThenWrite(path: Str, flags: Dword, chunks: seq<seq<Byte>>) returns (eax: Dword, n: nat)
      requires Ready() && FitsBuffers(v.currentPath, path) && path != [] && Has(flags, O_WRONLY)
      requires var key := KeyOf(v.currentPath, path);
               && (Stat(v.tree, key).IsFile? || (Has(flags, O_CREAT) && key != [] && IsStorable(Last(key))
                                                 && CanInsert(v.Vol(), v.tree, Front(key), Last(key))))
               && |OldBytes(Stat(v.tree, key))| + |Concat(chunks)| < 0x1_0000_0000
      modifies v`bpb, v`disk, v`tree, v`currentPath, v`currentDirCluster, entries
      ensures v.Mounted() && n <= |chunks| && v.currentPath == old(v.currentPath)
      ensures eax == ERROR <==> forall i :: 0 <= i < MAX_FDS ==> old(entries[..])[i].used
      ensures var key := KeyOf(v.currentPath, path);
              var e := Stat(old(v.tree), key);
              var anew := Has(flags, O_TRUNC) && !Has(flags, O_APPEND) && chunks != [];
              var contents := (if anew then [] else OldBytes(e)) + Concat(chunks);
              eax != ERROR ==>
                && (n == |chunks| <==>
                      && Need(old(v.Vol()).spc, |contents|) <= |FreeClusters(old(v.Vol()))| + |OldChain(e)|
                      && forall i :: 0 <= i < |chunks| ==> |chunks[i]| != ERROR)
                && (n == |chunks| ==>
                      && Ready() && Stat(v.tree, key).IsFile? && Stat(v.tree, key).bytes == contents
                      && forall q :: q != key ==> Stat(v.tree, q) == Stat(old(v.tree), q))
    {
      hide View, Represents, Balanced, Bpb.Good, Mirrored, Stat, WriteOutcome, KeyOf, FitsBuffers, CanInsert, Has,
        Concat, AreProper, OldBytes, OldChain, Need, FreeClusters, IsStorable, Streamed, StreamContent;
      ghost var vol, t, key := v.Vol(), v.tree, KeyOf(v.currentPath, path);
      ghost var disk := v.disk;
      eax := Open(path, flags);
      if eax == ERROR {
        return eax, 0;
      }
      SameShape(v.bpb, disk, v.disk);
      ghost var vol1, t1 := v.Vol(), v.tree;
      OpenedToWrite(vol, vol1, t, t1, key);
      ghost var en := entries[eax];
      n := WriteStream(eax, chunks, seq(|chunks|, _ => []));
      WrittenAnew(t, t1, v.tree, key, en, chunks, n == |chunks|);
    }

    /** One read after the other: the pieces, laid end to end, are the file from the descriptor's offset on, and
        a read of a non-zero count gives nothing exactly at the end. */
    method ReadStream(fd: int, counts: seq<Dword>) returns (pieces: seq<seq<Byte>>)
      requires Ready() && IsOpen(entries[..], fd) && FitsBuffers(v.currentPath, entries[fd].path)
      requires IsReadable(entries[fd], v.tree, v.currentPath)
      modifies v`bpb, entries
      ensures Ready() && |pieces| == |counts| && v.Vol() == old(v.Vol())
      ensures var bytes := Stat(v.tree, KeyOf(v.currentPath, old(entries[fd]).path)).bytes;
              var from := old(entries[fd]).offset;
              && Concat(pieces) == Slice(bytes, from, Sum(counts))
              && forall i :: 0 <= i < |pieces| && counts[i] > 0 ==>
                               (pieces[i] == [] <==> from + |Concat(pieces[..i])| >= |bytes|)
    {
      hide View, Represents, Balanced, Bpb.Good, Mirrored, Stat, KeyOf, FitsBuffers, Has, Slice, Concat, Sum;
      pieces := [];
      ghost var en := entries[fd];
      ghost var bytes, from := Stat(v.tree, KeyOf(v.currentPath, en.path)).bytes, en.offset;
      NothingRead(bytes, from, counts);
      for i := 0 to |counts|
        invariant v.Mounted() && v.Vol() == old(v.Vol())
        invariant Ready() && |pieces| == i && entries[fd] == en.(offset := entries[fd].offset)
        invariant entries[fd].offset as nat == from + |Concat(pieces)|
        invariant Concat(pieces) == Slice(bytes, from, Sum(counts[..i]))
        invariant forall j :: 0 <= j < i && counts[j] > 0 ==>
                                (pieces[j] == [] <==> from + |Concat(pieces[..j])| >= |bytes|)
      {
        var eax, buf := Read(fd, counts[i]);
        OneMoreRead(bytes, from, counts, i, pieces, buf);
        pieces := pieces + [buf];
      }
      assert counts[..|counts|] == counts;
    }

    /** One write after the other, perhaps from another directory each time. All succeed exactly if the clusters
        suffice for the whole and no chunk is as long as the error code; then the file is the buffers laid end to
        end, behind the old contents unless the descriptor was opened to truncate, and every other path looks up as
        before. Only an absolute path names the same file from everywhere. */
    method WriteStream(fd: int, chunks: seq<seq<Byte>>, moves: seq<Str>) returns (n: nat)
      requires Ready() && IsOpen(entries[..], fd) && Has(entries[fd].flags, O_WRONLY)
      requires FitsBuffers(v.currentPath, entries[fd].path)
      requires |moves| == |chunks| && (IsAbsolute(entries[fd].path) || forall i :: 0 <= i < |moves| ==> moves[i] == [])
      requires var e := Stat(v.tree, KeyOf(v.currentPath, entries[fd].path));
               e.IsFile? && |e.bytes| + |Concat(chunks)| < 0x1_0000_0000
      modifies v`bpb, v`disk, v`tree, v`currentPath, v`currentDirCluster, entries
      ensures v.Mounted() && n <= |chunks|
      ensures (forall i :: 0 <= i < |moves| ==> moves[i] == []) ==> v.currentPath == old(v.currentPath)
      ensures var en, e := old(entries[fd]), Stat(old(v.tree), KeyOf(old(v.currentPath), old(entries[fd]).path));
              && (n == |chunks| <==>
                    && Need(old(v.Vol()).spc, |StreamContent(e.bytes, Truncates(en), chunks)|) <=
                       |FreeClusters(old(v.Vol()))| + |e.chain|
                    && forall i :: 0 <= i < |chunks| ==> |chunks[i]| != ERROR)
              && (n == |chunks| ==>
                    && Ready()
                    && Streamed(old(v.tree), v.tree, KeyOf(old(v.currentPath), en.path), Truncates(en), chunks))
    {
      hide View, Represents, Balanced, Bpb.Good, Mirrored, Stat, KeyOf, FitsBuffers, Has, Concat, FdWritten, Streamed,
        OldBytes, AfterWrite, Truncates, IsProper, AreProper, Need, FreeClusters, StreamContent, InBudget, IsAbsolute,
        Bpb.TotalClusters;
      ghost var en, t0, vol0 := entries[fd], v.tree, v.Vol();
      ghost var key := KeyOf(v.currentPath, en.path);
      ghost var budget := |FreeClusters(vol0)| + |Stat(t0, key).chain|;
      KeyStorable(vol0, t0, v.currentPath, en.path);
      NothingStreamed(v, key, Truncates(en), chunks);
      StartBudget(vol0, t0, key);
      n := 0;
      while n < |chunks|
        invariant n <= |chunks| && Ready() && v.bpb == old(v.bpb)
        invariant KeyOf(v.currentPath, en.path) == key && FitsBuffers(v.currentPath, en.path)
        invariant (forall i :: 0 <= i < n ==> moves[i] == []) ==> v.currentPath == old(v.currentPath)
        invariant IsOpen(entries[..], fd) && SameStream(en, entries[fd], n)
        invariant Streamed(t0, v.tree, key, Truncates(en), chunks[..n])
        invariant InBudget(vol0, v.Vol(), v.tree, key, budget)
        invariant forall i :: 0 <= i < n ==> |chunks[i]| != ERROR
      {
        Move(moves[n], en.path);
        StreamFits(t0, v.tree, key, Truncates(en), chunks, n);
        ghost var vol, t, es := v.Vol(), v.tree, entries[..];
        ghost var b, disk := v.bpb, v.disk;
        var eax;
        ghost var ok;
        eax, ok := Write(fd, chunks[n]);
        StreamGoes(vol0, vol, v.Vol(), t0, t, v.tree, key, en, es[fd], chunks, n, budget, ok);
        if eax == ERROR {
          return;
        }
        SameShape(b, disk, v.disk);
        StreamOne(vol, v.Vol(), t0, t, v.tree, key, en, es[fd], chunks, n);
        StillInBudget(vol0, vol, v.Vol(), t, v.tree, key, Truncates(es[fd]), chunks[n], budget);
        StillProper(es, fd, en, n, |chunks[n]|);
        n := n + 1;
      }
      assert chunks[..|chunks|] == chunks;
      StreamedFits(vol0, v.Vol(), t0, v.tree, key, Truncates(en), chunks, budget);
    }

    /** A change of directory, if the path fits the buffers. An absolute path stays what it is. */
    method Move(path: Str, ghost fixed: Str)
      requires Ready() && FitsBuffers(v.currentPath, fixed) && (IsAbsolute(fixed) || path == [])
      modifies v`currentPath, v`currentDirCluster
      ensures Ready() && v.Vol() == old(v.Vol())
      ensures path == [] ==> v.currentPath == old(v.currentPath)
      ensures FitsBuffers(v.currentPath, fixed) && KeyOf(v.currentPath, fixed) == KeyOf(old(v.currentPath), fixed)
    {
      hide View, Represents, Balanced, Bpb.Good, Mirrored, FitsBuffers, KeyOf, Resolved, Render, DirIn, AtHome;
      if FitsBuffers(v.currentPath, path) {
        var moved := CdPath(v, path);
        if moved {
          RenderAbsolute(Resolved(old(v.currentPath), path));
          SameFromEverywhere(old(v.currentPath), Render(Resolved(old(v.currentPath), path)), fixed);
        }
      }
    }
  }

  lemma SameFromEverywhere(cwd: Str, cwd': Str, path: Str)
    requires IsAbsolute(path) && IsAbsolute(cwd') && FitsBuffers(cwd, path)
    ensures FitsBuffers(cwd', path) && KeyOf(cwd', path) == KeyOf(cwd, path)
  {
    assert Joined(cwd', path) == Joined(cwd, path);
  }

  /** After open the file is there, with its old bytes, and the clusters are those there were. */
  lemma OpenedToWrite(vol: Vol, vol': Vol, t: Node, t': Node, key: seq<Name>)
    requires vol.WellFormed() && vol'.WellFormed() && |vol'.data| == |vol.data| && Balanced(vol, t)
    requires (vol' == vol && t' == t && Stat(t, key).IsFile?)
             || (!Stat(t, key).IsFile? && WriteOutcome(vol, vol', t, t', key, [], true) && IsStorable(Last(key)))
    ensures Stat(t', key).IsFile? && Stat(t', key).bytes == OldBytes(Stat(t, key))
    ensures |FreeClusters(vol')| + |Stat(t', key).chain| == |FreeClusters(vol)| + |OldChain(Stat(t, key))|
    ensures forall q :: q != key ==> Stat(t', q) == Stat(t, q)
  {
    hide Represents, Balanced, IsStorable, FreeClusters;
    if !Stat(t, key).IsFile? {
      FreeAfter(vol, vol', t, t', key, []);
    }
  }

  /** The contents after a stream through an entry just opened. */
  lemma WrittenAnew(t: Node, t1: Node, t2: Node, key: seq<Name>, en: FdEntry, chunks: seq<seq<Byte>>, done: bool)
    requires Stat(t1, key).IsFile? && Stat(t1, key).bytes == OldBytes(Stat(t, key))
    requires forall q :: q != key ==> Stat(t1, q) == Stat(t, q)
    requires !Has(en.flags, O_APPEND) ==> en.offset == 0
    requires done ==> Streamed(t1, t2, key, Truncates(en), chunks)
    ensures var anew := Has(en.flags, O_TRUNC) && !Has(en.flags, O_APPEND) && chunks != [];
            var contents := (if anew then [] else OldBytes(Stat(t, key))) + Concat(chunks);
            && StreamContent(Stat(t1, key).bytes, Truncates(en), chunks) == contents
            && (done ==> Stat(t2, key).IsFile? && Stat(t2, key).bytes == contents
                         && forall q :: q != key ==> Stat(t2, q) == Stat(t, q))
  {
    hide Has, Concat, Stat;
  }

  lemma EntryOpened(path: Str, flags: Dword, size: Dword)
    ensures var en := NewEntry(path, flags, size);
            && en == FdEntry(true, flags, en.offset, size, path)
            && (!Has(flags, O_APPEND) ==> en.offset == 0) && (Has(flags, O_APPEND) ==> en.offset == size)
  {
  }

  // ---------- reading ----------

  predicate IsReadable(en: FdEntry, t: Node, cwd: Str) {
    !Has(en.flags, O_WRONLY) && en.path != [] && Stat(t, KeyOf(cwd, en.path)).IsFile?
  }

  lemma SizeIsDword(v: Volume, key: seq<Name>, offset: Dword, count: Dword)
    requires Holding(v) && Stat(v.tree, key).IsFile?
    ensures offset + |Slice(Stat(v.tree, key).bytes, offset, count)| < 0x1_0000_0000
  {
    SizeInSlot(v.Vol(), v.tree, key);
  }

  /** A file's size is in its slot, so it is a 32-bit number. */
  lemma SizeInSlot(vol: Vol, t: Node, key: seq<Name>)
    requires vol.WellFormed() && Represents(vol, t) && Stat(t, key).IsFile?
    ensures |Stat(t, key).bytes| < 0x1_0000_0000
  {
    assert key != [] && key == Front(key) + [Last(key)];
    GetAppend(t, Front(key), [Last(key)]);
    var d := Get(t, Front(key)).value;
    GetRep(vol, t, Front(key));
    var i := IndexOf(d.kids, Last(key));
    assert Get(d.kids[i].node, []) == Some(d.kids[i].node);
    assert KidRep(vol, SlotAt(DirSecs(vol, d.chain), i), d.kids[i]);
  }

  function Concat(pieces: seq<seq<Byte>>): seq<Byte> {
    if pieces == [] then [] else Concat(Front(pieces)) + Last(pieces)
  }

  function Sum(counts: seq<Dword>): nat {
    if counts == [] then 0 else Sum(Front(counts)) + Last(counts)
  }

  lemma NothingRead(bytes: seq<Byte>, from: nat, counts: seq<Dword>)
    ensures Concat([]) == [] && Sum(counts[..0]) == 0 && Slice(bytes, from, 0) == []
  {
  }

  lemma OneMoreRead(bytes: seq<Byte>, from: nat, counts: seq<Dword>, i: nat, pieces: seq<seq<Byte>>, buf: seq<Byte>)
    requires i < |counts| && |pieces| == i && Concat(pieces) == Slice(bytes, from, Sum(counts[..i]))
    requires buf == Slice(bytes, from + |Concat(pieces)|, counts[i])
    ensures Concat(pieces + [buf]) == Concat(pieces) + buf == Slice(bytes, from, Sum(counts[..i + 1]))
    ensures counts[i] > 0 ==> (buf == [] <==> from + |Concat(pieces)| >= |bytes|)
    ensures (pieces + [buf])[..i] == pieces && forall j :: 0 <= j < i ==> (pieces + [buf])[..j] == pieces[..j]
  {
    assert Front(pieces + [buf]) == pieces;
    assert Front(counts[..i + 1]) == counts[..i];
    var n := Sum(counts[..i]);
    SliceCompose(bytes, from, n, counts[i]);
    if |Concat(pieces)| < n {
      assert from + |Concat(pieces)| >= |bytes|;
    }
  }

  // ---------- writing ----------

  predicate Truncates(en: FdEntry) {
    !Has(en.flags, O_APPEND) && Has(en.flags, O_TRUNC) && en.offset == 0
  }

  /** The descriptor's entry after a write of n bytes. */
  function AfterWrite(en: FdEntry, n: nat, ok: bool): FdEntry {
    var cleared := if Truncates(en) then en.(flags := Without(en.flags, O_TRUNC)) else en;
    if ok then cleared.(offset := (en.offset as nat + n) % 0x1_0000_0000, size := (en.size as nat + n) % 0x1_0000_0000)
    else cleared
  }

  /** What a write through a descriptor does to the volume. */
  ghost predicate FdWritten(vol: Vol, vol': Vol, t: Node, t': Node, key: seq<Name>, truncate: bool, buf: seq<Byte>,
        ok: bool) {
    if truncate then WriteOutcome(vol, vol', t, t', key, buf, ok)
    else if key == [] then !ok && vol' == vol && t' == t
    else Appended(vol, vol', t, t', Front(key), Last(key), buf, ok)
  }

  lemma HasPath(entries: seq<FdEntry>, fd: int)
    requires AreProper(entries) && IsOpen(entries, fd)
    ensures entries[fd].path != []
  {
  }

  // ---------- streams of writes ----------

  /** The file after the chunks: the first write of a truncating descriptor replaces the old contents. */
  function StreamContent(bytes: seq<Byte>, truncate: bool, chunks: seq<seq<Byte>>): seq<Byte> {
    (if truncate && chunks != [] then [] else bytes) + Concat(chunks)
  }

  ghost predicate Streamed(t0: Node, t: Node, key: seq<Name>, truncate: bool, chunks: seq<seq<Byte>>) {
    && Stat(t0, key).IsFile? && Stat(t, key).IsFile?
    && Stat(t, key).bytes == StreamContent(Stat(t0, key).bytes, truncate, chunks)
    && SetTo(t0, t, key, Stat(t, key))
  }

  /** The entry after n writes: only the first may truncate. */
  predicate SameStream(en: FdEntry, now: FdEntry, n: nat) {
    && now.used && now.path == en.path && Has(now.flags, O_WRONLY)
    && (Truncates(now) <==> Truncates(en) && n == 0)
  }

  lemma ClearTrunc(flags: Dword)
    ensures var r := Without(flags, O_TRUNC);
            && !Has(r, O_TRUNC) && (Has(flags, O_TRUNC) ==> r + O_TRUNC == flags)
            && (Has(r, O_APPEND) <==> Has(flags, O_APPEND)) && (Has(r, O_WRONLY) <==> Has(flags, O_WRONLY))
  {
    var low, high := flags % 8, flags / 8;
    assert flags == 8 * high + low;
    var r := Without(flags, O_TRUNC);
    assert r % 8 == low;
  }

  lemma StillProper(es: seq<FdEntry>, fd: nat, en: FdEntry, n: nat, size: nat)
    requires AreProper(es) && IsOpen(es, fd) && SameStream(en, es[fd], n)
    ensures var next := AfterWrite(es[fd], size, true);
            AreProper(es[fd := next]) && SameStream(en, next, n + 1)
  {
    ClearTrunc(es[fd].flags);
    assert IsProper(es[fd]);
  }

  lemma NothingStreamed(v: Volume, key: seq<Name>, truncate: bool, chunks: seq<seq<Byte>>)
    requires Stat(v.tree, key).IsFile?
    ensures Streamed(v.tree, v.tree, key, truncate, chunks[..0])
  {
    assert Concat([]) == [];
    assert Stat(v.tree, key).bytes + [] == Stat(v.tree, key).bytes;
  }

  lemma {:induction false} ConcatPrefix(chunks: seq<seq<Byte>>, n: nat)
    requires n <= |chunks|
    ensures |Concat(chunks[..n])| <= |Concat(chunks)|
    decreases |chunks|
  {
    if n < |chunks| {
      ConcatPrefix(Front(chunks), n);
      assert Front(chunks)[..n] == chunks[..n];
    } else {
      assert chunks[..n] == chunks;
    }
  }

  lemma ConcatOne(chunks: seq<seq<Byte>>, n: nat)
    requires n < |chunks|
    ensures Concat(chunks[..n + 1]) == Concat(chunks[..n]) + chunks[n]
  {
    assert Front(chunks[..n + 1]) == chunks[..n];
  }

  lemma StreamFits(t0: Node, t: Node, key: seq<Name>, truncate: bool, chunks: seq<seq<Byte>>, n: nat)
    requires n < |chunks| && Streamed(t0, t, key, truncate, chunks[..n])
    requires |Stat(t0, key).bytes| + |Concat(chunks)| < 0x1_0000_0000
    ensures |chunks[n]| < 0x1_0000_0000 && |OldBytes(Stat(t, key))| + |chunks[n]| < 0x1_0000_0000
  {
    ConcatOne(chunks, n);
    ConcatPrefix(chunks, n + 1);
  }

  /** The file's chain and the free clusters are together what they were. */
  ghost predicate InBudget(vol0: Vol, vol: Vol, t: Node, key: seq<Name>, budget: nat) {
    && vol0.WellFormed() && vol.WellFormed() && vol.spc == vol0.spc && |vol.data| == |vol0.data|
    && Stat(t, key).IsFile? && |FreeClusters(vol)| + |Stat(t, key).chain| == budget
  }

  lemma StartBudget(vol: Vol, t: Node, key: seq<Name>)
    requires vol.WellFormed() && Stat(t, key).IsFile?
    ensures InBudget(vol, vol, t, key, |FreeClusters(vol)| + |Stat(t, key).chain|)
  {
  }

  lemma SameShape(b: Bpb, d: seq<Sector>, d': seq<Sector>)
    requires b.Good(|d|) && b.Good(|d'|)
    ensures View(b, d').spc == View(b, d).spc && |View(b, d').data| == |View(b, d).data|
  {
    ViewShape(b, d);
    ViewShape(b, d');
  }

  /** A write through the stream succeeds iff the clusters suffice for the file that it makes; if they do not, they
      do not suffice for the whole. */
  lemma StreamGoes(vol0: Vol, vol: Vol, vol': Vol, t0: Node, t: Node, t': Node, key: seq<Name>, en: FdEntry,
                   now: FdEntry, chunks: seq<seq<Byte>>, n: nat, budget: nat, ok: bool)
    requires n < |chunks| && Streamed(t0, t, key, Truncates(en), chunks[..n]) && SameStream(en, now, n)
    requires FdWritten(vol, vol', t, t', key, Truncates(now), chunks[n], ok) && key != []
    requires InBudget(vol0, vol, t, key, budget)
    ensures !ok ==> Need(vol0.spc, |StreamContent(Stat(t0, key).bytes, Truncates(en), chunks)|) > budget
  {
    hide Need, Truncates, Wrote, Represents, Balanced, DiskFull, CanInsert, FreeClusters, Stat, Concat;
    assert Front(key) + [Last(key)] == key;
    ConcatOne(chunks, n);
    ConcatPrefix(chunks, n + 1);
    var base := if Truncates(now) then [] else Stat(t, key).bytes;
    if !ok {
      NeedMono(vol0.spc, |base| + |chunks[n]|, |StreamContent(Stat(t0, key).bytes, Truncates(en), chunks)|);
    }
  }

  lemma StillInBudget(vol0: Vol, vol: Vol, vol': Vol, t: Node, t': Node, key: seq<Name>, truncate: bool,
                      chunk: seq<Byte>, budget: nat)
    requires InBudget(vol0, vol, t, key, budget) && FdWritten(vol, vol', t, t', key, truncate, chunk, true)
    requires key != [] && IsStorable(Last(key)) && Balanced(vol, t) && Balanced(vol', t')
    requires vol'.spc == vol.spc && |vol'.data| == |vol.data|
    ensures InBudget(vol0, vol', t', key, budget)
  {
    hide Balanced, Represents, IsStorable, CanWrite, DiskFull, WriteFits, AppendFits, FreeClusters, Stat;
    assert Front(key) + [Last(key)] == key;
    var data := if truncate then chunk else OldBytes(Stat(t, key)) + chunk;
    FreeAfter(vol, vol', t, t', key, data);
  }

  /** The whole is in the file: the clusters suffice. */
  lemma StreamedFits(vol0: Vol, vol: Vol, t0: Node, t: Node, key: seq<Name>, truncate: bool, chunks: seq<seq<Byte>>,
                     budget: nat)
    requires InBudget(vol0, vol, t, key, budget) && Streamed(t0, t, key, truncate, chunks) && Represents(vol, t)
    ensures Need(vol0.spc, |StreamContent(Stat(t0, key).bytes, truncate, chunks)|) <= budget
  {
    hide Represents, Need, FreeClusters, StreamContent, Stat;
    StatChain(vol, t, key);
  }

  /** One more successful write. */
  lemma StreamOne(vol: Vol, vol': Vol, t0: Node, t: Node, t': Node, key: seq<Name>, en: FdEntry, now: FdEntry,
                  chunks: seq<seq<Byte>>, n: nat)
    requires n < |chunks| && Streamed(t0, t, key, Truncates(en), chunks[..n]) && SameStream(en, now, n)
    requires FdWritten(vol, vol', t, t', key, Truncates(now), chunks[n], true) && key != [] && IsStorable(Last(key))
    ensures vol'.WellFormed() && Represents(vol', t') && Balanced(vol', t')
    ensures Streamed(t0, t', key, Truncates(en), chunks[..n + 1])
  {
    hide Represents, Balanced, Truncates, IsStorable, CanWrite, DiskFull, WriteFits, AppendFits;
    ConcatOne(chunks, n);
    assert Front(key) + [Last(key)] == key;
    var data := chunks[n];
    var base := if Truncates(now) then [] else Stat(t, key).bytes;
    assert Stat(t', key).bytes == base + data by { assert [] + data == data; }
    assert StreamContent(Stat(t0, key).bytes, Truncates(en), chunks[..n + 1]) == base + data;
  }

  lemma PathsKept(entries: seq<FdEntry>, path: Str, flags: Dword, size: Dword)
    requires AreProper(entries) && path != []
    ensures var k := LowestUnused(entries); k < |entries| ==> AreProper(entries[k := NewEntry(path, flags, size)])
  {
  }

  /** Creating an empty file needs a slot and no cluster. */
  lemma Created(vol: Vol, vol': Vol, t: Node, t': Node, path: Str, key: seq<Name>, ok: bool)
    requires vol.WellFormed() && (path == [] || !Stat(t, key).IsFile?)
    requires if path == [] then !ok && vol' == vol && t' == t else WriteOutcome(vol, vol', t, t', key, [], ok)
    ensures ok <==> path != [] && key != [] && CanInsert(vol, t, Front(key), Last(key))
    ensures !ok ==> vol' == vol && t' == t
    ensures ok ==> vol'.WellFormed() && Represents(vol', t') && (IsStorable(Last(key)) ==> Balanced(vol', t'))
  {
    hide Represents, Balanced, CanInsert, Wrote, DiskFull;
    if key != [] {
      assert Front(key) + [Last(key)] == key;
    }
  }
}
