/** Launching a program: its image, its pages and its stack. */
module Exec {
  import opened Bytes
  import opened Layout
  import opened Names
  import opened Paths
  import opened VolumeState
  import opened TreeOps
  import opened Resolve
  import opened Paging
  import opened UserStack
  import opened Elf

  const STACK_BASE := 0x3F_C000
  const STACK_TOP := 0x40_0000

  /** Whether the processor entered the program, and with which stack pointer. */
  datatype Outcome = Failed | Entered(entry: Dword, sp: nat)

  datatype Launch = Launch(path: Str, argc: int, argv: seq<Arg>)

  /** Pages that user programs ever get: the user window and the stack. */
  predicate IsUserArea(i: nat) {
    Covers(USER_MIN, USER_MAX, i) || Covers(STACK_BASE, STACK_TOP, i)
  }

  ghost predicate Confined(table: seq<Dword>)
    requires |table| == 1024
  {
    forall i :: 0 <= i < 1024 && IsUser(table[i]) ==> IsUserArea(i)
  }

  /** The user's pages are exactly those of the program's segments and of the stack, without the kernel's. */
  ghost predicate HasPagesOf(table: seq<Dword>, file: seq<Byte>, kernelStart: Dword, kernelEnd: Dword)
    requires |table| == 1024 && IsLoadable(file)
  {
    forall i :: 0 <= i < 1024 ==> (IsUser(table[i]) <==> IsPageOf(file, kernelStart, kernelEnd, i))
  }

  predicate IsPageOf(file: seq<Byte>, kernelStart: Dword, kernelEnd: Dword, i: nat)
    requires IsLoadable(file)
  {
    && (Low(AllSegments(file)) < 0x1_0000_0000 && High(AllSegments(file)) < 0x1_0000_0000)
    && (Covers(Low(AllSegments(file)), High(AllSegments(file)), i) || Covers(STACK_BASE, STACK_TOP, i))
    && !Covers(kernelStart, kernelEnd, i)
  }

  /** The paging sequence of a launch. */
  method GrantPages(pages: PageTables, low: Dword, high: Dword, kernelStart: Dword, kernelEnd: Dword)
    requires pages.Valid() && Confined(pages.table[..]) && USER_MIN <= low < high <= USER_MAX
    modifies pages.table
    ensures pages.Valid() && Confined(pages.table[..])
    ensures forall i :: 0 <= i < 1024 ==>
              (IsUser(pages.table[i]) <==>
                 (Covers(low, high, i) || Covers(STACK_BASE, STACK_TOP, i)) && !Covers(kernelStart, kernelEnd, i))
  {
    hide Covers, IsUser;
    ghost var before := pages.table[..];
    pages.ClearUser(USER_MIN, USER_MAX);
    pages.ClearUser(STACK_BASE, STACK_TOP);
    assert forall i :: 0 <= i < 1024 ==> !IsUser(pages.table[i]) by {
      assert forall i :: 0 <= i < 1024 ==> before[i] == old(pages.table[i]);
    }
    pages.MarkUser(low, high);
    pages.MarkUser(STACK_BASE, STACK_TOP);
    pages.ProtectKernel(kernelStart, kernelEnd);
    InWindow(low, high);
  }

  lemma InWindow(low: Dword, high: Dword)
    requires USER_MIN <= low < high <= USER_MAX
    ensures forall i :: 0 <= i < 1024 && Covers(low, high, i) ==> Covers(USER_MIN, USER_MAX, i)
  {
  }

  /** The program's memory outside the stack is its image; the stack holds its arguments, and zeros below. */
  ghost predicate IsLaunched(ram0: seq<Byte>, ram: seq<Byte>, file: seq<Byte>, sp: nat, args: seq<Arg>, ptrs: seq<nat>)
    requires IsLoadable(file)
  {
    && STACK_BASE <= sp < STACK_TOP <= |ram| && IsUserStack(ram, sp, args, ptrs, STACK_TOP)
    && (forall a :: STACK_BASE <= a < sp ==> ram[a] == 0)
    && exists image: seq<Byte> :: IsImage(ram0, image, file, AllSegments(file))
             && SameBut(image, ram, STACK_BASE, STACK_TOP)
  }

  /** Loads a program and enters it. A file that is no executable changes no page; a negative argument count is
      noticed only after the pages have changed; otherwise the launch succeeds. */
  method ExecElf(v: Volume, ram: Ram, pages: PageTables, launch: Launch, kernelStart: Dword, kernelEnd: Dword)
    returns (r: Outcome, ghost ptrs: seq<nat>)
    requires Holding(v) && FitsBuffers(v.currentPath, launch.path) && launch.argc <= |launch.argv|
    requires |FileOf(v, launch.path)| + USER_MAX <= |ram.bytes| && STACK_TOP <= |ram.bytes|
    requires pages.Valid() && Confined(pages.table[..])
    modifies v`bpb, ram, pages.table
    ensures Holding(v) && pages.Valid() && Confined(pages.table[..]) && |ram.bytes| == |old(ram.bytes)|
    ensures var file := FileOf(v, launch.path);
            if launch.path != [] && IsLoadable(file) then
              && HasPagesOf(pages.table[..], file, kernelStart, kernelEnd)
              && (if launch.argc < 0 then r == Failed
                  else
                    && r.Entered? && r.entry == EntryPoint(file)
                    && IsLaunched(old(ram.bytes), ram.bytes, file, r.sp,
                                  launch.argv[..Min(launch.argc, ARGS_MAX)], ptrs))
            else r == Failed && pages.table[..] == old(pages.table[..])
  {
    hide View, Represents, FitsBuffers, Covers, IsUser, IsLoadable, AllSegments, EntryPoint, FileOf, SameBelow, IsImage,
      SameBut, IsUserStack, IsIdentity, Splice;
    ghost var file := FileOf(v, launch.path);
    var ok, entry, low, high := Load(v, ram, launch.path);
    SameLength(old(ram.bytes), ram.bytes);
    if !ok {
      return Failed, [];
    }
    ghost var image := ram.bytes;
    GrantPages(pages, low, high, kernelStart, kernelEnd);
    ram.bytes := Splice(ram.bytes, STACK_BASE, Zeros(STACK_TOP - STACK_BASE));
    Cleared(image);
    ghost var cleared := ram.bytes;
    var sp;
    sp, ptrs := BuildUserStack(ram, launch.argc, launch.argv, STACK_TOP);
    StackInRange(ram.bytes, sp, launch, ptrs);
    if sp < STACK_BASE || sp >= STACK_TOP {
      return Failed, ptrs;
    }
    StackOnly(image, cleared, ram.bytes, sp);
    r := Entered(entry, sp);
  }

  lemma SameLength(ram: seq<Byte>, ram': seq<Byte>)
    requires SameBelow(ram, ram')
    ensures |ram'| == |ram|
  {
  }

  lemma Cleared(image: seq<Byte>)
    requires STACK_TOP <= |image|
    ensures var cleared := Splice(image, STACK_BASE, Zeros(STACK_TOP - STACK_BASE));
            && SameBut(image, cleared, STACK_BASE, STACK_TOP)
            && forall a :: STACK_BASE <= a < STACK_TOP ==> cleared[a] == 0
  {
    var zeros := Zeros(STACK_TOP - STACK_BASE);
    var cleared := Splice(image, STACK_BASE, zeros);
    forall a | STACK_BASE <= a < STACK_TOP ensures cleared[a] == 0 {
      assert cleared[a] == cleared[STACK_BASE..STACK_BASE + |zeros|][a - STACK_BASE];
    }
  }

  lemma StackOnly(image: seq<Byte>, cleared: seq<Byte>, ram: seq<Byte>, sp: nat)
    requires SameBut(image, cleared, STACK_BASE, STACK_TOP) && SameBut(cleared, ram, sp, STACK_TOP) && STACK_BASE <= sp
    requires STACK_TOP <= |image| && forall a :: STACK_BASE <= a < STACK_TOP ==> cleared[a] == 0
    ensures SameBut(image, ram, STACK_BASE, STACK_TOP)
    ensures |ram| == |image| && forall a :: STACK_BASE <= a < sp && a < STACK_TOP ==> ram[a] == 0
  {
  }

  /** The stack always fits its 16 KB: the range check fails exactly for a negative argument count. */
  lemma StackInRange(ram: seq<Byte>, sp: nat, launch: Launch, ptrs: seq<nat>)
    requires 0 <= launch.argc <= |launch.argv| ==>
               && IsUserStack(ram, sp, launch.argv[..Min(launch.argc, ARGS_MAX)], ptrs, STACK_TOP)
               && STACK_TOP - STACK_NEED <= sp
    requires launch.argc <= |launch.argv| && (launch.argc < 0 ==> sp == 0)
    ensures STACK_BASE <= sp < STACK_TOP <==> launch.argc >= 0
  {
  }

  // ---------- any sequence of launches ----------

  predicate IsProgram(file: seq<Byte>, path: Str) {
    path != [] && IsLoadable(file)
  }

  /** Launches one program after the other, as they return. The user's pages are always those of the last one that
      could be loaded; launches that fail to load leave them as they were. */
  method RunPrograms(v: Volume, ram: Ram, pages: PageTables, launches: seq<Launch>, kernelStart: Dword,
        kernelEnd: Dword)
    returns (ghost last: int)
    requires Holding(v) && pages.Valid() && Confined(pages.table[..]) && STACK_TOP <= |ram.bytes|
    requires forall k :: 0 <= k < |launches| ==> CanTry(v, |ram.bytes|, launches[k])
    modifies v`bpb, ram, pages.table
    ensures pages.Valid() && Confined(pages.table[..]) && -1 <= last < |launches|
    ensures forall k :: last < k < |launches| ==> !IsProgram(FileOf(v, launches[k].path), launches[k].path)
    ensures if last == -1 then pages.table[..] == old(pages.table[..])
            else
              && IsProgram(FileOf(v, launches[last].path), launches[last].path)
              && HasPagesOf(pages.table[..], FileOf(v, launches[last].path), kernelStart, kernelEnd)
  {
    hide View, Represents, IsIdentity, HasPagesOf, IsLoadable, FileOf, FitsBuffers, Confined;
    last := -1;
    for n := 0 to |launches|
      invariant Holding(v) && pages.Valid() && Confined(pages.table[..]) && |ram.bytes| == |old(ram.bytes)|
      invariant -1 <= last < n
      invariant forall k :: last < k < n ==> !IsProgram(FileOf(v, launches[k].path), launches[k].path)
      invariant forall k :: 0 <= k < |launches| ==> CanTry(v, |ram.bytes|, launches[k])
      invariant if last == -1 then pages.table[..] == old(pages.table[..])
                else
                  && IsProgram(FileOf(v, launches[last].path), launches[last].path)
                  && HasPagesOf(pages.table[..], FileOf(v, launches[last].path), kernelStart, kernelEnd)
    {
      ghost var loads := IsProgram(FileOf(v, launches[n].path), launches[n].path);
      var r;
      ghost var ptrs;
      r, ptrs := ExecElf(v, ram, pages, launches[n], kernelStart, kernelEnd);
      if loads {
        last := n;
      }
    }
  }

  ghost predicate CanTry(v: Volume, memory: nat, launch: Launch)
    reads v
  {
    && FitsBuffers(v.currentPath, launch.path) && launch.argc <= |launch.argv|
    && |FileOf(v, launch.path)| + USER_MAX <= memory
  }
}
