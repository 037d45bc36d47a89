# AstraOS: the file system, the heap and the program loader

AstraOS is a small i386 kernel. This project models its FAT16 driver, the file descriptor system calls on top of it,
the kernel heap, and the path by which an executable becomes a running program, and proves what they do.

## The file system

The disk is a sequence of 512-byte sectors (`VolumeState.Volume`), read, patched and written back as the driver does.
`Layout.View` reads it as FAT words, root sectors and cluster sectors. A ghost tree of files and directories says what
the disk holds; two predicates tie it to the bytes:

* `TreeOps.Represents`: every directory's slots name its entries, nothing live follows an end marker, names are
  distinct, and every file's bytes lie at the start of a chain that is exactly as long as its size needs.
* `TreeOps.Balanced`: every cluster in use belongs to exactly one chain, and no free cluster to any.

Together (`Accounting.Valid`) they are the invariant of the volume. A volume represents one tree only
(`TreeOps.TreeUnique`), so what is said of the tree is said of the disk. Every operation is stated by what each path
names before and after (`TreeOps.Stat`): an operation that sets one name, or removes what is below one name, leaves
every other path as it was. `Runs.Execute` and `Runs.Run` put these together: an operation succeeds exactly under its
condition (`Runs.Succeeds`); any sequence of successful operations acts on the map from paths to entries as its meaning
says (`Runs.Did`), keeps the volume valid, and keeps the current directory in agreement with its path; and a failure
leaves all as it was, so that a run can go on, unless the operation failed halfway (`Runs.FailsHalfway`). A mounted
volume with a zeroed root directory and free clusters is where a run can start (`Runs.FreshVolume`); `Examples.Mount`
makes one out of any good boot sector.

Success is stated exactly: a write succeeds if and only if there is an entry to write to and the free clusters,
together with those of the old chain, suffice (`FileWrite.WriteFits`). The failures that damage the volume are stated
too: a write that runs out of clusters has freed the old chain (`FileWrite.DiskFull`), a failed append has lengthened
the chain but lost no byte (`FileAppend.AppendFailed`), a `mkdir` without a slot for its entry loses a cluster
(`MakeDir.MkdirOutcome`), and so does `mkdir_p` under a condition that is exact (`MakePath.LosesCluster`).

Reading and freeing a chain are also stated for a FAT that is no set of chains: links in a cycle, into free clusters,
or to clusters that the volume does not have. Sectors that the disk does not have deliver anything
(`Volume.beyond`), and writes to them are lost.

Three promises do not hold of the code for every input. The condition under which they hold is proved, and an input
on which they fail is given:

* A new entry can be found again if and only if its name does not start with the byte 0xE5, which marks a deleted slot
  (`Slots.InsertLookup`, `Entries.IsStorable`). With such a name `mkdir` loses a cluster, `write_file` its data, and
  `mv` the file. (`Examples.TouchedButAbsent`)
* The current directory agrees with its path after a recursive delete if and only if it was neither the target nor
  below it (`WorkingDir.HomeLost`, `Examples.HomeDeleted`).
* The loader does not compare `p_filesz` with `p_memsz`. It changes no memory but the segments' own if and only if
  every byte that overruns its segment falls into another (`Elf.OwnMemoryOnly`), and none behind the image if and only
  if no segment's file bytes reach past its end (`Elf.BehindImage`, `Examples.LoadedBeyondEnd`).

Formats are stated byte by byte, apart from the functions that read them: the boot sector (`Layout.HoldsParameters`),
slots (`Slots.HoldsEntry`), new directories (`MakeDir.IsNewDir`), 8.3 names (`Names.HoldsField`), executables
(`Elf.HoldsProgram`); and paths one component at a time (`Paths.Extends`).

Assumed of a volume: 512-byte sectors, two FATs, at least one reserved sector and one sector per cluster, fewer than
65525 clusters, FATs that hold a word for each. Assumed of a call: paths that fit the 128-byte buffers and the stack of
16 components, sizes that fit 32 bits.

## The rest of the kernel

* `Descriptors`: the table of 16 descriptors and the open, read, write and close calls, and what a program sees over
  many reads or writes, even if it changes directory in between.
* `Heap`: block headers as bytes in memory, linked by addresses. The blocks tile the heap, no two neighbours are free,
  and a client that allocates, writes and frees always finds what it wrote (`Heap.Cells`), whatever others hold.
* `Elf`, `Paging`, `UserStack`, `Exec`: what memory, page permissions and stack are after a launch.

## Model

| member | source | states |
|---|---|---|
| VolumeState.Volume.Init | src/fs/fat16.c:669-690 | the parameters are those whose bytes sector 0 holds, each field at its place (`Layout.HoldsParameters`); succeeds iff it is signed and has 512-byte sectors; on a mounted volume nothing changes |
| Layout.ParametersParse | src/fs/fat16.c:674-681 | a sector is read as b iff its bytes at 11, 13, 14, 16, 17, 19, 22 and 32 are the fields of b, lowest byte first |
| Layout.RegionsInOrder | src/fs/fat16.c:25-43 | reserved sectors, two FATs, root directory and clusters follow each other without a gap, and there are as many clusters as fit |
| Layout.RootSectorsLeast | src/fs/fat16.c:30-33 | the root directory takes the fewest sectors that its entries fit in |
| Layout.FatWordBytes | src/fs/fat16.c:45-57 | the word of cluster c is at bytes 2c and 2c + 1 of the FAT, low byte first |
| VolumeState.Volume.GetFatEntry | src/fs/fat16.c:45-57 | the FAT word of the cluster; for a number that the FAT has no word for, what lies behind it |
| VolumeState.Volume.SetFatEntry | src/fs/fat16.c:59-79 | that word alone changes, in both copies of the FAT, and no cluster or root sector does |
| VolumeState.Volume.AllocCluster | src/fs/fat16.c:141-161 | the lowest free cluster becomes the end of a chain; 0 iff no cluster is free, and then nothing changes |
| VolumeState.Volume.ClearCluster | src/fs/fat16.c:163-173 | the cluster's sectors are zero, all else is as before |
| VolumeState.Volume.FreeClusterChain | src/fs/fat16.c:175-185 | on a FAT whose reachable links stay inside it, cyclic or not, ends and zeroes exactly the words reachable from the start; on any FAT ends, having turned bytes into zeros only, if the disk holds a sector for every 16-bit cluster number |
| Layout.ClustersDisjoint | src/fs/fat16.c:40-43 | different clusters occupy disjoint sector ranges |
| Layout.ClusterInRange | src/fs/fat16.c:30-43 | every cluster lies behind the root directory and inside the volume |
| Layout.WritePlace | src/fs/fat16.c:25-43 | writing one sector of a region changes that sector of the view and no other, never sector 0, and keeps the FAT copies equal |
| Chains.ChainAcyclic | src/fs/fat16.c:175-185 | a terminated chain visits no cluster twice |
| Chains.ChainReachable | src/fs/fat16.c:175-185 | freeing a chain frees exactly its clusters |
| Names.FormatFilename | src/fs/fat16.c:81-114 | the loops compute the 8.3 form, whose bytes the next three rows give |
| Names.FmtPlain | src/fs/fat16.c:86-96 | a name without a dot: its first 8 characters, letters upper-cased, and spaces for the rest and the extension |
| Names.FmtDotted | src/fs/fat16.c:98-113 | a stem of at most 8, a dot, and more: the stem in bytes 0 to 7, the first 3 characters behind the dot in bytes 8 to 10, spaces elsewhere |
| Names.FmtLong | src/fs/fat16.c:89-98 | a stem of more than 8 is cut to 8, and the extension is lost |
| Names.FmtFirst | src/fs/fat16.c:81-114 | a formatted name never starts with NUL or a dot, and with the deleted mark only if the string does |
| Paths.NormalizePath | src/fs/fat16.c:189-264 | the loops compute the components, rendered, in at most 127 characters; the next three rows say what they are |
| Paths.LastComponent | src/fs/fat16.c:213-248 | adding "/.." to a path drops its last name, if any; "/." and "/" change nothing; any other name is added, cut to 31 characters |
| Paths.FirstComponent | src/fs/fat16.c:194-209 | so does the first component of a relative path to the current directory |
| Paths.RenderMore | src/fs/fat16.c:250-263 | the result is a slash before each name, or one slash |
| Paths.NormalizedShape | src/fs/fat16.c:189-264 | the result is absolute, has exactly the folded components, and is no longer than the joined input |
| Paths.NormalizeIdempotent | src/fs/fat16.c:189-264 | normalising a normalised path changes nothing |
| Paths.NormalizeCompose | src/fs/fat16.c:189-264 | normalising y below normalised x is normalising x/y |
| Paths.SplitPath | src/fs/fat16.c:624-665 | cuts at the last slash; fails iff there is no slash or nothing behind it |
| Paths.SplitRejoin | src/fs/fat16.c:624-665 | every normalised path but the root is its parent and name joined again |
| Slots.ScanSector | src/fs/fat16.c:284-324 | the first slot of a sector at which the search stops |
| Slots.FindByBytes | src/fs/fat16.c:284-324 | a lookup finds the first slot whose bytes 0 to 10 are the name, that does not start with 0xE5 and has not attributes 0x0F, if no slot before it starts with zero |
| Slots.SlotBytes | src/fs/fat16.c:951-956 | the bytes of an entry: name at 0, attributes at 11, first cluster at 26, size at 28 |
| Slots.InsertLookup | src/fs/fat16.c:936-957 | filling the slot of find_free_dir_entry keeps all other lookups and the end-marker discipline; the new name is found iff it does not start with 0xE5 |
| Slots.DeleteLookup | src/fs/fat16.c:1122-1128 | marking a slot as deleted removes that name and no other |
| Directory.ScanDir | src/fs/fat16.c:268-387 | the first slot of the directory at which the search stops, and where it is on disk |
| Directory.FindEntry | src/fs/fat16.c:268-387 | finds the slot of the name iff one precedes the end marker |
| Directory.FindEntryLocation | src/fs/fat16.c:389-514 | the slot of the name, with its sector and offset; fails iff none precedes the end marker |
| Directory.FindFreeDirEntry | src/fs/fat16.c:516-572 | the first slot that is deleted or an end marker; fails iff there is none |
| Directory.IsDirEmpty | src/fs/fat16.c:1133-1171 | true iff no live slot precedes the end marker |
| Directory.WriteSlot | src/fs/fat16.c:1122-1128 | one slot of one directory changes, and nothing else on the volume |
| Resolve.FindIsKid | src/fs/fat16.c:268-387 | a lookup on disk finds exactly what the tree has under that name |
| Resolve.ResolveAbsolute | src/fs/fat16.c:574-620 | succeeds iff the tree has a directory at the path, and gives its first cluster |
| Resolve.ResolveParent | src/fs/fat16.c:1337-1352 | succeeds iff the path is not the root and its parent is a directory; gives that directory and the name in it |
| Lookup.FindPath | src/fs/fat16.c:1608-1626 | finds an entry iff the path names one, and the entry says what it is |
| Entries.Touch | src/fs/fat16.c:921-960 | succeeds iff the name is new and a slot is vacant; then it names an empty file, the slot holds the bytes of its entry, and all else is as before |
| FileData.FillSector | src/fs/fat16.c:1423-1431 | a sector holding the next bytes of the data, zero behind them |
| FileData.AddCluster | src/fs/fat16.c:1404-1417 | a free cluster is taken and linked behind the chain; fails iff none is free |
| FileData.AppendClusters | src/fs/fat16.c:1402-1438 | the chain holds the old bytes followed by the data in no more clusters than needed; fails iff the clusters do not suffice |
| FileWrite.OpenForWrite | src/fs/fat16.c:1354-1395 | the entry is found and its chain freed, or created; succeeds iff a file is there or one can be created |
| FileWrite.WriteFile | src/fs/fat16.c:1335-1450 | succeeds iff there is an entry and ceil(size / cluster size) <= free + old chain; then the file holds the data and no other path changes; out of clusters, all but this file is intact |
| FileAppend.FillTail | src/fs/fat16.c:1523-1557 | the last cluster takes as much of the data as it has room for, behind the bytes it holds |
| FileAppend.LastCluster | src/fs/fat16.c:1509-1516 | the last cluster of the chain |
| FileAppend.AppendFile | src/fs/fat16.c:1454-1604 | succeeds iff there is an entry and the clusters suffice for the longer file; then its bytes are the old ones followed by the data and its chain extends the old one; out of clusters, the old bytes can still be read |
| FileRead.FileSize | src/fs/fat16.c:1606-1633 | the size of the file; fails iff the path names no file |
| FileRead.IsDirectory | src/fs/fat16.c:1635-1662 | true iff the path names a directory, the root included |
| FileRead.ReadFile | src/fs/fat16.c:1664-1735 | exactly the file's bytes; fails iff there is no file or it is too large for the buffer |
| FileRead.ReadRange | src/fs/fat16.c:2080-2127 | ends on every FAT, whatever its words and whichever clusters they name, and gives exactly the bytes that the links lead to from the offset on; fails iff they end before it; a start that is itself an end mark reads nothing |
| FileRead.CycleFills | src/fs/fat16.c:2080-2127 | where the links never come to an end mark, a read gets every byte it asks for |
| FileRead.WalkStream | src/fs/fat16.c:2080-2127 | where they lead along clusters of the volume, the bytes are those of the clusters, in order |
| FileRead.ReadAt | src/fs/fat16.c:2022-2131 | exactly content[offset .. min(offset + len, size)] |
| FileRead.SliceCompose | src/fs/fat16.c:2059-2074 | consecutive reads compose: read(o, a) then read(o + a, b) is read(o, a + b) |
| FileRead.SliceAt | src/fs/fat16.c:2059-2074 | the i-th byte read is the i-th from the offset on, and as many come as were asked for and are there |
| MakeDir.NewDirCluster | src/fs/fat16.c:973-1003 | the lowest free cluster becomes an empty directory: bytes 0 to 31 are the entry "." naming itself, 32 to 63 ".." naming its parent, and the rest is zero |
| MakeDir.Mkdir | src/fs/fat16.c:964-1030 | succeeds iff the name is new, a slot is vacant and a cluster is free; then an empty directory is there, with its dot entries; says exactly when a cluster is lost |
| MakePath.MkdirP | src/fs/fat16.c:1032-1097 | succeeds iff no file is in the way and slot, clusters and names allow; only missing directories on the path are added, the current directory is restored in every case, and the volume stays valid iff no cluster is taken for a directory that cannot be made |
| Removal.Rm | src/fs/fat16.c:1101-1131 | removes the file and frees its chain; 0 if there is none, -1 for a directory, and then nothing changes |
| Removal.Rmdir | src/fs/fat16.c:1173-1210 | removes an empty directory and frees its chain; 0, -1 or -2 otherwise, and then nothing changes |
| RecursiveDelete.DeleteDirRecursive | src/fs/fat16.c:1214-1270 | ends and frees exactly the clusters of everything in the directory and its own; every other FAT word and cluster is as before |
| RemoveTree.RmRf | src/fs/fat16.c:1272-1331 | everything at and below the path is gone, exactly its clusters are freed, every other path looks up as before |
| WorkingDir.CdPath | src/fs/fat16.c:826-842 | path and cluster both move to the directory named, or neither |
| WorkingDir.HomeLost | src/fs/fat16.c:1272-1331 | after a removal the current directory agrees with its path iff it was not what was removed, or below it |
| FileCopy.Cp | src/fs/fat16.c:1739-1805 | as write_file of the source's bytes to the destination, or to the source's name in it if it is a directory |
| FileCopy.CopyReads | src/fs/fat16.c:1739-1805 | after a copy both names read as the source did, even if they are the same |
| FileCopy.TargetPath | src/fs/fat16.c:1768-1800 | cp and mv work on the path dst, or on dst/name if that is a directory, where name is the last component of the source |
| FileMove.Mv | src/fs/fat16.c:1807-1912 | succeeds iff the source is a file and the destination is new with a vacant slot; the FAT is untouched, the same chain is under the new name and not the old, no other lookup changes |
| FileMove.Relink | src/fs/fat16.c:1881-1911 | the two slot writes, even into one sector, move the entry |
| Accounting.Conservation | src/fs/fat16.c:141-185 | free clusters and clusters of the tree add up to all clusters |
| Runs.WriteCount | src/fs/fat16.c:1359-1438 | a write changes the free count by exactly the difference of the chain lengths |
| Runs.WriteThenRead | src/fs/fat16.c:1335-1450 | what was written is what read_file and read_at give back; every other path is unchanged, and the volume is valid |
| Runs.HomeAfter | src/fs/fat16.c:826-842 | every operation but a recursive delete of the current directory keeps path and cluster in agreement |
| Runs.Execute | src/fs/fat16.c:921-1912 | every operation succeeds exactly under its condition, and then has its meaning on the map from paths to entries and keeps the volume valid; unless it fails halfway, a failure changes nothing but directories already made on a path |
| Runs.Run | src/fs/fat16.c:921-1912 | so does every sequence of operations; it ends early only before one that would delete the current directory or at one that does not succeed, and can go on from there unless that one failed halfway |
| Descriptors.FdTable.FdAlloc | src/kernel/syscall.c:39-54 | the lowest unused entry, cleared; -1 iff all are used |
| Descriptors.FdTable.Open | src/kernel/syscall.c:87-142 | opens an existing file, or creates an empty one with CREAT; takes the lowest descriptor, which gets the path, the flags, the size, and the offset 0, or the size with APPEND; otherwise an error and no descriptor |
| Descriptors.FdTable.Read | src/kernel/syscall.c:143-176 | the file's bytes from the descriptor's offset on, which moves past them; an error for a bad or write-only descriptor |
| Descriptors.FdTable.Write | src/kernel/syscall.c:177-227 | the first write of a truncating descriptor rewrites the file, all others append; the entry and the result follow |
| Descriptors.FdTable.Close | src/kernel/syscall.c:228-238 | the descriptor is unused; an error if it was not in use |
| Descriptors.FdTable.ReadStream | src/kernel/syscall.c:143-176 | the results of successive reads are the file from the offset on; a non-zero read gives nothing exactly at the end |
| Descriptors.FdTable.OpenThenRead | src/kernel/syscall.c:87-176 | what is read from a file just opened is its contents from the first byte on |
| Descriptors.FdTable.WriteStream | src/kernel/syscall.c:177-227 | a sequence of writes succeeds iff free clusters and old chain suffice for the whole file (and no count equals the error code); then the file is the buffers laid end to end, behind the old contents unless opened to truncate, even across changes of directory if the path is absolute |
| Descriptors.FdTable.OpenThenWrite | src/kernel/syscall.c:87-227 | what is written to a file just opened replaces its contents with TRUNC and without APPEND, and goes behind them otherwise; succeeds iff the clusters suffice |
| Heap.KernelHeap.FindFreeBlock | src/memory/kmalloc.c:28-47 | the first free block of at least that size; 0 iff there is none |
| Heap.KernelHeap.ExtendHeap | src/memory/kmalloc.c:49-75 | a new block at the heap's end, linked behind the last; no other byte outside headers changes |
| Heap.KernelHeap.Kmalloc | src/memory/kmalloc.c:77-91 | the payload is 4-aligned, large enough and clear of every block in use, whose bytes do not change; the heap grows only if no free block fits |
| Heap.KernelHeap.MergeFreeBlocks | src/memory/kmalloc.c:93-109 | the list with neighbouring free blocks joined; only headers are written |
| Heap.KernelHeap.Kfree | src/memory/kmalloc.c:111-126 | that block and no other leaves use; the blocks in use keep their bytes |
| Heap.MergedGood | src/memory/kmalloc.c:93-109 | merging leaves no free neighbours, covers the same memory and keeps every block in use |
| Heap.AllocatedGood | src/memory/kmalloc.c:77-91 | allocating keeps the tiling and adds exactly one block, large enough, to those in use |
| Heap.PayloadsApart | src/memory/kmalloc.c:49-75 | blocks that tile the heap do not overlap |
| Heap.ExtentIs | src/memory/kmalloc.c:49-75 | headers and payloads add up to the extent of the heap |
| Heap.RunClient | src/memory/kmalloc.c:77-126 | over any sequence of allocations, writes and frees the heap stays valid, the client holds exactly the pieces it asked for and has not freed, each large enough and with every byte written to it, and blocks of others keep their bytes |
| Paging.PageTables.constructor | src/memory/paging.c:28-49 | an identity map of 4 MB in which no page is the user's |
| Paging.PageTables.MarkUser | src/memory/paging.c:81-101 | exactly the pages of the range gain the user bit; the identity map stays |
| Paging.PageTables.ClearUser | src/memory/paging.c:103-123 | exactly the pages of the range lose the user bit; the identity map stays |
| Paging.PageTables.ProtectKernel | src/memory/paging.c:51-79 | the kernel's pages lose the user bit |
| Paging.CoversOverlap | src/memory/paging.c:81-101 | the pages of a range are those below 4 MB that hold an address of it; of an empty one, the page it lies inside |
| UserStack.Ram.PushString | src/kernel/exec.c:42-58 | a NUL-terminated copy cut to 255 characters just below the stack pointer, and nothing else |
| UserStack.Ram.PushU32 | src/kernel/exec.c:19-22 | a little-endian word just below the stack pointer |
| UserStack.BuildUserStack | src/kernel/exec.c:29-75 | argc, argv, the pointers, a null pointer and the strings are where the program looks for them, within 8347 bytes of the top |
| UserStack.StringsApart | src/kernel/exec.c:38-59 | the argument strings do not overlap |
| Elf.HeaderReads | src/kernel/elf32.c:48-75 | a file has a good header iff its header passes the checks, whose sum wraps around in 32 bits, and the program header table behind it can be read in full |
| Elf.LoadSegment | src/kernel/elf32.c:88-114 | a segment is placed iff its file bytes exist and its memory lies in the user window; memory below is never touched |
| Elf.Load | src/kernel/elf32.c:28-128 | succeeds iff the file is loadable; then memory is the image of its segments, low and high are their bounds, and the entry lies in them; the next four rows say this in terms of bytes |
| Elf.SegmentParses | src/kernel/elf32.c:79-115 | a program header is read as s iff its bytes at 0, 4, 8, 16 and 20 are the fields of s, lowest byte first, whatever lies between |
| Elf.ProgramByBytes | src/kernel/elf32.c:48-90 | entry and segments of a file are those that the bytes of its header and program headers hold |
| Elf.LoadableByBytes | src/kernel/elf32.c:53-125 | such a file is loadable iff it has a segment to load, all their file bytes exist, all their memory is in the user window, and the entry is between a start and an end |
| Elf.ImageBytes | src/kernel/elf32.c:104-114 | the i-th byte of a segment in memory is the i-th from its offset in the file, zero behind its file size, unless a later segment lies over it |
| Elf.ImageAt | src/kernel/elf32.c:79-115 | each address holds the byte of the last segment that covers it, from the file or zero, or what it held before |
| Elf.OutsideUnchanged | src/kernel/elf32.c:79-115 | if no segment has more file bytes than memory, nothing outside low to high changes |
| Elf.BehindImage | src/kernel/elf32.c:102-114 | memory from high on is safe, whatever it held, iff no segment's file bytes reach past high |
| Elf.OwnMemoryOnly | src/kernel/elf32.c:102-114 | no memory outside the segments' own changes, whatever it held, iff every byte past the end of its segment falls into another |
| Elf.Changed | src/kernel/elf32.c:102-114 | for every address that a segment holds, a memory that the load changes there |
| Exec.GrantPages | src/kernel/exec.c:86-97 | the user's pages become exactly those of the program and the stack, without the kernel's |
| Exec.ExecElf | src/kernel/exec.c:77-104 | a file that cannot be loaded changes no page; otherwise pages, memory and stack are those of the program, and it is entered |
| Exec.StackInRange | src/kernel/exec.c:99-101 | the stack range check fails exactly for a negative argument count |
| Exec.RunPrograms | src/kernel/exec.c:77-104 | over any sequence of launches the user's pages are those of the last program that could be loaded |
| TreeOps.TreeUnique | src/fs/fat16.c:268-387 | a disk represents at most one tree |
| Examples.TouchedButAbsent | src/fs/fat16.c:921-960 | touch of a name that starts with 0xE5 reports success on an empty volume, and the file is not there |
| Examples.Mount | src/fs/fat16.c:669-690 | every set of good parameters can be written as a boot sector, and mounting it gives these parameters and a valid, empty volume |
| Examples.MountBoth | src/fs/fat16.c:674-681 | two volumes with all parameters different, one with 16-bit and one with 32-bit sector count |
| Examples.SampleLoaded | src/kernel/elf32.c:79-115 | a file with offset, addresses and sizes all different: where its bytes are in memory |
| Examples.HomeDeleted | src/fs/fat16.c:1272-1331 | mkdir, cd and rm_rf of one directory succeed, and the current directory is none any more |
| Examples.LoadedBeyondEnd | src/kernel/elf32.c:79-115 | a file that loads and overwrites the byte behind the end it reports, whatever that held |

## Left out

- The dot entries are stated when `mkdir` is done; later operations do not promise them, as nothing in the driver reads them.
- `fat16_cat`, `fat16_ls`, `fat16_ls_path`, `fat16_list_dir` and `fat16_pwd`: user interface, and easier than the reads modelled here.
- The shell, printing, the keyboard, interrupts, the ATA driver and the assembly wrappers: device access. Sectors are read and written directly; entering user mode is a result.
- The system calls for the working directory, listings, printing and exit: thin wrappers.
- The four searches of a directory are one scan with a goal: find_entry, find_entry_location, find_free_dir_entry and is_dir_empty differ in where they stop.
- Times, dates and reserved bytes of slots are carried along, never interpreted; slots with the long-name attribute are skipped as the driver skips them.
- Null pointers: arguments are strings and byte sequences. A null argv entry is modelled.
- Paths that overflow the driver's buffers, and sizes whose sum overflows 32 bits, except where the driver's own check wraps around (`cp`'s buffer size and the loader's range checks), which is modelled.
- FileCopy.Cp: `kmalloc` is taken to succeed, as the heap grows without a limit; the buffer is not placed in the modelled heap.
- Heap.KernelHeap.Kmalloc: assumes that memory is left behind the heap when no free block fits, which the kernel does not check; Heap.RunClient assumes memory for all its requests.
- VolumeState.Volume.FreeClusterChain: which words are zeroed on a FAT whose links leave it is not said, and nothing is promised of a disk that has no sector for some links, where the driver may go round for ever.
- Heap.KernelHeap.Kfree: only for pointers to blocks in use and null; what a corrupted header does is not modelled.
- Exec.ExecElf: clearing the stack and protecting the kernel's pages happen in either order, as they touch different memory.
- FileWrite.WriteFile: after a failed write the entry still points at the freed clusters; which of them have new owners is not said.
- Directories whose trees are not well formed (shared chains, cycles of directories) are outside the invariant; only read_at's cluster loops and the freeing of a chain are stated for other FATs.
- Runs.Run: what an operation that fails halfway leaves is stated by that operation (DiskFull, OldStays, LosesCluster), not carried on through a run.
