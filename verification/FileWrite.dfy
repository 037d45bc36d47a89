/** write_file: the old chain freed, a new one filled, and the entry pointed at it. */
module FileWrite {
  import opened Bytes
  import opened Layout
  import opened Chains
  import opened Content
  import opened Slots
  import opened Names
  import opened Paths
  import opened VolumeState
  import opened Directory
  import opened FileData
  import opened Nodes
  import opened Tree
  import opened TreePaths
  import opened TreeOps
  import opened Resolve
  import opened Accounting
  import opened Entries
  import opened Removal
  import opened Intact

  /** The state in which slot k still names a file whose clusters z have been freed. A slot whose name starts
      with the deleted mark names nothing. */
  ghost predicate Rewriting(vol0: Vol, vol: Vol, t: Node, at: seq<Name>, k: nat, name: Name, z: set<nat>) {
    && vol0.WellFormed() && vol.WellFormed() && Represents(vol0, t) && Balanced(vol0, t)
    && DirIn(t, at) && k < |DirNode(t, at).kids|
    && Freed(vol0, vol, z) && (forall c :: c in z <==> c in KidClusters(DirNode(t, at).kids[k]))
    && InData(vol0.data, DirNode(t, at).chain) && k < Count(DirSecs(vol0, DirNode(t, at).chain))
    && IsFileOrHole(DirNode(t, at).kids[k])
    && (if IsStorable(name) then DirNode(t, at).kids[k].Item? && DirNode(t, at).kids[k].name == name
        else DirNode(t, at).kids[k].Hole? && name[0] == DELETED)
    && var x := SlotAt(DirSecs(vol0, DirNode(t, at).chain), k);
    NameOf(x) == name && IsFileAttr(AttrOf(x)) && !IsEnd(x)
  }

  // ---------- what the new chain does to the volume ----------

  lemma AddedWereFree(vol: Vol, vol': Vol, ch: seq<nat>, added: seq<nat>)
    requires vol.WellFormed() && vol'.WellFormed() && Extended(vol, vol', ch, added)
    ensures forall c :: c in added ==> vol.IsCluster(c) && vol.fat[c] == 0
  {
    forall c | c in added ensures vol.IsCluster(c) && vol.fat[c] == 0 {
      var i :| 0 <= i < |added| && added[i] == c;
      assert added[i] in FreeClusters(vol);
    }
  }

  /** The directory is not touched by filling clusters that were free. */
  lemma DirWhileFilling(vol: Vol, vol': Vol, ch: seq<nat>, added: seq<nat>)
    requires vol.WellFormed() && vol'.WellFormed() && Extended(vol, vol', [], added) && (ch != [] ==> IsChain(vol, ch))
    ensures InData(vol.data, ch) && InData(vol'.data, ch) && DirSecs(vol', ch) == DirSecs(vol, ch)
    ensures ch != [] ==> IsChain(vol', ch)
    ensures forall c :: c in ch ==> c !in added
  {
    ChainOnce(vol, ch);
    AddedWereFree(vol, vol', [], added);
    forall i | 0 <= i < |ch| ensures vol'.fat[ch[i]] == vol.fat[ch[i]] && vol'.data[ch[i]] == vol.data[ch[i]] {
      assert ch[i] in ch;
    }
    if ch != [] {
      ChainFrame(vol, vol', ch);
    }
    CatFrame(vol.data, vol'.data, ch);
  }

  /** Writing a slot of another chain's directory leaves a file's data alone. */
  lemma FileDespiteSlot(vol: Vol, vol': Vol, ch: seq<nat>, file: seq<nat>, k: nat, x: Slot, bytes: seq<Byte>)
    requires vol.WellFormed() && vol'.WellFormed() && InData(vol.data, ch) && k < Count(DirSecs(vol, ch))
    requires SlotWritten(vol, vol', ch, k, x)
    requires FileRep(vol, file, bytes) && forall c :: c in file ==> c !in ch
    ensures FileRep(vol', file, bytes)
  {
    if file != [] {
      forall i | 0 <= i < |file| ensures vol'.data[file[i]] == vol.data[file[i]] {
        assert file[i] in file && vol.IsCluster(file[i]);
      }
      ChainFrame(vol, vol', file);
      CatFrame(vol.data, vol'.data, file);
    }
  }

  lemma FilledIsFile(vol0: Vol, vol: Vol, added: seq<nat>, bytes: seq<Byte>)
    requires vol0.WellFormed() && vol.WellFormed() && Filled(vol0, vol, [], added, bytes)
    ensures FileRep(vol, added, bytes) && Extended(vol0, vol, [], added)
  {
    assert [] + added == added;
  }

  /** The books after freeing z, filling `added` and writing the slot. */
  lemma WriteAccounted(vol0: Vol, vol1: Vol, vol2: Vol, vol3: Vol, z: set<nat>, gone: multiset<nat>, added: seq<nat>)
    requires vol0.WellFormed() && vol1.WellFormed() && vol2.WellFormed() && vol3.WellFormed()
    requires Freed(vol0, vol1, z) && (forall c :: c in z <==> c in gone)
    requires Extended(vol1, vol2, [], added)
    requires vol3.fat == vol2.fat && |vol3.data| == |vol2.data|
    ensures Accounted(vol0, vol3, gone, multiset(added))
  {
    assert [] + added == added;
    ChainOnce(vol2, added);
    AddedWereFree(vol1, vol2, [], added);
    forall c: nat ensures InUse(vol3, c) <==> c in multiset(added) || (InUse(vol0, c) && c !in gone) {
      assert c in multiset(added) <==> c in added;
      if vol3.IsCluster(c) && c !in added {
        assert vol2.fat[c] == vol1.fat[c];
      }
    }
  }

  lemma WriteConfined(vol0: Vol, vol1: Vol, vol2: Vol, vol3: Vol, t: Node, at: seq<Name>, k: nat, name: Name,
                      z: set<nat>, added: seq<nat>, x: Slot)
    requires Rewriting(vol0, vol1, t, at, k, name, z)
    requires vol2.WellFormed() && vol3.WellFormed() && Extended(vol1, vol2, [], added)
    requires InData(vol2.data, DirNode(t, at).chain) && k < Count(DirSecs(vol2, DirNode(t, at).chain))
    requires SlotWritten(vol2, vol3, DirNode(t, at).chain, k, x)
    ensures Confined(vol0, vol3, DirNode(t, at), k, x)
  {
    var d := DirNode(t, at);
    DirAfterFree(vol0, vol1, t, at, k, z);
    DirOnDisk(vol0, t, at);
    DirWhileFilling(vol1, vol2, d.chain, added);
    AddedWereFree(vol1, vol2, [], added);
    forall c: nat | InUse(vol0, c) && c !in KidClusters(d.kids[k])
      ensures vol3.fat[c] == vol0.fat[c] && (c !in d.chain ==> vol3.data[c] == vol0.data[c])
    {
      assert vol1.fat[c] == vol0.fat[c] != 0;
    }
  }

  /** x names a file of the given name, chain and size. */
  ghost predicate IsFileSlot(x: Slot, name: Name, ch: seq<nat>, size: nat) {
    IsFileAttr(AttrOf(x)) && IsSlotFor(x, name, AttrOf(x), Head(ch), size)
  }

  /** The volume before and after freeing, filling and writing the slot. */
  ghost predicate Rewritten(vol0: Vol, vol1: Vol, vol2: Vol, vol3: Vol, t: Node, at: seq<Name>, k: nat, name: Name,
                            z: set<nat>, added: seq<nat>, data: seq<Byte>, x: Slot) {
    && Rewriting(vol0, vol1, t, at, k, name, z)
    && vol2.WellFormed() && vol3.WellFormed() && Filled(vol1, vol2, [], added, data)
    && InData(vol2.data, DirNode(t, at).chain) && k < Count(DirSecs(vol2, DirNode(t, at).chain))
    && SlotWritten(vol2, vol3, DirNode(t, at).chain, k, x) && IsFileSlot(x, name, added, |data|)
  }

  lemma RewrittenSlot(vol0: Vol, vol1: Vol, vol2: Vol, vol3: Vol, t: Node, at: seq<Name>, k: nat, name: Name,
                      z: set<nat>, added: seq<nat>, data: seq<Byte>, x: Slot)
    requires Rewritten(vol0, vol1, vol2, vol3, t, at, k, name, z, added, data, x)
    ensures Represents(vol0, t) && Balanced(vol0, t) && DirIn(t, at) && k < |DirNode(t, at).kids|
    ensures Confined(vol0, vol3, DirNode(t, at), k, x) && Tidy(DirSecs(vol3, DirNode(t, at).chain))
    ensures Accounted(vol0, vol3, KidClusters(DirNode(t, at).kids[k]), multiset(added))
    ensures name[0] != 0 && IsFileOrHole(DirNode(t, at).kids[k])
    ensures if IsStorable(name) then DirNode(t, at).kids[k].Item? && DirNode(t, at).kids[k].name == name
            else DirNode(t, at).kids[k].Hole? && name[0] == DELETED
  {
    FilledIsFile(vol1, vol2, added, data);
    hide IsChain, Filled, Extended;
    WriteConfined(vol0, vol1, vol2, vol3, t, at, k, name, z, added, x);
    WriteAccounted(vol0, vol1, vol2, vol3, z, KidClusters(DirNode(t, at).kids[k]), added);
    var s := SlotAt(DirSecs(vol0, DirNode(t, at).chain), k);
    assert s[0] == NameOf(s)[0];
    WriteTidy(vol0, vol3, t, at, k, name, x);
  }

  lemma RewrittenKid(vol0: Vol, vol1: Vol, vol2: Vol, vol3: Vol, t: Node, at: seq<Name>, k: nat, name: Name,
                     z: set<nat>, added: seq<nat>, data: seq<Byte>, x: Slot)
    requires Rewritten(vol0, vol1, vol2, vol3, t, at, k, name, z, added, data, x) && IsStorable(name)
    ensures KidRep(vol3, x, Item(name, File(added, data)))
  {
    var ch := DirNode(t, at).chain;
    FilledIsFile(vol1, vol2, added, data);
    DirAfterFree(vol0, vol1, t, at, k, z);
    DirWhileFilling(vol1, vol2, ch, added);
    hide IsChain, Filled, Extended;
    FileDespiteSlot(vol2, vol3, ch, added, k, x, data);
    FileKid(vol3, x, name, AttrOf(x), added, data);
  }

  /** The tree once the slot points at the new chain. */
  lemma WriteDone(vol0: Vol, vol1: Vol, vol2: Vol, vol3: Vol, t: Node, at: seq<Name>, k: nat, name: Name,
                  z: set<nat>, added: seq<nat>, data: seq<Byte>, x: Slot)
    returns (t': Node)
    requires Rewritten(vol0, vol1, vol2, vol3, t, at, k, name, z, added, data, x) && IsStorable(name)
    ensures vol3.WellFormed() && Represents(vol3, t') && Balanced(vol3, t')
    ensures SetTo(t, t', at + [name], IsFile(added, data))
    ensures DirIn(t, at) && k < |DirNode(t, at).kids|
    ensures Clusters(t') == Clusters(t) - KidClusters(DirNode(t, at).kids[k]) + multiset(added)
  {
    RewrittenSlot(vol0, vol1, vol2, vol3, t, at, k, name, z, added, data, x);
    RewrittenKid(vol0, vol1, vol2, vol3, t, at, k, name, z, added, data, x);
    assert vol0.WellFormed() && vol3.WellFormed() && DirNode(t, at).kids[k].node.File?;
    hide Represents, Balanced, Confined, Tidy, KidRep, Accounted, NodeRep, SetTo, Rewritten;
    t' := ReplaceCommit(vol0, vol3, t, at, k, x, name, added, data);
  }

  /** A name that marks its slot as deleted: the tree is as before, and the new chain belongs to nothing. */
  lemma WriteLost(vol0: Vol, vol1: Vol, vol2: Vol, vol3: Vol, t: Node, at: seq<Name>, k: nat, name: Name,
                  z: set<nat>, added: seq<nat>, data: seq<Byte>, x: Slot)
    requires Rewritten(vol0, vol1, vol2, vol3, t, at, k, name, z, added, data, x) && !IsStorable(name)
    ensures vol3.WellFormed() && Represents(vol3, t)
  {
    RewrittenSlot(vol0, vol1, vol2, vol3, t, at, k, name, z, added, data, x);
    UnstorableKid(vol3, x, name);
    PutKidSame(t, at, k);
    var kids := DirNode(t, at).kids;
    assert kids[k := Hole] == kids;
    SameNameDistinct(vol0, t, at, k, name);
    hide Represents, Balanced, Confined, Tidy, KidRep, NodeRep, Rewritten, Rewriting;
    CommitRep(vol0, vol3, t, at, k, x, Hole);
  }

  lemma SameNameDistinct(vol: Vol, t: Node, at: seq<Name>, k: nat, name: Name)
    requires vol.WellFormed() && Represents(vol, t) && DirIn(t, at) && k < |DirNode(t, at).kids|
    ensures var kids := DirNode(t, at).kids;
            && DistinctKids(kids)
            && (kids[k].Item? && kids[k].name == name ==>
                  forall node: Node :: DistinctKids(kids[k := Item(name, node)]))
  {
    GetRep(vol, t, at);
  }

  lemma WriteTidy(vol0: Vol, vol3: Vol, t: Node, at: seq<Name>, k: nat, name: Name, x: Slot)
    requires vol0.WellFormed() && vol3.WellFormed() && Represents(vol0, t) && DirIn(t, at)
    requires k < |DirNode(t, at).kids| && Confined(vol0, vol3, DirNode(t, at), k, x)
    requires NameOf(x) == name && name[0] != 0
    requires NameOf(SlotAt(DirSecs(vol0, DirNode(t, at).chain), k)) == name
    ensures Tidy(DirSecs(vol3, DirNode(t, at).chain))
  {
    GetRep(vol0, t, at);
    var secs := DirSecs(vol0, DirNode(t, at).chain);
    assert x[0] == NameOf(x)[0] && SlotAt(secs, k)[0] == NameOf(SlotAt(secs, k))[0];
  }

  // ---------- the entry to write to ----------

  /** A file of that name is there, or there is room for one. */
  ghost predicate CanWrite(vol: Vol, t: Node, at: seq<Name>, name: Name) {
    CanInsert(vol, t, at, name) || Stat(t, at + [name]).IsFile?
  }

  function OldChain(e: Entry): seq<nat> {
    if e.IsFile? then e.chain else []
  }

  /** A file found in slot k, its chain just freed. */
  lemma RewritingOld(vol0: Vol, vol: Vol, t: Node, at: seq<Name>, name: Name, ch: seq<nat>)
    requires vol0.WellFormed() && vol.WellFormed() && Represents(vol0, t) && Balanced(vol0, t)
    requires DirIn(t, at) && name[0] != DOT && Stat(t, at + [name]).IsFile? && ch == Stat(t, at + [name]).chain
    requires vol == vol0.(fat := Zeroed(vol0.fat, Elems(ch)))
    ensures InData(vol0.data, DirNode(t, at).chain)
    ensures Rewriting(vol0, vol, t, at, Find(DirSecs(vol0, DirNode(t, at).chain), name), name, Elems(ch))
    ensures |FreeClusters(vol)| == |FreeClusters(vol0)| + |ch|
  {
    var d := DirNode(t, at);
    KidInTree(vol0, t, at, name);
    DirOnDisk(vol0, t, at);
    StepInto(vol0, t, at, name);
    var k := Find(DirSecs(vol0, d.chain), name);
    var x := SlotAt(DirSecs(vol0, d.chain), k);
    assert KidRep(vol0, x, d.kids[k]);
    assert x[0] == NameOf(x)[0];
    FreedChain(vol0, vol, Elems(ch));
    assert forall c :: c in Elems(ch) <==> c in multiset(ch);
    FreedCount(vol0, vol, ch);
  }

  lemma FreedCount(vol0: Vol, vol: Vol, ch: seq<nat>)
    requires vol0.WellFormed() && vol.WellFormed() && (ch != [] ==> IsChain(vol0, ch))
    requires vol == vol0.(fat := Zeroed(vol0.fat, Elems(ch)))
    ensures |FreeClusters(vol)| == |FreeClusters(vol0)| + |ch|
  {
    ChainOnce(vol0, ch);
    assert FreeClusters(vol) == FreeClusters(vol0) + Elems(ch);
    assert FreeClusters(vol0) !! Elems(ch);
    ElemsCount(ch);
  }

  lemma {:induction false} ElemsCount(ch: seq<nat>)
    requires forall c :: multiset(ch)[c] <= 1
    ensures |Elems(ch)| == |ch|
  {
    if ch != [] {
      var front, last := Front(ch), Last(ch);
      assert ch == front + [last];
      assert multiset(ch) == multiset(front) + multiset{last};
      assert forall c :: multiset(front)[c] <= multiset(ch)[c];
      ElemsCount(front);
      assert Elems(ch) == Elems(front) + {last};
      assert multiset(ch)[last] == multiset(front)[last] + 1;
      assert last !in multiset(front);
    }
  }

  /** A slot just created for a new file. */
  lemma RewritingNew(vol: Vol, vol0: Vol, t: Node, t0: Node, at: seq<Name>, name: Name)
    requires vol.WellFormed() && vol0.WellFormed() && Represents(vol0, t0) && Balanced(vol0, t0)
    requires CanInsert(vol, t, at, name) && NewSlotAt(vol, vol0, t, t0, at, name)
    ensures Rewriting(vol0, vol0, t0, at, VacantSlot(vol, t, at), name, {})
    ensures |FreeClusters(vol0)| == |FreeClusters(vol)|
  {
    var k := VacantSlot(vol, t, at);
    var x := SlotAt(DirSecs(vol0, DirNode(t0, at).chain), k);
    assert x[0] == NameOf(x)[0];
    NothingZeroed(vol0.fat);
    assert KidClusters(DirNode(t0, at).kids[k]) == multiset{};
    assert FreeClusters(vol0) == FreeClusters(vol);
  }

  /** The entry that is about to be rewritten: as it was, or new and empty. */
  ghost predicate OpenedEntry(t: Node, t0: Node, at: seq<Name>, name: Name, z: set<nat>) {
    match Stat(t, at + [name])
    case IsFile(ch, _) => t0 == t && z == Elems(ch)
    case Absent => z == {} && if IsStorable(name) then SetTo(t, t0, at + [name], IsFile([], [])) else t0 == t
    case IsDir(_) => false
  }

  /** From vol and t to vol1 and t0: the entry, in slot k, is ready to be rewritten. */
  ghost predicate Opened(vol: Vol, t: Node, vol1: Vol, t0: Node, vol0: Vol, b: Bpb, at: seq<Name>, name: Name,
                         lba: nat, offset: nat, k: nat, z: set<nat>, p: Place)
    requires vol.WellFormed() && vol1.WellFormed()
  {
    && Rewriting(vol0, vol1, t0, at, k, name, z) && OpenedEntry(t, t0, at, name, z)
    && IsAt(vol0, b, DirNode(t0, at).chain, k, lba, offset, p)
    && |FreeClusters(vol1)| == |FreeClusters(vol)| + |OldChain(Stat(t, at + [name]))|
    && Clusters(t0) == Clusters(t)
  }

  /** An entry that is there: its chain is freed. */
  method OpenOld(v: Volume, first: nat, name: Str, ghost at: seq<Name>, ghost lba: nat, ghost offset: nat,
        ghost p: Place)
    returns (ghost z: set<nat>)
    requires Valid(v) && DirIn(v.tree, at) && Stat(v.tree, at + [Fmt(name)]).IsFile?
    requires first == Head(Stat(v.tree, at + [Fmt(name)]).chain)
    requires InData(v.Vol().data, DirNode(v.tree, at).chain)
    requires IsAt(v.Vol(), v.bpb, DirNode(v.tree, at).chain,
                  Find(DirSecs(v.Vol(), DirNode(v.tree, at).chain), Fmt(name)), lba, offset, p)
    modifies v`disk
    ensures v.Mounted()
    ensures Opened(old(v.Vol()), v.tree, v.Vol(), v.tree, old(v.Vol()), v.bpb, at, Fmt(name), lba, offset,
                   Find(DirSecs(old(v.Vol()), DirNode(v.tree, at).chain), Fmt(name)), z, p)
  {
    hide View, Represents, Balanced, Located, Find, Opened, Get, DirIn;
    ghost var vol := v.Vol();
    ghost var ch := Stat(v.tree, at + [Fmt(name)]).chain;
    FmtFirst(name);
    StatChain(vol, v.tree, at + [Fmt(name)]);
    FreeEntryChain(v, first, ch);
    z := Elems(ch);
    OpenedOld(vol, v.Vol(), v.tree, v.bpb, at, Fmt(name), ch, lba, offset, p);
  }

  lemma StatChain(vol: Vol, t: Node, key: seq<Name>)
    requires vol.WellFormed() && Represents(vol, t) && Stat(t, key).IsFile?
    ensures Stat(t, key).chain != [] ==> IsChain(vol, Stat(t, key).chain)
    ensures FileRep(vol, Stat(t, key).chain, Stat(t, key).bytes)
  {
    GetRep(vol, t, key);
  }

  lemma OpenedOld(vol: Vol, vol': Vol, t: Node, b: Bpb, at: seq<Name>, name: Name, ch: seq<nat>,
                  lba: nat, offset: nat, p: Place)
    requires vol.WellFormed() && vol'.WellFormed() && Represents(vol, t) && Balanced(vol, t)
    requires DirIn(t, at) && name[0] != DOT && Stat(t, at + [name]).IsFile? && ch == Stat(t, at + [name]).chain
    requires vol' == vol.(fat := Zeroed(vol.fat, Elems(ch)))
    requires InData(vol.data, DirNode(t, at).chain)
    requires IsAt(vol, b, DirNode(t, at).chain, Find(DirSecs(vol, DirNode(t, at).chain), name), lba, offset, p)
    ensures Opened(vol, t, vol', t, vol, b, at, name, lba, offset,
                   Find(DirSecs(vol, DirNode(t, at).chain), name), Elems(ch), p)
  {
    hide Represents, Balanced, Located, Find, Rewriting, FreeClusters, Get, DirIn, Zeroed, IsAt;
    RewritingOld(vol, vol', t, at, name, ch);
  }

  /** An entry that is new: it is created empty. */
  method OpenNew(v: Volume, dir: nat, name: Str, ghost at: seq<Name>, lba: nat, offset: nat, ghost p: Place)
    requires Valid(v) && IsDirAt(v.tree, at, dir) && CanInsert(v.Vol(), v.tree, at, Fmt(name))
    requires Stat(v.tree, at + [Fmt(name)]).Absent?
    requires IsAt(v.Vol(), v.bpb, DirNode(v.tree, at).chain, VacantSlot(v.Vol(), v.tree, at), lba, offset, p)
    modifies v`disk, v`tree
    ensures v.Mounted()
    ensures Opened(old(v.Vol()), old(v.tree), v.Vol(), v.tree, v.Vol(), v.bpb, at, Fmt(name), lba, offset,
                   VacantSlot(old(v.Vol()), old(v.tree), at), {}, p)
  {
    hide View, NodeRep, Located, First, Rewriting, CanInsert, FreeClusters, SetTo;
    ghost var vol, t := v.Vol(), v.tree;
    DirOnDisk(vol, t, at);
    var fatname := FormatFilename(name);
    CreateFile(v, lba, offset, fatname, dir, at, p);
    IsAtShape(vol, v.Vol(), v.bpb, dir, DirNode(t, at).chain, VacantSlot(vol, t, at), lba, offset, p);
    hide Represents, Balanced;
    RewritingNew(vol, v.Vol(), t, v.tree, at, Fmt(name));
  }

  /** The first half of write_file: the entry is found and its chain freed, or a new entry is made. */
  method OpenForWrite(v: Volume, dir: nat, name: Str, ghost at: seq<Name>)
    returns (ok: bool, lba: nat, offset: nat, ghost vol0: Vol, ghost k: nat, ghost z: set<nat>, ghost p: Place)
    requires Valid(v) && IsDirAt(v.tree, at, dir)
    modifies v`disk, v`tree
    ensures v.Mounted()
    ensures ok <==> CanWrite(old(v.Vol()), old(v.tree), at, Fmt(name))
    ensures !ok ==> v.Vol() == old(v.Vol()) && v.tree == old(v.tree)
    ensures ok ==> Opened(old(v.Vol()), old(v.tree), v.Vol(), v.tree, vol0, v.bpb, at, Fmt(name), lba, offset, k, z, p)
  {
    hide View, Represents, Balanced, NodeRep, Located, Find, First, CanInsert, Opened;
    ghost var vol, t := v.Vol(), v.tree;
    ghost var d := DirNode(t, at);
    OpenDir(v, at, dir, name);
    KidInTree(vol, t, at, Fmt(name));
    vol0, k, z := vol, 0, {};
    var present, entry;
    present, lba, offset, entry, p := FindEntryLocation(v, dir, name, d.chain);
    if present {
      if IsDirSlot(entry) {
        return false, lba, offset, vol0, k, z, p;
      }
      k := Find(DirSecs(vol, d.chain), Fmt(name));
      z := OpenOld(v, ClusterOf(entry), name, at, lba, offset, p);
      return true, lba, offset, vol0, k, z, p;
    }
    var room;
    room, lba, offset, p := FindFreeDirEntry(v, dir, d.chain);
    if !room {
      return false, lba, offset, vol0, k, z, p;
    }
    k := VacantSlot(vol, t, at);
    OpenNew(v, dir, name, at, lba, offset, p);
    vol0 := v.Vol();
    ok := true;
  }

  // ---------- write_file ----------

  /** What a write leaves when the clusters run out: all are taken, every directory is as in the tree, and so is
      every file but the one that was being written. */
  ghost predicate DiskFull(vol: Vol, t: Node, key: seq<Name>) {
    vol.WellFormed() && FreeClusters(vol) == {} && IntactBut(vol, t, key)
  }

  /** The clusters ran out while the new chain was being filled. */
  lemma FullDuringWrite(vol0: Vol, vol1: Vol, vol2: Vol, t: Node, at: seq<Name>, k: nat, name: Name,
                        z: set<nat>, added: seq<nat>)
    requires Rewriting(vol0, vol1, t, at, k, name, z) && vol2.WellFormed() && Extended(vol1, vol2, [], added)
    requires FreeClusters(vol2) == {}
    ensures DiskFull(vol2, t, at + [name])
  {
    AddedWereFree(vol1, vol2, [], added);
    var d := DirNode(t, at);
    SlotOfFile(vol0, t, at, k, name);
    assert z == Elems(KidChain(d.kids[k])) by {
      assert forall c :: c in KidChain(d.kids[k]) <==> c in multiset(KidChain(d.kids[k]));
      FileKidClusters(d.kids[k]);
    }
    forall c: nat | InUse(vol0, c) && c !in z
      ensures vol2.fat[c] == vol0.fat[c] && vol2.data[c] == vol0.data[c]
    {
      assert vol1.fat[c] == vol0.fat[c] != 0;
    }
    hide NodeRep, FreeClusters, Balanced, Clusters;
    IntactAfter(vol0, vol2, t, at + [name], z);
  }

  lemma SlotOfFile(vol: Vol, t: Node, at: seq<Name>, k: nat, name: Name)
    requires vol.WellFormed() && Represents(vol, t) && DirIn(t, at) && k < |DirNode(t, at).kids|
    ensures var kid := DirNode(t, at).kids[k];
            kid.Item? && kid.name == name ==> Get(t, at + [name]) == Some(kid.node)
  {
    var d := DirNode(t, at);
    if d.kids[k].Item? && d.kids[k].name == name {
      GetRep(vol, t, at);
      IndexOfIs(d.kids, name, k);
      GetAppend(t, at, [name]);
      assert Get(d.kids[k].node, []) == Some(d.kids[k].node);
    }
  }

  /** Reads the slot again, and writes it back with another first cluster and size. */
  method RelinkSlot(v: Volume, lba: nat, offset: nat, first: Word, size: Dword,
                    ghost ch: seq<nat>, ghost k: nat, ghost p: Place)
    returns (ghost x: Slot)
    requires v.Mounted() && IsDirChain(v.Vol(), Head(ch), ch) && IsAt(v.Vol(), v.bpb, ch, k, lba, offset, p)
    modifies v`disk
    ensures v.Mounted() && x == Relinked(SlotAt(DirSecs(old(v.Vol()), ch), k), first, size)
    ensures SlotWritten(old(v.Vol()), v.Vol(), ch, k, x)
  {
    hide View, Located, SlotWritten;
    var slot := ReadSlot(v, lba, offset, ch, k, p);
    x := Relinked(slot, first, size);
    WriteSlot(v, lba, offset, Relinked(slot, first, size), Head(ch), ch, k, p);
  }

  /** The second half of write_file: a new chain is filled and the entry pointed at it. */
  method Rewrite(v: Volume, lba: nat, offset: nat, data: seq<Byte>, name: Str,
                 ghost vol0: Vol, ghost at: seq<Name>, ghost k: nat, ghost z: set<nat>, ghost p: Place)
    returns (ok: bool, ghost added: seq<nat>, ghost vol2: Vol, ghost x: Slot)
    requires v.Mounted() && Rewriting(vol0, v.Vol(), v.tree, at, k, Fmt(name), z) && |data| < 0x1_0000_0000
    requires IsAt(vol0, v.bpb, DirNode(v.tree, at).chain, k, lba, offset, p)
    modifies v`disk
    ensures v.Mounted()
    ensures ok <==> Need(vol0.spc, |data|) <= |FreeClusters(old(v.Vol()))|
    ensures !ok ==> DiskFull(v.Vol(), v.tree, at + [Fmt(name)])
    ensures ok ==> Rewritten(vol0, old(v.Vol()), vol2, v.Vol(), v.tree, at, k, Fmt(name), z, added, data, x)
  {
    hide View, Rewriting, Filled, Extended, FreeClusters, IsAt, DiskFull, Need, IsDirChain, DirIn;
    ghost var vol1 := v.Vol();
    StartFilling(vol0, vol1, v.bpb, v.tree, at, k, Fmt(name), z, lba, offset, p);
    ghost var ch := DirNode(v.tree, at).chain;
    var first;
    ok, first, added := AppendClusters(v, 0, data, 0, [], []);
    vol2, x := v.Vol(), Zeros(32);
    if !ok {
      FullDuringWrite(vol0, vol1, vol2, v.tree, at, k, Fmt(name), z, added);
      return;
    }
    FirstIsWord(vol1, vol2, added, data);
    WhileFilling(vol0, vol1, vol2, v.bpb, v.tree, at, k, Fmt(name), z, added, lba, offset, p);
    x := RelinkSlot(v, lba, offset, first, |data|, ch, k, p);
    assert IsFileSlot(x, Fmt(name), added, |data|);
    assert Rewritten(vol0, vol1, vol2, v.Vol(), v.tree, at, k, Fmt(name), z, added, data, x);
  }

  lemma FirstIsWord(vol1: Vol, vol2: Vol, added: seq<nat>, data: seq<Byte>)
    requires vol1.WellFormed() && vol2.WellFormed() && Filled(vol1, vol2, [], added, [] + data[0..])
    ensures Extended(vol1, vol2, [], added) && Head(added) < 0x1_0000 && [] + data[0..] == data
  {
    assert [] + added == added;
    assert added != [] ==> vol2.IsCluster(added[0]);
  }

  /** Before the first cluster: nothing is filled, and the slot is where it was. */
  lemma StartFilling(vol0: Vol, vol1: Vol, b: Bpb, t: Node, at: seq<Name>, k: nat, name: Name, z: set<nat>,
                     lba: nat, offset: nat, p: Place)
    requires Rewriting(vol0, vol1, t, at, k, name, z) && IsAt(vol0, b, DirNode(t, at).chain, k, lba, offset, p)
    ensures DirIn(t, at) && vol1.spc == vol0.spc && Filled(vol1, vol1, [], [], []) && IsTail([], 0)
  {
    assert Cat(vol1.data, []) == [];
  }

  /** After the last cluster: the slot is where it was, with the name and attributes it had. */
  lemma WhileFilling(vol0: Vol, vol1: Vol, vol2: Vol, b: Bpb, t: Node, at: seq<Name>, k: nat, name: Name,
                     z: set<nat>, added: seq<nat>, lba: nat, offset: nat, p: Place)
    requires Rewriting(vol0, vol1, t, at, k, name, z) && IsAt(vol0, b, DirNode(t, at).chain, k, lba, offset, p)
    requires vol2.WellFormed() && Extended(vol1, vol2, [], added)
    ensures var ch := DirNode(t, at).chain;
            && InData(vol2.data, ch) && IsDirChain(vol2, Head(ch), ch) && IsAt(vol2, b, ch, k, lba, offset, p)
            && k < Count(DirSecs(vol2, ch))
            && NameOf(SlotAt(DirSecs(vol2, ch), k)) == name && IsFileAttr(AttrOf(SlotAt(DirSecs(vol2, ch), k)))
  {
    var ch := DirNode(t, at).chain;
    DirAfterFree(vol0, vol1, t, at, k, z);
    DirOnDisk(vol0, t, at);
    DirWhileFilling(vol1, vol2, ch, added);
    assert ch != [] ==> vol2.IsCluster(ch[0]);
    IsAtShape(vol1, vol2, b, Head(ch), ch, k, lba, offset, p);
  }

  /** The file `key` holds data, in a chain of its own; no other path looks up differently. */
  ghost predicate Wrote(t: Node, t': Node, key: seq<Name>, data: seq<Byte>) {
    && Stat(t', key).IsFile? && Stat(t', key).bytes == data
    && SetTo(t, t', key, Stat(t', key))
    && Clusters(t') == Clusters(t) - multiset(OldChain(Stat(t, key))) + multiset(Stat(t', key).chain)
  }

  /** The chain takes from the free clusters what it grows by: their numbers add up to the same. */
  lemma FreeAfter(vol: Vol, vol': Vol, t: Node, t': Node, key: seq<Name>, data: seq<Byte>)
    requires vol.WellFormed() && vol'.WellFormed() && |vol'.data| == |vol.data|
    requires Balanced(vol, t) && Balanced(vol', t') && Wrote(t, t', key, data)
    ensures |FreeClusters(vol')| + |Stat(t', key).chain| == |FreeClusters(vol)| + |OldChain(Stat(t, key))|
  {
    hide Balanced, FreeClusters, Stat;
    Conservation(vol, t);
    Conservation(vol', t');
    OldChainIn(t, key);
  }

  lemma OldChainIn(t: Node, key: seq<Name>)
    ensures multiset(OldChain(Stat(t, key))) <= Clusters(t)
  {
    if Stat(t, key).IsFile? {
      GetClusters(t, key);
    }
  }

  lemma WroteInAll(vol: Vol, t: Node, vol0: Vol, vol1: Vol, vol2: Vol, vol3: Vol, t0: Node, b: Bpb,
                   at: seq<Name>, name: Name, lba: nat, offset: nat, k: nat, z: set<nat>, p: Place,
                   added: seq<nat>, data: seq<Byte>, x: Slot)
    returns (t': Node)
    requires vol.WellFormed() && vol1.WellFormed() && Represents(vol, t) && Balanced(vol, t)
    requires Opened(vol, t, vol1, t0, vol0, b, at, name, lba, offset, k, z, p)
    requires Rewritten(vol0, vol1, vol2, vol3, t0, at, k, name, z, added, data, x) && IsStorable(name)
    ensures vol3.WellFormed() && Represents(vol3, t') && Balanced(vol3, t') && Wrote(t, t', at + [name], data)
  {
    var key := at + [name];
    t' := WriteDone(vol0, vol1, vol2, vol3, t0, at, k, name, z, added, data, x);
    KidOfEntry(vol0, vol1, t, t0, at, k, name, z);
    assert SetTo(t, t', key, IsFile(added, data));
  }

  lemma KidOfEntry(vol0: Vol, vol1: Vol, t: Node, t0: Node, at: seq<Name>, k: nat, name: Name, z: set<nat>)
    requires Rewriting(vol0, vol1, t0, at, k, name, z) && OpenedEntry(t, t0, at, name, z) && IsStorable(name)
    ensures KidClusters(DirNode(t0, at).kids[k]) == multiset(OldChain(Stat(t, at + [name])))
    ensures forall q :: q != at + [name] ==> Stat(t0, q) == Stat(t, q)
  {
    var kid := DirNode(t0, at).kids[k];
    SlotOfFile(vol0, t0, at, k, name);
    FileKidClusters(kid);
    assert Stat(t0, at + [name]) == IsFile(KidChain(kid), kid.node.bytes);
  }

  /** Writes `data` to the file `name` of the directory at `at`. */
  method WriteIn(v: Volume, dir: nat, name: Str, data: seq<Byte>, ghost at: seq<Name>) returns (r: bool)
    requires Valid(v) && IsDirAt(v.tree, at, dir) && |data| < 0x1_0000_0000
    modifies v`disk, v`tree
    ensures v.Mounted()
    ensures r <==> WriteFits(old(v.Vol()), old(v.tree), at, Fmt(name), |data|)
    ensures r ==> if IsStorable(Fmt(name)) then Valid(v) && Wrote(old(v.tree), v.tree, at + [Fmt(name)], data)
                  else Holding(v) && v.tree == old(v.tree)
    ensures !r ==> if CanWrite(old(v.Vol()), old(v.tree), at, Fmt(name)) then
                     DiskFull(v.Vol(), v.tree, at + [Fmt(name)]) && KeptOrCreated(old(v.tree), v.tree, at + [Fmt(name)])
                   else v.Vol() == old(v.Vol()) && v.tree == old(v.tree)
  {
    hide View, Represents, Balanced, Opened, CanWrite, DiskFull, Rewritten, IsAt, Rewriting, Wrote, FreeClusters, Need,
      OldChain, Stat, IsStorable, OpenedEntry, KeptOrCreated;
    ghost var vol, t := v.Vol(), v.tree;
    assert v.Mounted() && Represents(vol, t) && Balanced(vol, t);
    var lba, offset;
    ghost var vol0, k, z, p;
    r, lba, offset, vol0, k, z, p := OpenForWrite(v, dir, name, at);
    if !r {
      WriteRefused(vol, t, at, Fmt(name), |data|);
      return;
    }
    ghost var vol1, t0 := v.Vol(), v.tree;
    OpenedFacts(vol, t, vol1, t0, vol0, v.bpb, at, Fmt(name), lba, offset, k, z, p, |data|);
    ghost var added, vol2, x;
    r, added, vol2, x := Rewrite(v, lba, offset, data, name, vol0, at, k, z, p);
    if r {
      v.tree := WriteEnds(vol, t, vol0, vol1, vol2, v.Vol(), t0, v.bpb, at, Fmt(name), lba, offset, k, z, p,
                          added, data, x);
      ValidIf(v, IsStorable(Fmt(name)));
    }
  }

  /** The write succeeds exactly if there is an entry to write to, and clusters enough once its own are freed. */
  ghost predicate WriteFits(vol: Vol, t: Node, at: seq<Name>, name: Name, size: nat)
    requires vol.WellFormed()
  {
    CanWrite(vol, t, at, name) && Need(vol.spc, size) <= |FreeClusters(vol)| + |OldChain(Stat(t, at + [name]))|
  }

  ghost predicate KeptOrCreated(t: Node, t': Node, key: seq<Name>) {
    t' == t || SetTo(t, t', key, IsFile([], []))
  }

  lemma WriteRefused(vol: Vol, t: Node, at: seq<Name>, name: Name, size: nat)
    requires vol.WellFormed() && !CanWrite(vol, t, at, name)
    ensures !WriteFits(vol, t, at, name, size)
  {
  }

  lemma OpenedFacts(vol: Vol, t: Node, vol1: Vol, t0: Node, vol0: Vol, b: Bpb, at: seq<Name>, name: Name,
                    lba: nat, offset: nat, k: nat, z: set<nat>, p: Place, size: nat)
    requires vol.WellFormed() && vol1.WellFormed() && vol1.spc == vol.spc && CanWrite(vol, t, at, name)
    requires Opened(vol, t, vol1, t0, vol0, b, at, name, lba, offset, k, z, p)
    ensures Rewriting(vol0, vol1, t0, at, k, name, z) && IsAt(vol0, b, DirNode(t0, at).chain, k, lba, offset, p)
    ensures WriteFits(vol, t, at, name, size) <==> Need(vol0.spc, size) <= |FreeClusters(vol1)|
    ensures KeptOrCreated(t, t0, at + [name])
  {
    hide IsAt, Represents, Balanced, NodeRep;
  }

  lemma WriteEnds(vol: Vol, t: Node, vol0: Vol, vol1: Vol, vol2: Vol, vol3: Vol, t0: Node, b: Bpb,
                  at: seq<Name>, name: Name, lba: nat, offset: nat, k: nat, z: set<nat>, p: Place,
                  added: seq<nat>, data: seq<Byte>, x: Slot)
    returns (t': Node)
    requires vol.WellFormed() && vol1.WellFormed() && Represents(vol, t) && Balanced(vol, t)
    requires Opened(vol, t, vol1, t0, vol0, b, at, name, lba, offset, k, z, p)
    requires Rewritten(vol0, vol1, vol2, vol3, t0, at, k, name, z, added, data, x) && CanWrite(vol, t, at, name)
    ensures vol3.WellFormed() && Represents(vol3, t')
    ensures if IsStorable(name) then Balanced(vol3, t') && Wrote(t, t', at + [name], data) else t' == t
  {
    if IsStorable(name) {
      t' := WroteInAll(vol, t, vol0, vol1, vol2, vol3, t0, b, at, name, lba, offset, k, z, p, added, data, x);
    } else {
      WriteLost(vol0, vol1, vol2, vol3, t0, at, k, name, z, added, data, x);
      UnstorableNew(vol, t, at, name);
      t' := t;
    }
  }

  /** No file of the tree has a name that starts with the deleted mark. */
  lemma UnstorableNew(vol: Vol, t: Node, at: seq<Name>, name: Name)
    requires vol.WellFormed() && Represents(vol, t) && name[0] == DELETED && CanWrite(vol, t, at, name)
    ensures Stat(t, at + [name]).Absent?
  {
    GetAppend(t, at, [name]);
    if DirIn(t, at) {
      DirOnDisk(vol, t, at);
      KidNamesLive(vol, DirNode(t, at));
    }
  }

  lemma KidNamesLive(vol: Vol, d: Node)
    requires vol.WellFormed() && NodeRep(vol, d) && d.Dir?
    ensures forall k :: 0 <= k < |d.kids| && d.kids[k].Item? ==> d.kids[k].name[0] != DELETED
  {
    forall k | 0 <= k < |d.kids| && d.kids[k].Item? ensures d.kids[k].name[0] != DELETED {
      var s := SlotAt(DirSecs(vol, d.chain), k);
      assert KidRep(vol, s, d.kids[k]);
      assert s[0] == NameOf(s)[0];
    }
  }

  /** A path's last name never starts with NUL or a dot. */
  lemma KeyFirst(cwd: Str, path: Str)
    ensures KeyOf(cwd, path) != [] ==> Last(KeyOf(cwd, path))[0] != DOT && Last(KeyOf(cwd, path))[0] != 0
  {
    var comps := Resolved(cwd, path);
    if comps != [] {
      KeySplit(comps);
      FmtFirst(Last(comps));
    }
  }

  /** A file of the tree has a name that a slot can hold. */
  lemma KeyStorable(vol: Vol, t: Node, cwd: Str, path: Str)
    requires vol.WellFormed() && Represents(vol, t) && Stat(t, KeyOf(cwd, path)).IsFile?
    ensures KeyOf(cwd, path) != [] && IsStorable(Last(KeyOf(cwd, path)))
  {
    hide KeyOf, NodeRep;
    var key := KeyOf(cwd, path);
    KeyFirst(cwd, path);
    assert key != [] && key == Front(key) + [Last(key)];
    GetAppend(t, Front(key), [Last(key)]);
    GetRep(vol, t, Front(key));
    KidNamesLive(vol, Get(t, Front(key)).value);
  }

  lemma ValidIf(v: Volume, storable: bool)
    requires v.Mounted() && Represents(v.Vol(), v.tree) && (storable ==> Balanced(v.Vol(), v.tree))
    ensures Holding(v) && (storable ==> Valid(v))
  {
  }

  /** The contract of write_file, from vol and t to vol' and t'. */
  ghost predicate WriteOutcome(vol: Vol, vol': Vol, t: Node, t': Node, key: seq<Name>, data: seq<Byte>, r: bool) {
    && vol.WellFormed() && vol'.WellFormed()
    && (r <==> key != [] && WriteFits(vol, t, Front(key), Last(key), |data|))
    && if r then
         Represents(vol', t') && if IsStorable(Last(key)) then Balanced(vol', t')
                  && Wrote(t, t', key, data) else t' == t
       else if key != [] && CanWrite(vol, t, Front(key), Last(key)) then
         DiskFull(vol', t', key) && KeptOrCreated(t, t', key)
       else vol' == vol && t' == t
  }

  /** Replaces the contents of the file that `path` names, or creates it. */
  method WriteFile(v: Volume, path: Str, data: seq<Byte>) returns (r: bool)
    requires Valid(v) && FitsBuffers(v.currentPath, path) && |data| < 0x1_0000_0000
    modifies v`disk, v`tree
    ensures v.Mounted()
    ensures if path == [] then !r && v.Vol() == old(v.Vol()) && v.tree == old(v.tree)
            else WriteOutcome(old(v.Vol()), v.Vol(), old(v.tree), v.tree, KeyOf(v.currentPath, path), data, r)
  {
    hide View, Wrote, DiskFull, FitsBuffers, CanWrite, KeyOf, Need, FreeClusters, OldChain, IsStorable, KeptOrCreated;
    if path == [] {
      return false;
    }
    ghost var key := KeyOf(v.currentPath, path);
    var ok, parentCluster, filename := ResolveParent(v, path);
    if key != [] {
      NoWriteWithoutParent(v.Vol(), v.tree, key);
    }
    if !ok {
      return false;
    }
    r := WriteIn(v, parentCluster, filename, data, Front(key));
  }

  lemma NoWriteWithoutParent(vol: Vol, t: Node, key: seq<Name>)
    requires key != []
    ensures !DirIn(t, Front(key)) ==> !CanWrite(vol, t, Front(key), Last(key))
  {
    assert key == Front(key) + [Last(key)];
    GetAppend(t, Front(key), [Last(key)]);
  }
}
