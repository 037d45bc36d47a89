/** Creating and removing directory entries: the steps that touch, mkdir, rm, rmdir, rm_rf, write_file and mv share. */
module Entries {
  import opened Bytes
  import opened Layout
  import opened Chains
  import opened Content
  import opened Slots
  import opened Names
  import opened VolumeState
  import opened Directory
  import opened Nodes
  import opened Tree
  import opened TreePaths
  import opened TreeOps
  import opened Resolve
  import opened Accounting

  /** A vacant slot for a new entry. */
  ghost predicate HasRoom(vol: Vol, d: Node) {
    InData(vol.data, d.chain) && First(DirSecs(vol, d.chain), Vacant) < Count(DirSecs(vol, d.chain))
  }

  /** A name that a slot can hold: one starting with the deleted mark makes the slot a deleted one. */
  predicate IsStorable(name: Name) {
    name[0] != 0 && name[0] != DOT && name[0] != DELETED
  }

  lemma FmtStorable(s: seq<Char>)
    ensures IsStorable(Fmt(s)) <==> !(|s| > 0 && s[0] == DELETED)
  {
    FmtFirst(s);
  }

  /** Filling the first vacant slot keeps a directory tidy. */
  lemma TidyFilled(secs: seq<Sector>, k: nat, x: Slot)
    requires Tidy(secs) && k == First(secs, Vacant) && k < Count(secs) && !IsEnd(x)
    ensures Tidy(SetSlot(secs, k, x))
  {
  }

  /** Changing a slot that is no end marker into another that is none keeps a directory tidy if both or neither
      are vacant, or if the slot becomes vacant. */
  lemma TidyChanged(secs: seq<Sector>, k: nat, x: Slot)
    requires Tidy(secs) && k < Count(secs) && !IsVacant(SlotAt(secs, k)) && !IsEnd(x)
    ensures Tidy(SetSlot(secs, k, x))
  {
  }

  /** The slot under which a new name goes, seen in the tree: a hole, and the name is new. */
  lemma VacantKid(vol: Vol, d: Node, name: Name)
    requires vol.WellFormed() && NodeRep(vol, d) && d.Dir? && InData(vol.data, d.chain)
    requires HasRoom(vol, d) && IndexOf(d.kids, name) == |d.kids|
    ensures var k := First(DirSecs(vol, d.chain), Vacant);
            && k < |d.kids| && d.kids[k].Hole?
            && forall node: Node :: DistinctKids(d.kids[k := Item(name, node)])
  {
    var k := First(DirSecs(vol, d.chain), Vacant);
    assert KidRep(vol, SlotAt(DirSecs(vol, d.chain), k), d.kids[k]);
  }

  /** A slot written and nothing else: touch, and the marking of a slot whose chain is dealt with apart. */
  lemma SlotConfined(vol: Vol, vol': Vol, t: Node, path: seq<Name>, k: nat, x: Slot)
    requires vol.WellFormed() && vol'.WellFormed() && Represents(vol, t)
    requires DirIn(t, path) && k < |DirNode(t, path).kids| && InData(vol.data, DirNode(t, path).chain)
    requires k < Count(DirSecs(vol, DirNode(t, path).chain))
    requires SlotWritten(vol, vol', DirNode(t, path).chain, k, x)
    ensures Confined(vol, vol', DirNode(t, path), k, x)
  {
    DirOnDisk(vol, t, path);
  }

  predicate IsFileAttr(a: Byte) {
    a / ATTR_DIR % 2 == 0 && a != LONG_NAME
  }

  /** A slot that names a file. */
  lemma FileKid(vol: Vol, x: Slot, name: Name, attr: Byte, ch: seq<nat>, bytes: seq<Byte>)
    requires vol.WellFormed() && IsStorable(name)
    requires IsSlotFor(x, name, attr, Head(ch), |bytes|) && IsFileAttr(attr)
    requires FileRep(vol, ch, bytes)
    ensures KidRep(vol, x, Item(name, File(ch, bytes)))
  {
    assert x[0] == NameOf(x)[0];
  }

  lemma EmptyFile(vol: Vol)
    requires vol.WellFormed()
    ensures FileRep(vol, [], [])
  {
  }

  /** A slot whose name starts with the deleted mark names nothing. */
  lemma UnstorableKid(vol: Vol, x: Slot, name: Name)
    requires vol.WellFormed() && NameOf(x) == name && name[0] == DELETED
    ensures KidRep(vol, x, Hole)
  {
    assert x[0] == NameOf(x)[0];
  }

  lemma SameFatAccounted(vol: Vol, vol': Vol)
    requires vol.WellFormed() && vol'.WellFormed() && vol'.fat == vol.fat && |vol'.data| == |vol.data|
    ensures Accounted(vol, vol', multiset{}, multiset{})
  {
  }

  /** A new name can go into the directory at `at`. */
  ghost predicate CanInsert(vol: Vol, t: Node, at: seq<Name>, name: Name) {
    DirIn(t, at) && HasRoom(vol, DirNode(t, at)) && Get(t, at + [name]).None? && name[0] != 0 && name[0] != DOT
  }

  lemma InsertAt(vol: Vol, t: Node, at: seq<Name>, name: Name)
    requires vol.WellFormed() && Represents(vol, t) && CanInsert(vol, t, at, name)
    ensures var d := DirNode(t, at);
            var k := First(DirSecs(vol, d.chain), Vacant);
            && k < |d.kids| && d.kids[k] == Hole && KidClusters(d.kids[k]) == multiset{}
            && DistinctKids(d.kids) && (forall node: Node :: DistinctKids(d.kids[k := Item(name, node)]))
            && |d.kids| == Count(DirSecs(vol, d.chain)) && Tidy(DirSecs(vol, d.chain))
  {
    DirOnDisk(vol, t, at);
    StepInto(vol, t, at, name);
    VacantKid(vol, DirNode(t, at), name);
  }

  ghost function VacantSlot(vol: Vol, t: Node, at: seq<Name>): nat
    requires DirIn(t, at) && InData(vol.data, DirNode(t, at).chain)
  {
    First(DirSecs(vol, DirNode(t, at).chain), Vacant)
  }

  lemma InsertTidy(vol: Vol, vol': Vol, t: Node, at: seq<Name>, name: Name, x: Slot)
    requires vol.WellFormed() && vol'.WellFormed() && Represents(vol, t) && CanInsert(vol, t, at, name) && !IsEnd(x)
    requires VacantSlot(vol, t, at) < |DirNode(t, at).kids|
    requires Confined(vol, vol', DirNode(t, at), VacantSlot(vol, t, at), x)
    ensures Tidy(DirSecs(vol', DirNode(t, at).chain))
  {
    InsertAt(vol, t, at, name);
    TidyFilled(DirSecs(vol, DirNode(t, at).chain), VacantSlot(vol, t, at), x);
  }

  lemma LiveNotEnd(vol: Vol, x: Slot, name: Name, node: Node)
    requires vol.WellFormed() && KidRep(vol, x, Item(name, node))
    ensures !IsEnd(x)
  {
  }

  /** A new entry in the first vacant slot, naming a file or an empty directory made of free clusters. */
  lemma InsertCommit(vol: Vol, vol': Vol, t: Node, at: seq<Name>, name: Name, x: Slot, node: Node) returns (t': Node)
    requires vol.WellFormed() && vol'.WellFormed() && Represents(vol, t) && Balanced(vol, t)
    requires CanInsert(vol, t, at, name) && VacantSlot(vol, t, at) < |DirNode(t, at).kids|
    requires Confined(vol, vol', DirNode(t, at), VacantSlot(vol, t, at), x)
    requires KidRep(vol', x, Item(name, node))
    requires Accounted(vol, vol', multiset{}, Clusters(node))
    requires node.File? || forall i :: 0 <= i < |node.kids| ==> node.kids[i].Hole?
    ensures Represents(vol', t') && Balanced(vol', t') && SetTo(t, t', at + [name], Stat(node, []))
    ensures t' == PutKid(t, at, VacantSlot(vol, t, at), Item(name, node))
  {
    var k := VacantSlot(vol, t, at);
    InsertAt(vol, t, at, name);
    LiveNotEnd(vol', x, name, node);
    InsertTidy(vol, vol', t, at, name, x);
    var kid := Item(name, node);
    assert KidClusters(kid) == Clusters(node);
    t' := PutKid(t, at, k, kid);
    assert DirIn(t, at) && Get(t, at + [name]).None?;
    hide Represents, Balanced, Confined, CanInsert, KidRep, Accounted, SetTo, PutKid, Tidy, NodeRep;
    Commit(vol, vol', t, at, k, x, kid);
    StatSet(vol, t, at, k, name, node);
  }

  /** The file in slot k replaced by another of the same name. */
  lemma ReplaceCommit(vol: Vol, vol': Vol, t: Node, at: seq<Name>, k: nat, x: Slot, name: Name, ch: seq<nat>,
        bytes: seq<Byte>)
    returns (t': Node)
    requires vol.WellFormed() && vol'.WellFormed() && Represents(vol, t) && Balanced(vol, t)
    requires DirIn(t, at) && k < |DirNode(t, at).kids|
    requires var kid := DirNode(t, at).kids[k]; kid.Item? && kid.name == name && kid.node.File?
    requires Confined(vol, vol', DirNode(t, at), k, x) && Tidy(DirSecs(vol', DirNode(t, at).chain))
    requires KidRep(vol', x, Item(name, File(ch, bytes)))
    requires Accounted(vol, vol', KidClusters(DirNode(t, at).kids[k]), multiset(ch))
    ensures Represents(vol', t') && Balanced(vol', t') && SetTo(t, t', at + [name], IsFile(ch, bytes))
    ensures Clusters(t') == Clusters(t) - KidClusters(DirNode(t, at).kids[k]) + multiset(ch)
  {
    hide Represents, Balanced, Confined, Tidy, KidRep, Accounted, NodeRep, SetTo, DistinctKids, Clusters, KidsClusters,
      KidClusters, PutKid;
    ReplaceFacts(vol, t, at, k, name, ch, bytes);
    t' := PutKid(t, at, k, Item(name, File(ch, bytes)));
    Commit(vol, vol', t, at, k, x, Item(name, File(ch, bytes)));
  }

  lemma DistinctReplaced(kids: seq<Kid>, k: nat, kid: Kid)
    requires DistinctKids(kids) && k < |kids| && kids[k].Item? && kid.Item? && kid.name == kids[k].name
    ensures DistinctKids(kids[k := kid])
  {
    var kids' := kids[k := kid];
    forall i, j | 0 <= i < j < |kids'| && kids'[i].Item? && kids'[j].Item? ensures kids'[i].name != kids'[j].name {
      assert kids[i].Item? && kids[j].Item? && kids'[i].name == kids[i].name && kids'[j].name == kids[j].name;
    }
  }

  lemma ReplaceFacts(vol: Vol, t: Node, at: seq<Name>, k: nat, name: Name, ch: seq<nat>, bytes: seq<Byte>)
    requires vol.WellFormed() && Represents(vol, t) && DirIn(t, at) && k < |DirNode(t, at).kids|
    requires var kid := DirNode(t, at).kids[k]; kid.Item? && kid.name == name && kid.node.File?
    ensures var kid := Item(name, File(ch, bytes));
            && DistinctKids(DirNode(t, at).kids[k := kid])
            && KidClusters(kid) == multiset(ch)
            && SetTo(t, PutKid(t, at, k, kid), at + [name], IsFile(ch, bytes))
            && Clusters(PutKid(t, at, k, kid)) == Clusters(t) - KidClusters(DirNode(t, at).kids[k]) + multiset(ch)
  {
    hide NodeRep, DistinctKids, PutKid;
    var kid := Item(name, File(ch, bytes));
    GetRep(vol, t, at);
    DistinctReplaced(DirNode(t, at).kids, k, kid);
    assert KidClusters(kid) == multiset(ch);
    assert Stat(kid.node, []) == IsFile(ch, bytes);
    PutKidClusters(t, at, k, kid);
    StatSet(vol, t, at, k, name, kid.node);
  }

  /** The same for a name that leaves the slot marked as deleted: the tree is as before. */
  lemma InsertHole(vol: Vol, vol': Vol, t: Node, at: seq<Name>, name: Name, x: Slot)
    requires vol.WellFormed() && vol'.WellFormed() && Represents(vol, t) && Balanced(vol, t)
    requires CanInsert(vol, t, at, name) && VacantSlot(vol, t, at) < |DirNode(t, at).kids|
    requires Confined(vol, vol', DirNode(t, at), VacantSlot(vol, t, at), x)
    requires NameOf(x) == name && name[0] == DELETED
    ensures Represents(vol', t)
    ensures Accounted(vol, vol', multiset{}, multiset{}) ==> Balanced(vol', t)
  {
    var k := VacantSlot(vol, t, at);
    InsertAt(vol, t, at, name);
    UnstorableKid(vol', x, name);
    assert x[0] == NameOf(x)[0];
    InsertTidy(vol, vol', t, at, name, x);
    var kids := DirNode(t, at).kids;
    assert kids[k := Hole] == kids && KidClusters(Hole) == multiset{};
    PutKidSame(t, at, k);
    hide Represents, Balanced, Confined, CanInsert, KidRep, Accounted, PutKid, Tidy, NodeRep;
    CommitRep(vol, vol', t, at, k, x, Hole);
    if Accounted(vol, vol', multiset{}, multiset{}) {
      Commit(vol, vol', t, at, k, x, Hole);
    }
  }

  /** A lookup of `name` in the directory at `at`, whose first cluster is c: on disk and in the tree. */
  lemma LookDir(v: Volume, at: seq<Name>, c: nat, name: Str)
    requires Holding(v) && IsDirAt(v.tree, at, c)
    ensures v.Mounted() && Represents(v.Vol(), v.tree)
    ensures DirIn(v.tree, at) && Fmt(name)[0] != 0 && Fmt(name)[0] != DOT
    ensures var d := DirNode(v.tree, at);
            InData(v.Vol().data, d.chain)
    ensures var d := DirNode(v.tree, at);
            var secs := DirSecs(v.Vol(), d.chain);
            && IsDirChain(v.Vol(), c, d.chain)
            && Count(secs) == |d.kids|
            && Find(secs, Fmt(name)) == IndexOf(d.kids, Fmt(name)) <= |d.kids|
            && (Stat(v.tree, at + [Fmt(name)]).Absent? <==> Find(secs, Fmt(name)) == |d.kids|)
  {
    FmtFirst(name);
    DirOnDisk(v.Vol(), v.tree, at);
    StepInto(v.Vol(), v.tree, at, Fmt(name));
  }

  /** The same for an operation that changes the directory. */
  lemma OpenDir(v: Volume, at: seq<Name>, c: nat, name: Str)
    requires Valid(v) && IsDirAt(v.tree, at, c)
    ensures v.Mounted() && Represents(v.Vol(), v.tree) && Balanced(v.Vol(), v.tree)
    ensures DirIn(v.tree, at) && Fmt(name)[0] != 0 && Fmt(name)[0] != DOT
    ensures var d := DirNode(v.tree, at);
            InData(v.Vol().data, d.chain)
    ensures var d := DirNode(v.tree, at);
            var secs := DirSecs(v.Vol(), d.chain);
            && IsDirChain(v.Vol(), c, d.chain)
            && Count(secs) == |d.kids|
            && Find(secs, Fmt(name)) == IndexOf(d.kids, Fmt(name)) <= |d.kids|
            && First(secs, Vacant) <= |d.kids|
            && (First(secs, Vacant) == VacantSlot(v.Vol(), v.tree, at))
            && (HasRoom(v.Vol(), d) <==> First(secs, Vacant) < |d.kids|)
            && (Stat(v.tree, at + [Fmt(name)]).Absent? <==> Find(secs, Fmt(name)) == |d.kids|)
            && (CanInsert(v.Vol(), v.tree, at, Fmt(name)) <==>
                Find(secs, Fmt(name)) == |d.kids| && First(secs, Vacant) < |d.kids|)
  {
    LookDir(v, at, c, name);
    StepInto(v.Vol(), v.tree, at, Fmt(name));
  }

  lemma OpenAt(v: Volume, at: seq<Name>, c: nat)
    requires Valid(v) && IsDirAt(v.tree, at, c)
    ensures v.Mounted() && Represents(v.Vol(), v.tree) && Balanced(v.Vol(), v.tree) && DirIn(v.tree, at)
    ensures var d := DirNode(v.tree, at);
            InData(v.Vol().data, d.chain) && IsDirChain(v.Vol(), c, d.chain)
                     && Count(DirSecs(v.Vol(), d.chain)) == |d.kids|
  {
    DirOnDisk(v.Vol(), v.tree, at);
  }

  lemma ValidNow(v: Volume)
    requires v.Mounted() && Represents(v.Vol(), v.tree) && Balanced(v.Vol(), v.tree)
    ensures Valid(v)
  {
  }

  // ---------- touch ----------

  /** The new slot, on disk and in the tree. */
  ghost predicate NewSlotAt(vol: Vol, vol': Vol, t: Node, t': Node, at: seq<Name>, name: Name) {
    && DirIn(t, at) && DirIn(t', at) && DirNode(t', at).chain == DirNode(t, at).chain
    && InData(vol.data, DirNode(t, at).chain) && InData(vol'.data, DirNode(t, at).chain)
    && vol'.fat == vol.fat && |vol'.data| == |vol.data| && vol'.spc == vol.spc && |vol'.root| == |vol.root|
    && Clusters(t') == Clusters(t)
    && var k := VacantSlot(vol, t, at);
    && k < |DirNode(t', at).kids| == Count(DirSecs(vol', DirNode(t, at).chain))
    && DirNode(t', at).kids[k] == (if IsStorable(name) then Item(name, File([], [])) else Hole)
    && IsSlotFor(SlotAt(DirSecs(vol', DirNode(t, at).chain), k), name, ATTR_ARCHIVE, 0, 0)
  }

  /** Writes the entry of a new empty file into the first vacant slot of the directory at `at`. */
  method CreateFile(v: Volume, lba: nat, offset: nat, fatname: Name, ghost c: nat, ghost at: seq<Name>, ghost p: Place)
    requires Valid(v) && IsDirAt(v.tree, at, c) && CanInsert(v.Vol(), v.tree, at, fatname)
    requires IsAt(v.Vol(), v.bpb, DirNode(v.tree, at).chain, VacantSlot(v.Vol(), v.tree, at), lba, offset, p)
    modifies v`disk, v`tree
    ensures Valid(v)
    ensures if IsStorable(fatname) then SetTo(old(v.tree), v.tree, at + [fatname], IsFile([], []))
            else v.tree == old(v.tree)
    ensures NewSlotAt(old(v.Vol()), v.Vol(), old(v.tree), v.tree, at, fatname)
  {
    hide Represents, Balanced, CanInsert, SlotWritten, View, IsAt, NodeRep, NewSlotAt, SetTo, IsDirChain, IsStorable,
      Get, IsSlotFor, DirIn, VacantSlot, First, DirSecs, InData;
    ghost var vol, t := v.Vol(), v.tree;
    OpenAt(v, at, c);
    ghost var d := DirNode(t, at);
    ghost var k := VacantSlot(vol, t, at);
    var entry := NewSlot(Zeros(32), fatname, ATTR_ARCHIVE, 0, 0);
    WriteSlot(v, lba, offset, entry, c, d.chain, k, p);
    v.tree := TouchDone(vol, v.Vol(), t, at, fatname, entry);
    ValidNow(v);
  }

  /** Creates an empty file in the current directory. */
  method Touch(v: Volume, filename: Str, ghost at: seq<Name>) returns (r: bool)
    requires Valid(v) && IsDirAt(v.tree, at, v.currentDirCluster)
    modifies v`disk, v`tree
    ensures Valid(v)
    ensures r <==> filename != [] && CanInsert(old(v.Vol()), old(v.tree), at, Fmt(filename))
    ensures !r ==> v.Vol() == old(v.Vol()) && v.tree == old(v.tree)
    ensures r ==> if IsStorable(Fmt(filename)) then SetTo(old(v.tree), v.tree, at + [Fmt(filename)], IsFile([], []))
                  else v.tree == old(v.tree)
    ensures r ==> HasNewEntry(old(v.Vol()), v.Vol(), old(v.tree), at, Fmt(filename))
  {
    hide Represents, Balanced, CanInsert, View, IsAt, NodeRep, SetTo, IsDirChain, IsStorable, Get, Find, First,
      NewSlotAt, HasNewEntry;
    if filename == [] {
      return false;
    }
    ghost var d := DirNode(v.tree, at);
    var fatname := FormatFilename(filename);
    OpenDir(v, at, v.currentDirCluster, filename);
    var found, existing := FindEntry(v, v.currentDirCluster, filename, d.chain);
    if found {
      return false;
    }
    var room, lba, offset;
    ghost var p;
    room, lba, offset, p := FindFreeDirEntry(v, v.currentDirCluster, d.chain);
    if !room {
      return false;
    }
    ghost var vol, t := v.Vol(), v.tree;
    CreateFile(v, lba, offset, fatname, v.currentDirCluster, at, p);
    NewEntryHeld(vol, v.Vol(), t, v.tree, at, fatname);
    return true;
  }

  /** The first slot that was vacant holds the entry of an archive file of no bytes. */
  ghost predicate HasNewEntry(vol: Vol, vol': Vol, t: Node, at: seq<Name>, name: Name) {
    && DirIn(t, at) && InData(vol.data, DirNode(t, at).chain) && InData(vol'.data, DirNode(t, at).chain)
    && var k, secs := First(DirSecs(vol, DirNode(t, at).chain), Vacant), DirSecs(vol', DirNode(t, at).chain);
    k < Count(secs) && HoldsEntry(SlotAt(secs, k), name, 0x20, 0, 0)
  }

  lemma NewEntryHeld(vol: Vol, vol': Vol, t: Node, t': Node, at: seq<Name>, name: Name)
    requires NewSlotAt(vol, vol', t, t', at, name)
    ensures HasNewEntry(vol, vol', t, at, name)
  {
    hide HoldsEntry, IsSlotFor, First, DirSecs, SlotAt;
    var k, secs := VacantSlot(vol, t, at), DirSecs(vol', DirNode(t, at).chain);
    SlotBytes(SlotAt(secs, k), name, 0x20, 0, 0);
  }

  lemma TouchDone(vol: Vol, vol': Vol, t: Node, at: seq<Name>, name: Name, x: Slot) returns (t': Node)
    requires vol.WellFormed() && vol'.WellFormed() && Represents(vol, t) && Balanced(vol, t)
    requires CanInsert(vol, t, at, name) && IsSlotFor(x, name, ATTR_ARCHIVE, 0, 0)
    requires SlotWritten(vol, vol', DirNode(t, at).chain, VacantSlot(vol, t, at), x)
    ensures Represents(vol', t') && Balanced(vol', t')
    ensures if IsStorable(name) then SetTo(t, t', at + [name], IsFile([], [])) else t' == t
    ensures NewSlotAt(vol, vol', t, t', at, name)
  {
    InsertAt(vol, t, at, name);
    SlotConfined(vol, vol', t, at, VacantSlot(vol, t, at), x);
    SameFatAccounted(vol, vol');
    if IsStorable(name) {
      t' := TouchFile(vol, vol', t, at, name, x);
    } else {
      t' := t;
      assert name[0] == DELETED && NameOf(x) == name;
      assert NewSlotAt(vol, vol', t, t', at, name);
      hide Represents, Balanced, Confined, CanInsert, NewSlotAt, SlotWritten;
      InsertHole(vol, vol', t, at, name, x);
    }
  }

  lemma TouchFile(vol: Vol, vol': Vol, t: Node, at: seq<Name>, name: Name, x: Slot) returns (t': Node)
    requires vol.WellFormed() && vol'.WellFormed() && Represents(vol, t) && Balanced(vol, t)
    requires CanInsert(vol, t, at, name) && IsSlotFor(x, name, ATTR_ARCHIVE, 0, 0) && IsStorable(name)
    requires SlotWritten(vol, vol', DirNode(t, at).chain, VacantSlot(vol, t, at), x)
    requires VacantSlot(vol, t, at) < |DirNode(t, at).kids| && DirNode(t, at).kids[VacantSlot(vol, t, at)] == Hole
    requires |DirNode(t, at).kids| == Count(DirSecs(vol, DirNode(t, at).chain))
    requires Confined(vol, vol', DirNode(t, at), VacantSlot(vol, t, at), x)
    requires Accounted(vol, vol', multiset{}, multiset{})
    ensures Represents(vol', t') && Balanced(vol', t') && SetTo(t, t', at + [name], IsFile([], []))
    ensures NewSlotAt(vol, vol', t, t', at, name)
  {
    TouchShape(vol, vol', t, at, name, x);
    EmptyFile(vol');
    FileKid(vol', x, name, ATTR_ARCHIVE, [], []);
    var file := File([], []);
    assert Clusters(file) == multiset{} && Stat(file, []) == IsFile([], []);
    hide Represents, Balanced, Confined, CanInsert, NewSlotAt, SlotWritten, KidRep, Accounted, SetTo, PutKid,
      IsStorable, Clusters, Stat, IsSlotFor, DirIn, VacantSlot;
    t' := InsertCommit(vol, vol', t, at, name, x, file);
  }

  lemma TouchShape(vol: Vol, vol': Vol, t: Node, at: seq<Name>, name: Name, x: Slot)
    requires CanInsert(vol, t, at, name) && IsSlotFor(x, name, ATTR_ARCHIVE, 0, 0) && IsStorable(name)
    requires VacantSlot(vol, t, at) < |DirNode(t, at).kids| == Count(DirSecs(vol, DirNode(t, at).chain))
    requires SlotWritten(vol, vol', DirNode(t, at).chain, VacantSlot(vol, t, at), x)
    requires DirNode(t, at).kids[VacantSlot(vol, t, at)] == Hole
    ensures NewSlotAt(vol, vol', t, PutKid(t, at, VacantSlot(vol, t, at), Item(name, File([], []))), at, name)
  {
    var k, file := VacantSlot(vol, t, at), File([], []);
    DirNodePutKid(t, at, k, Item(name, file));
    PutKidClusters(t, at, k, Item(name, file));
    assert Clusters(file) == multiset{} && KidClusters(Hole) == multiset{};
  }
}
