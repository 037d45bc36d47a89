/** mkdir: a fresh cluster with its dot entries, and a slot that names it. */
module MakeDir {
  import opened Bytes
  import opened Layout
  import opened Chains
  import opened Content
  import opened Slots
  import opened Names
  import opened VolumeState
  import opened Directory
  import opened FileData
  import opened Nodes
  import opened Tree
  import opened TreePaths
  import opened TreeOps
  import opened Resolve
  import opened Accounting
  import opened Entries
  import opened Lookup

  // ---------- the new directory's cluster ----------

  const BLANKS: Name := [SPACE, SPACE, SPACE, SPACE, SPACE, SPACE, SPACE, SPACE, SPACE, SPACE, SPACE]
  const DOT_NAME: Name := [DOT] + BLANKS[..10]
  const DOTDOT_NAME: Name := [DOT, DOT] + BLANKS[..9]

  function DotSlot(name: Name, cluster: Word): Slot {
    NewSlot(Zeros(32), name, ATTR_DIR, cluster, 0)
  }

  /** The first sector of a new directory: "." names itself, ".." its parent (0 for the root). */
  function DotsSector(self: Word, parent: Word): Sector {
    SetSlotIn(SetSlotIn(Zeros(512), 0, DotSlot(DOT_NAME, self)), 1, DotSlot(DOTDOT_NAME, parent))
  }

  function EmptyDirSectors(spc: nat, self: Word, parent: Word): (r: seq<Sector>)
    requires spc > 0
    ensures |r| == spc
  {
    ZeroCluster(spc)[0 := DotsSector(self, parent)]
  }

  /** The bytes of a new directory: "." with its own first cluster, ".." with its parent's, and nothing else. */
  predicate IsNewDir(secs: seq<Sector>, self: Word, parent: Word) {
    && |secs| > 0
    && IsDotEntry(secs[0][..32], [0x2E, 0x20, 0x20, 0x20, 0x20, 0x20, 0x20, 0x20, 0x20, 0x20, 0x20], self)
    && IsDotEntry(secs[0][32..64], [0x2E, 0x2E, 0x20, 0x20, 0x20, 0x20, 0x20, 0x20, 0x20, 0x20, 0x20], parent)
    && (forall i :: 64 <= i < 512 ==> secs[0][i] == 0)
    && forall s :: 1 <= s < |secs| ==> secs[s] == Zeros(512)
  }

  predicate IsDotEntry(s: Slot, name: Name, cluster: Word) {
    HoldsEntry(s, name, 0x10, cluster, 0) && forall i :: 12 <= i < 26 ==> s[i] == 0
  }

  lemma EmptyDirBytes(spc: nat, self: Word, parent: Word)
    requires spc > 0
    ensures IsNewDir(EmptyDirSectors(spc, self, parent), self, parent)
  {
    hide DotSlot, HoldsEntry, SetSlotIn;
    var s := DotsSector(self, parent);
    DotEntry(DOT_NAME, self);
    DotEntry(DOTDOT_NAME, parent);
    DotNames();
    assert s[..32] == SlotIn(s, 0) == DotSlot(DOT_NAME, self);
    assert s[32..64] == SlotIn(s, 1) == DotSlot(DOTDOT_NAME, parent);
    forall i | 64 <= i < 512 ensures s[i] == 0 {
      assert s[i] == SlotIn(s, i / 32)[i % 32];
      assert SlotIn(Zeros(512), i / 32)[i % 32] == 0;
    }
  }

  lemma DotNames()
    ensures DOT_NAME == [0x2E, 0x20, 0x20, 0x20, 0x20, 0x20, 0x20, 0x20, 0x20, 0x20, 0x20]
    ensures DOTDOT_NAME == [0x2E, 0x2E, 0x20, 0x20, 0x20, 0x20, 0x20, 0x20, 0x20, 0x20, 0x20]
  {
  }

  lemma DotEntry(name: Name, cluster: Word)
    ensures IsDotEntry(DotSlot(name, cluster), name, cluster)
  {
    hide Get16, Get32, Put16, Put32, HoldsEntry;
    var s := DotSlot(name, cluster);
    SlotBytes(s, name, ATTR_DIR, cluster, 0);
    forall i | 12 <= i < 26 ensures s[i] == 0 {
      assert s[12..26][i - 12] == Zeros(32)[12..26][i - 12];
    }
  }

  function EmptyDir(spc: nat, c: nat): Node {
    Dir([c], seq(16 * spc, _ => Hole))
  }

  /** vol with cluster c, free before, made into an empty directory. */
  function WithEmptyDir(vol: Vol, c: Word, parent: Word): (r: Vol)
    requires vol.WellFormed() && vol.IsCluster(c)
    ensures r.WellFormed()
  {
    vol.(fat := vol.fat[c := END_OF_CHAIN], data := vol.data[c := EmptyDirSectors(vol.spc, c, parent)])
  }

  /** Takes the lowest free cluster and writes an empty directory into it; 0 iff none is free. */
  method NewDirCluster(v: Volume, parent: Word) returns (c: nat)
    requires v.Mounted()
    modifies v`disk
    ensures v.Mounted()
    ensures c == 0 ==> v.Vol() == old(v.Vol()) && FreeClusters(v.Vol()) == {}
    ensures c != 0 ==>
              && c in FreeClusters(old(v.Vol())) && (forall b :: b in FreeClusters(old(v.Vol())) ==> c <= b)
              && v.Vol() == WithEmptyDir(old(v.Vol()), c, parent)
              && IsNewDir(v.Vol().data[c], c, parent)
  {
    hide View, Bpb.ClusterStart, DotSlot, IsNewDir;
    ghost var vol := v.Vol();
    c := v.AllocCluster();
    if c == 0 {
      return;
    }
    v.ClearCluster(c);
    var lba := v.bpb.ClusterStart(c);
    var sector := v.ReadAt(lba, InCluster(c, 0));
    sector := SetSlotIn(sector, 0, DotSlot(DOT_NAME, c));
    sector := SetSlotIn(sector, 1, DotSlot(DOTDOT_NAME, parent));
    v.WriteAt(lba, sector, InCluster(c, 0));
    EmptyDirBytes(vol.spc, c, parent);
    assert v.Vol().data == vol.data[c := EmptyDirSectors(vol.spc, c, parent)];
  }

  lemma DotsNotLive(self: Word, parent: Word)
    ensures var s := DotsSector(self, parent);
            && IsDot(SlotIn(s, 0)) && IsDot(SlotIn(s, 1))
            && forall i :: 2 <= i < 16 ==> IsEnd(SlotIn(s, i))
  {
    DotSlotIsDot(DOT_NAME, self);
    DotSlotIsDot(DOTDOT_NAME, parent);
    assert forall i :: 0 <= i < 16 ==> SlotIn(Zeros(512), i)[0] == 0;
  }

  lemma DotSlotIsDot(name: Name, c: Word)
    requires name[0] == DOT && (name[1] == SPACE || name[1] == DOT)
    ensures IsDot(DotSlot(name, c))
  {
    var s := DotSlot(name, c);
    assert s[0] == NameOf(s)[0] && s[1] == NameOf(s)[1];
  }

  /** An empty directory's slots: two dots, then only end markers. */
  lemma EmptyDirSlots(spc: nat, self: Word, parent: Word)
    requires spc > 0
    ensures var secs := EmptyDirSectors(spc, self, parent);
            && Count(secs) == 16 * spc && Tidy(secs) && First(secs, Vacant) == 2
            && forall k :: 0 <= k < Count(secs) ==> !IsLive(SlotAt(secs, k))
  {
    var secs := EmptyDirSectors(spc, self, parent);
    DotsNotLive(self, parent);
    hide DotsSector, DotSlot;
    forall k | 0 <= k < Count(secs) ensures if k < 2 then IsDot(SlotAt(secs, k)) else IsEnd(SlotAt(secs, k)) {
      if k / 16 > 0 {
        assert secs[k / 16] == Zeros(512);
      }
    }
    FirstIs(secs, Vacant, 2);
  }

  lemma EmptyDirRep(vol: Vol, c: Word, parent: Word)
    requires vol.WellFormed() && vol.IsCluster(c)
    ensures var vol' := WithEmptyDir(vol, c, parent);
            && IsChain(vol', [c as nat]) && InData(vol'.data, [c as nat])
            && DirSecs(vol', [c as nat]) == EmptyDirSectors(vol.spc, c, parent)
            && NodeRep(vol', EmptyDir(vol.spc, c)) && Clusters(EmptyDir(vol.spc, c)) == multiset{c as nat}
  {
    var vol' := WithEmptyDir(vol, c, parent);
    var ch := [c as nat];
    assert Front(ch) == [] && Cat(vol'.data, ch) == vol'.data[c];
    EmptyDirSlots(vol.spc, c, parent);
    NoKids(16 * vol.spc);
    hide EmptyDirSectors;
    var secs, d := DirSecs(vol', ch), EmptyDir(vol.spc, c);
    forall k | 0 <= k < |d.kids| ensures KidRep(vol', SlotAt(secs, k), d.kids[k]) {
    }
  }

  lemma {:induction false} NoKids(n: nat)
    ensures KidsClusters(seq(n, _ => Hole)) == multiset{}
  {
    if n > 0 {
      NoKids(n - 1);
      assert seq(n, _ => Hole)[1..] == seq(n - 1, _ => Hole);
    }
  }

  // ---------- what a fresh cluster does to the rest ----------

  /** vol1 is vol with one free cluster taken. */
  ghost predicate Took(vol: Vol, vol1: Vol, c: nat) {
    && vol.WellFormed() && vol1.WellFormed() && vol.IsCluster(c) && vol.fat[c] == 0
    && vol1.spc == vol.spc && vol1.root == vol.root && |vol1.data| == |vol.data|
    && vol1.fat == vol.fat[c := END_OF_CHAIN]
    && forall k :: 0 <= k < |vol.data| && k != c ==> vol1.data[k] == vol.data[k]
  }

  /** A directory is not touched by taking a free cluster. */
  lemma DirDespite(vol: Vol, vol1: Vol, c: nat, first: nat, ch: seq<nat>)
    requires Took(vol, vol1, c) && IsDirChain(vol, first, ch)
    ensures InData(vol.data, ch) && InData(vol1.data, ch) && c !in ch
    ensures IsDirChain(vol1, first, ch) && DirSecs(vol1, ch) == DirSecs(vol, ch)
  {
    ChainOnce(vol, ch);
    forall i | 0 <= i < |ch| ensures vol1.fat[ch[i]] == vol.fat[ch[i]] && vol1.data[ch[i]] == vol.data[ch[i]] {
      assert ch[i] in ch;
    }
    if ch != [] {
      ChainFrame(vol, vol1, ch);
    }
    CatFrame(vol.data, vol1.data, ch);
  }

  lemma TookConfined(vol: Vol, vol1: Vol, vol2: Vol, c: nat, t: Node, at: seq<Name>, k: nat, x: Slot)
    requires Took(vol, vol1, c) && vol2.WellFormed() && Represents(vol, t) && DirIn(t, at) && k < |DirNode(t, at).kids|
    requires InData(vol1.data, DirNode(t, at).chain) && k < Count(DirSecs(vol1, DirNode(t, at).chain))
    requires SlotWritten(vol1, vol2, DirNode(t, at).chain, k, x)
    ensures Confined(vol, vol2, DirNode(t, at), k, x)
    ensures Accounted(vol, vol2, multiset{}, multiset{c})
  {
    DirOnDisk(vol, t, at);
    DirDespite(vol, vol1, c, Head(DirNode(t, at).chain), DirNode(t, at).chain);
  }

  /** The new directory in its slot. */
  lemma DirKid(vol1: Vol, vol2: Vol, ch: seq<nat>, k: nat, x: Slot, name: Name, c: nat)
    requires vol1.WellFormed() && vol2.WellFormed() && InData(vol1.data, ch) && k < Count(DirSecs(vol1, ch))
    requires SlotWritten(vol1, vol2, ch, k, x) && c !in ch && vol1.IsCluster(c)
    requires NodeRep(vol1, EmptyDir(vol1.spc, c)) && Clusters(EmptyDir(vol1.spc, c)) == multiset{c}
    requires IsSlotFor(x, name, ATTR_DIR, c, 0) && IsStorable(name)
    ensures KidRep(vol2, x, Item(name, EmptyDir(vol1.spc, c)))
  {
    NodeFrame(vol1, vol2, EmptyDir(vol1.spc, c));
    assert x[0] == NameOf(x)[0];
  }

  // ---------- mkdir ----------

  /** The new directory has room, and its first cluster is c. */
  ghost predicate MadeDir(vol': Vol, t: Node, t': Node, key: seq<Name>, c: nat) {
    && vol'.WellFormed() && Represents(vol', t') && Balanced(vol', t')
    && SetTo(t, t', key, IsDir([c])) && Clusters(t') == Clusters(t) + multiset{c}
    && DirIn(t', key) && HasRoom(vol', DirNode(t', key))
  }

  /** What mkdir does in the directory at `at`. A cluster is lost if the directory is full, or if the name starts
      with the byte that marks a deleted slot. */
  ghost predicate MkdirOutcome(vol: Vol, vol': Vol, t: Node, t': Node, at: seq<Name>, name: Name, r: bool) {
    && vol.WellFormed() && vol'.WellFormed() && |vol'.data| == |vol.data|
    && (r <==> CanInsert(vol, t, at, name) && FreeClusters(vol) != {})
    && if Get(t, at + [name]).Some? || FreeClusters(vol) == {} then vol' == vol && t' == t
       else
         exists c: nat :: IsLowestFree(vol, c) && FreeClusters(vol') == FreeClusters(vol) - {c}
           && if r && IsStorable(name) then MadeDir(vol', t, t', at + [name], c)
                                            && HasDots(vol', c, Head(DirNode(t, at).chain))
              else Represents(vol', t') && t' == t
  }

  /** The dot entries of the directory in cluster c name itself and its parent, 0 for the root. */
  ghost predicate HasDots(vol: Vol, c: nat, parent: nat) {
    vol.IsCluster(c) && c < 0x1_0000 && parent < 0x1_0000 && IsNewDir(vol.data[c], c, parent)
  }

  lemma DotsStay(vol: Vol, vol1: Vol, vol2: Vol, t: Node, at: seq<Name>, c: Word, parent: Word, k: nat, x: Slot)
    requires vol.WellFormed() && vol.IsCluster(c) && vol1 == WithEmptyDir(vol, c, parent)
    requires Represents(vol, t) && DirIn(t, at) && vol.fat[c] == 0
    requires InData(vol1.data, DirNode(t, at).chain) && k < Count(DirSecs(vol1, DirNode(t, at).chain))
    requires SlotWritten(vol1, vol2, DirNode(t, at).chain, k, x)
    ensures HasDots(vol2, c, parent)
  {
    hide NodeRep, IsNewDir, EmptyDirSectors;
    DirOnDisk(vol, t, at);
    NewDirTook(vol, c, parent);
    DirDespite(vol, vol1, c, Head(DirNode(t, at).chain), DirNode(t, at).chain);
    EmptyDirBytes(vol.spc, c, parent);
  }

  ghost predicate IsLowestFree(vol: Vol, c: nat)
    requires vol.WellFormed()
  {
    c in FreeClusters(vol) && forall b :: b in FreeClusters(vol) ==> c <= b
  }

  lemma NewDirTook(vol: Vol, c: Word, parent: Word)
    requires vol.WellFormed() && c in FreeClusters(vol)
    ensures Took(vol, WithEmptyDir(vol, c, parent), c)
    ensures FreeClusters(WithEmptyDir(vol, c, parent)) == FreeClusters(vol) - {c as nat}
  {
  }

  /** Between the two writes: cluster c is an empty directory, and no slot names it yet. */
  ghost predicate HalfMade(vol: Vol, vol1: Vol, t: Node, at: seq<Name>, name: Name, c: Word, parent: Word) {
    && vol.WellFormed() && Represents(vol, t) && Balanced(vol, t) && DirIn(t, at)
    && Get(t, at + [name]).None? && name[0] != 0 && name[0] != DOT
    && IsLowestFree(vol, c) && vol1 == WithEmptyDir(vol, c, parent)
  }

  lemma HalfMadeDir(vol: Vol, vol1: Vol, t: Node, at: seq<Name>, name: Name, c: Word, parent: Word)
    requires HalfMade(vol, vol1, t, at, name, c, parent)
    ensures vol1.WellFormed()
    ensures var ch := DirNode(t, at).chain;
            && InData(vol.data, ch) && InData(vol1.data, ch) && IsDirChain(vol1, Head(ch), ch)
            && DirSecs(vol1, ch) == DirSecs(vol, ch)
            && (CanInsert(vol, t, at, name) <==> First(DirSecs(vol1, ch), Vacant) < Count(DirSecs(vol1, ch)))
  {
    DirOnDisk(vol, t, at);
    NewDirTook(vol, c, parent);
    DirDespite(vol, vol1, c, Head(DirNode(t, at).chain), DirNode(t, at).chain);
  }

  /** No slot is left for the directory: its cluster is lost. */
  lemma Leaked(vol: Vol, vol1: Vol, t: Node, at: seq<Name>, name: Name, c: Word, parent: Word)
    requires HalfMade(vol, vol1, t, at, name, c, parent) && !CanInsert(vol, t, at, name)
    ensures MkdirOutcome(vol, vol1, t, t, at, name, false)
  {
    NewDirTook(vol, c, parent);
    hide NodeRep;
    StillRepresents(vol, vol1, t, c);
  }

  lemma StillRepresents(vol: Vol, vol1: Vol, t: Node, c: nat)
    requires Took(vol, vol1, c) && Represents(vol, t) && Balanced(vol, t)
    ensures Represents(vol1, t)
  {
    assert forall k :: k in Clusters(t) ==> InUse(vol, k);
    NodeFrame(vol, vol1, t);
  }

  /** The slot has been written. */
  lemma MkdirEnds(vol: Vol, vol1: Vol, vol2: Vol, t: Node, at: seq<Name>, name: Name, c: Word, parent: Word, x: Slot)
    returns (t': Node)
    requires HalfMade(vol, vol1, t, at, name, c, parent) && CanInsert(vol, t, at, name) && vol2.WellFormed()
    requires InData(vol1.data, DirNode(t, at).chain)
    requires VacantSlot(vol, t, at) < Count(DirSecs(vol1, DirNode(t, at).chain))
    requires SlotWritten(vol1, vol2, DirNode(t, at).chain, VacantSlot(vol, t, at), x)
    requires IsSlotFor(x, name, ATTR_DIR, c, 0) && parent == Head(DirNode(t, at).chain)
    ensures MkdirOutcome(vol, vol2, t, t', at, name, true)
  {
    var k := VacantSlot(vol, t, at);
    InsertAt(vol, t, at, name);
    NewDirTook(vol, c, parent);
    TookConfined(vol, vol1, vol2, c, t, at, k, x);
    assert FreeClusters(vol2) == FreeClusters(vol1);
    hide Represents, Balanced, NodeRep, Confined, Accounted, SlotWritten, CanInsert, WithEmptyDir, MadeDir, HasDots;
    DotsStay(vol, vol1, vol2, t, at, c, parent, k, x);
    if IsStorable(name) {
      t' := MadeInSlot(vol, vol1, vol2, t, at, name, c, parent, x);
    } else {
      t' := t;
      InsertHole(vol, vol2, t, at, name, x);
    }
  }

  lemma MadeInSlot(vol: Vol, vol1: Vol, vol2: Vol, t: Node, at: seq<Name>, name: Name, c: Word, parent: Word, x: Slot)
    returns (t': Node)
    requires HalfMade(vol, vol1, t, at, name, c, parent) && CanInsert(vol, t, at, name) && vol2.WellFormed()
    requires InData(vol1.data, DirNode(t, at).chain)
    requires VacantSlot(vol, t, at) < Count(DirSecs(vol1, DirNode(t, at).chain))
    requires VacantSlot(vol, t, at) < |DirNode(t, at).kids|
             && KidClusters(DirNode(t, at).kids[VacantSlot(vol, t, at)]) == multiset{}
    requires SlotWritten(vol1, vol2, DirNode(t, at).chain, VacantSlot(vol, t, at), x)
    requires IsSlotFor(x, name, ATTR_DIR, c, 0) && IsStorable(name)
    requires Confined(vol, vol2, DirNode(t, at), VacantSlot(vol, t, at), x)
    requires Accounted(vol, vol2, multiset{}, multiset{c as nat})
    ensures MadeDir(vol2, t, t', at + [name], c)
  {
    hide Represents, Balanced, NodeRep, KidRep, Confined, Accounted, SlotWritten, CanInsert, SetTo, Get, IsStorable,
      WithEmptyDir, EmptyDirSectors, IsSlotFor, IsChain;
    HalfMadeDir(vol, vol1, t, at, name, c, parent);
    var ch, k, node := DirNode(t, at).chain, VacantSlot(vol, t, at), EmptyDir(vol.spc, c);
    NewDirTook(vol, c, parent);
    EmptyDirRep(vol, c, parent);
    EmptyDirStat(vol.spc, c);
    DirOnDisk(vol, t, at);
    DirDespite(vol, vol1, c, Head(ch), ch);
    DirKid(vol1, vol2, ch, k, x, name, c);
    t' := InsertCommit(vol, vol2, t, at, name, x, node);
    PutKidClusters(t, at, k, Item(name, node));
    EmptyDirRoom(vol, vol1, vol2, t, at, name, c, parent, x, t');
  }

  lemma EmptyDirStat(spc: nat, c: nat)
    ensures Stat(EmptyDir(spc, c), []) == IsDir([c])
  {
  }

  /** The new directory still has the slots it was made with. */
  lemma EmptyDirRoom(vol: Vol, vol1: Vol, vol2: Vol, t: Node, at: seq<Name>, name: Name, c: Word, parent: Word,
                     x: Slot, t': Node)
    requires HalfMade(vol, vol1, t, at, name, c, parent) && vol2.WellFormed()
    requires InData(vol1.data, DirNode(t, at).chain) && (c as nat) !in DirNode(t, at).chain
    requires VacantSlot(vol, t, at) < Count(DirSecs(vol1, DirNode(t, at).chain))
    requires VacantSlot(vol, t, at) < |DirNode(t, at).kids|
    requires SlotWritten(vol1, vol2, DirNode(t, at).chain, VacantSlot(vol, t, at), x)
    requires Represents(vol2, t') && t' == PutKid(t, at, VacantSlot(vol, t, at), Item(name, EmptyDir(vol.spc, c)))
    ensures DirIn(t', at + [name]) && HasRoom(vol2, DirNode(t', at + [name]))
  {
    var k, node := VacantSlot(vol, t, at), EmptyDir(vol.spc, c);
    DirNodePutKid(t, at, k, Item(name, node));
    GetAppend(t', at, [name]);
    GetRep(vol2, t', at);
    IndexOfIs(DirNode(t', at).kids, name, k);
    assert Get(node, []) == Some(node);
    EmptyDirRep(vol, c, parent);
    EmptyDirSlots(vol.spc, c, parent);
    var own := [c as nat];
    assert Front(own) == [] && Cat(vol2.data, own) == vol2.data[c] == vol1.data[c] == Cat(vol1.data, own);
  }

  lemma MkdirRefused(vol: Vol, t: Node, at: seq<Name>, name: Name)
    requires vol.WellFormed() && (Get(t, at + [name]).Some? || FreeClusters(vol) == {})
    ensures MkdirOutcome(vol, vol, t, t, at, name, false)
  {
  }

  /** Creates a directory in the current one. */
  method Mkdir(v: Volume, dirname: Str, ghost at: seq<Name>) returns (r: bool)
    requires Valid(v) && IsDirAt(v.tree, at, v.currentDirCluster)
    modifies v`disk, v`tree
    ensures v.Mounted()
    ensures if dirname == [] then !r && v.Vol() == old(v.Vol()) && v.tree == old(v.tree)
            else MkdirOutcome(old(v.Vol()), v.Vol(), old(v.tree), v.tree, at, Fmt(dirname), r)
  {
    hide View, Mirrored, Bpb.TotalClusters, NodeRep, Represents, Balanced, MkdirOutcome, HalfMade, WithEmptyDir, Get,
      DirSecs, IsAt, IsDirChain, SlotWritten, First, Find, IsSlotFor, CanInsert, Stat;
    if dirname == [] {
      return false;
    }
    ghost var vol, t := v.Vol(), v.tree;
    ghost var name := Fmt(dirname);
    var found, existing := FindIn(v, v.currentDirCluster, dirname, at);
    StatIsGet(t, at + [name]);
    if found {
      MkdirRefused(vol, t, at, name);
      return false;
    }
    DirClusterIsWord(vol, t, at);
    var newCluster := NewDirCluster(v, v.currentDirCluster);
    if newCluster == 0 {
      MkdirRefused(vol, t, at, name);
      return false;
    }
    r := NameNewDir(v, dirname, newCluster, vol, t, at);
  }

  lemma DirClusterIsWord(vol: Vol, t: Node, at: seq<Name>)
    requires vol.WellFormed() && Represents(vol, t) && DirIn(t, at)
    ensures Head(DirNode(t, at).chain) < 0x1_0000
  {
    GetRep(vol, t, at);
    assert DirNode(t, at).chain != [] ==> vol.IsCluster(DirNode(t, at).chain[0]);
  }

  /** The second half of mkdir: a slot is found and made to name the new directory. */
  method NameNewDir(v: Volume, dirname: Str, newCluster: Word, ghost vol: Vol, ghost t: Node, ghost at: seq<Name>)
    returns (r: bool)
    requires v.Mounted() && v.tree == t && v.currentDirCluster < 0x1_0000 && vol.WellFormed()
    requires Represents(vol, t) && Balanced(vol, t) && IsDirAt(t, at, v.currentDirCluster)
    requires Get(t, at + [Fmt(dirname)]).None? && IsLowestFree(vol, newCluster)
    requires v.Vol() == WithEmptyDir(vol, newCluster, v.currentDirCluster)
    modifies v`disk, v`tree
    ensures v.Mounted() && MkdirOutcome(vol, v.Vol(), t, v.tree, at, Fmt(dirname), r)
  {
    hide View, Mirrored, Bpb.TotalClusters, NodeRep, Represents, Balanced, MkdirOutcome, HalfMade, WithEmptyDir, Get,
      DirSecs, IsAt, IsDirChain, SlotWritten, First, IsSlotFor, CanInsert, IsLowestFree;
    ghost var vol1, name, parent := v.Vol(), Fmt(dirname), v.currentDirCluster;
    FmtFirst(dirname);
    NowHalfMade(vol, vol1, t, at, name, newCluster, parent);
    HalfMadeDir(vol, vol1, t, at, name, newCluster, parent);
    ghost var ch := DirNode(t, at).chain;
    var room, lba, offset;
    ghost var p;
    room, lba, offset, p := FindFreeDirEntry(v, v.currentDirCluster, ch);
    if !room {
      Leaked(vol, vol1, t, at, name, newCluster, parent);
      return false;
    }
    ghost var k := First(DirSecs(vol1, ch), Vacant);
    var fatname := FormatFilename(dirname);
    var slot := ReadSlot(v, lba, offset, ch, k, p);
    var entry := NewSlot(slot, fatname, ATTR_DIR, newCluster, 0);
    VacantIs(vol, vol1, t, at, k);
    WriteSlot(v, lba, offset, entry, v.currentDirCluster, ch, k, p);
    v.tree := MkdirEnds(vol, vol1, v.Vol(), t, at, name, newCluster, parent, entry);
    r := true;
  }

  lemma NowHalfMade(vol: Vol, vol1: Vol, t: Node, at: seq<Name>, name: Name, c: Word, parent: Word)
    requires vol.WellFormed() && Represents(vol, t) && Balanced(vol, t) && DirIn(t, at)
    requires Get(t, at + [name]).None? && name[0] != 0 && name[0] != DOT
    requires IsLowestFree(vol, c) && vol1 == WithEmptyDir(vol, c, parent)
    ensures HalfMade(vol, vol1, t, at, name, c, parent)
  {
  }

  lemma VacantIs(vol: Vol, vol1: Vol, t: Node, at: seq<Name>, k: nat)
    requires DirIn(t, at) && InData(vol.data, DirNode(t, at).chain) && InData(vol1.data, DirNode(t, at).chain)
    requires DirSecs(vol1, DirNode(t, at).chain) == DirSecs(vol, DirNode(t, at).chain)
    requires k == First(DirSecs(vol1, DirNode(t, at).chain), Vacant)
    ensures k == VacantSlot(vol, t, at)
  {
  }
}
