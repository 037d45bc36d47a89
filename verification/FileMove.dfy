/** mv: a second entry for the file's chain, and then the first one marked as deleted. */
module FileMove {
  import opened Bytes
  import opened Layout
  import opened Chains
  import opened Content
  import opened Slots
  import opened Names
  import opened Paths
  import opened VolumeState
  import opened Directory
  import opened Nodes
  import opened Tree
  import opened TreePaths
  import opened TreeOps
  import opened Resolve
  import opened Accounting
  import opened Entries
  import opened Removal
  import opened Intact
  import opened Lookup
  import opened FileWrite
  import opened FileRead
  import opened FileCopy

  /** The slot under another name. */
  function Renamed(s: Slot, name: Name): (r: Slot)
    ensures IsSlotFor(r, name, AttrOf(s), ClusterOf(s), SizeOf(s))
  {
    var r: seq<Byte> := name + s[11..];
    assert r[..11] == name;
    r
  }

  // ---------- a kid stays where it is while another is put elsewhere ----------

  /** Filling a hole with a new name leaves every file's slot where it was. */
  lemma {:induction false} KidElsewhere(t: Node, at2: seq<Name>, k2: nat, kid: Kid, at1: seq<Name>, k1: nat)
    requires DirIn(t, at2) && k2 < |DirNode(t, at2).kids| && DirNode(t, at2).kids[k2].Hole?
    requires kid.Item? && IndexOf(DirNode(t, at2).kids, kid.name) == |DirNode(t, at2).kids|
    requires DirIn(t, at1) && k1 < |DirNode(t, at1).kids|
    requires DirNode(t, at1).kids[k1].Item? && DirNode(t, at1).kids[k1].node.File?
    ensures var t' := PutKid(t, at2, k2, kid);
            && DirIn(t', at1) && DirNode(t', at1).chain == DirNode(t, at1).chain
            && |DirNode(t', at1).kids| == |DirNode(t, at1).kids|
            && DirNode(t', at1).kids[k1] == DirNode(t, at1).kids[k1]
    decreases |at1|
  {
    var t' := PutKid(t, at2, k2, kid);
    if at1 == [] {
      if at2 != [] {
        SubdirKid(t, at2);
      }
    } else {
      var i := IndexOf(t.kids, at1[0]);
      if at2 == [] {
        IndexStays(t.kids, k2, kid, at1[0]);
      } else {
        var j := IndexOf(t.kids, at2[0]);
        SubdirKid(t, at2);
        var sub' := PutKid(t.kids[j].node, at2[1..], k2, kid);
        assert t'.kids == t.kids[j := Item(at2[0], sub')];
        IndexSame(t.kids, j, sub', at1[0]);
        if at1[0] == at2[0] {
          KidElsewhere(t.kids[i].node, at2[1..], k2, kid, at1[1..], k1);
        }
      }
    }
  }

  lemma SubdirKid(t: Node, at: seq<Name>)
    requires DirIn(t, at) && at != []
    ensures var i := IndexOf(t.kids, at[0]); i < |t.kids| && t.kids[i].node.Dir? && DirIn(t.kids[i].node, at[1..])
    ensures DirNode(t.kids[IndexOf(t.kids, at[0])].node, at[1..]) == DirNode(t, at)
  {
    var sub := t.kids[IndexOf(t.kids, at[0])].node;
    var rest := at[1..];
    assert Get(t, at) == Get(sub, rest);
    FileHasNothing(sub, rest);
  }

  lemma FileHasNothing(node: Node, path: seq<Name>)
    ensures node.File? ==> Get(node, path) == if path == [] then Some(node) else None
  {
  }

  lemma IndexIs(kids: seq<Kid>, name: Name, i: nat)
    requires i <= |kids| && (i < |kids| ==> kids[i].Item? && kids[i].name == name)
    requires forall j :: 0 <= j < i && kids[j].Item? ==> kids[j].name != name
    ensures IndexOf(kids, name) == i
  {
  }

  lemma IndexStays(kids: seq<Kid>, k: nat, kid: Kid, name: Name)
    requires k < |kids| && kids[k].Hole? && kid.Item? && IndexOf(kids, kid.name) == |kids|
             && IndexOf(kids, name) < |kids|
    ensures IndexOf(kids[k := kid], name) == IndexOf(kids, name)
  {
    IndexIs(kids[k := kid], name, IndexOf(kids, name));
  }

  lemma IndexSame(kids: seq<Kid>, k: nat, node: Node, name: Name)
    requires k < |kids| && kids[k].Item?
    ensures IndexOf(kids[k := Item(kids[k].name, node)], name) == IndexOf(kids, name)
  {
    IndexIs(kids[k := Item(kids[k].name, node)], name, IndexOf(kids, name));
  }

  // ---------- the second entry ----------

  /** Slot k1 of the directory at at1 names the file `key` of t, which the tree holds once. */
  ghost predicate Source(vol: Vol, t: Node, at: seq<Name>, k: nat, name: Name, ch: seq<nat>, bytes: seq<Byte>) {
    && vol.WellFormed() && Represents(vol, t) && Balanced(vol, t)
    && DirIn(t, at) && k < |DirNode(t, at).kids| && DirNode(t, at).kids[k] == Item(name, File(ch, bytes))
    && FileRep(vol, ch, bytes) && Stat(t, at + [name]) == IsFile(ch, bytes)
  }

  /** The file's clusters are in use, and in no directory's chain. */
  lemma ChainApart(vol: Vol, t: Node, key: seq<Name>, at: seq<Name>)
    requires vol.WellFormed() && Balanced(vol, t) && Stat(t, key).IsFile? && DirIn(t, at)
    ensures forall c :: c in DirNode(t, at).chain ==> InUse(vol, c) && c !in Stat(t, key).chain
    ensures forall c :: c in Stat(t, key).chain ==> c !in DirNode(t, at).chain
  {
    ChainsApart(t, at, key);
    ApartFrom(vol, t, DirNode(t, at).chain, Elems(Stat(t, key).chain), Stat(t, key).chain);
  }

  /** After the first write, the new slot names the file's chain too. */
  lemma Linked(vol: Vol, vol1: Vol, t: Node, key: seq<Name>, at: seq<Name>, name: Name, x: Slot) returns (t1: Node)
    requires vol.WellFormed() && vol1.WellFormed() && Represents(vol, t) && Balanced(vol, t) && Stat(t, key).IsFile?
    requires CanInsert(vol, t, at, name) && IsStorable(name)
    requires SlotWritten(vol, vol1, DirNode(t, at).chain, VacantSlot(vol, t, at), x)
    requires IsFileSlot(x, name, Stat(t, key).chain, |Stat(t, key).bytes|)
    ensures var k, e := VacantSlot(vol, t, at), Stat(t, key);
            && k < |DirNode(t, at).kids| && DirNode(t, at).kids[k].Hole?
            && t1 == PutKid(t, at, k, Item(name, File(e.chain, e.bytes)))
            && Represents(vol1, t1) && Clusters(t1) == Clusters(t) + multiset(e.chain)
            && SetTo(t, t1, at + [name], e)
  {
    hide Represents, Balanced, NodeRep, Confined, SetTo, PutKid, Stat, FileRep, IsStorable, Tidy, CanInsert,
      SlotWritten, KidRep, IsFileSlot, Clusters, KidsClusters, KidClusters, Get, DirIn;
    LinkFacts(vol, t, key, at, name);
    var k, e := VacantSlot(vol, t, at), Stat(t, key);
    var node := File(e.chain, e.bytes);
    var kid := Item(name, node);
    InsertAt(vol, t, at, name);
    SlotConfined(vol, vol1, t, at, k, x);
    LinkedKid(vol, vol1, t, key, at, name, x);
    LiveNotEnd(vol1, x, name, node);
    InsertTidy(vol, vol1, t, at, name, x);
    CommitRep(vol, vol1, t, at, k, x, kid);
    PutKidClusters(t, at, k, kid);
    StatSet(vol, t, at, k, name, node);
    t1 := PutKid(t, at, k, kid);
  }

  lemma LinkFacts(vol: Vol, t: Node, key: seq<Name>, at: seq<Name>, name: Name)
    requires vol.WellFormed() && Represents(vol, t) && CanInsert(vol, t, at, name) && Stat(t, key).IsFile?
    ensures DirIn(t, at) && InData(vol.data, DirNode(t, at).chain) && Get(t, at + [name]).None?
    ensures VacantSlot(vol, t, at) < Count(DirSecs(vol, DirNode(t, at).chain))
    ensures var e := Stat(t, key);
            var node := File(e.chain, e.bytes);
            Stat(node, []) == e && KidClusters(Item(name, node)) == multiset(e.chain)
  {
  }

  /** The new slot names the file: its data was not touched. */
  lemma LinkedKid(vol: Vol, vol1: Vol, t: Node, key: seq<Name>, at: seq<Name>, name: Name, x: Slot)
    requires vol.WellFormed() && vol1.WellFormed() && Represents(vol, t) && Balanced(vol, t) && Stat(t, key).IsFile?
    requires DirIn(t, at) && InData(vol.data, DirNode(t, at).chain) && IsStorable(name)
    requires VacantSlot(vol, t, at) < Count(DirSecs(vol, DirNode(t, at).chain))
    requires SlotWritten(vol, vol1, DirNode(t, at).chain, VacantSlot(vol, t, at), x)
    requires IsFileSlot(x, name, Stat(t, key).chain, |Stat(t, key).bytes|)
    ensures KidRep(vol1, x, Item(name, File(Stat(t, key).chain, Stat(t, key).bytes)))
  {
    hide Represents, Balanced, NodeRep, FileRep, SlotWritten, Stat, IsStorable, DirIn;
    var e := Stat(t, key);
    StatChain(vol, t, key);
    ChainApart(vol, t, key, at);
    FileDespiteSlot(vol, vol1, DirNode(t, at).chain, e.chain, VacantSlot(vol, t, at), x, e.bytes);
    FileKid(vol1, x, name, AttrOf(x), e.chain, e.bytes);
  }

  // ---------- the first entry deleted ----------

  /** The state between the two writes: t1 holds the file in slot k of the directory at `at`, and maybe once more. */
  ghost predicate Twice(vol: Vol, vol1: Vol, t: Node, t1: Node, at: seq<Name>, k: nat, name: Name,
                        ch: seq<nat>, bytes: seq<Byte>) {
    && Source(vol, t, at, k, name, ch, bytes)
    && vol1.WellFormed() && Represents(vol1, t1) && vol1.fat == vol.fat
    && |vol1.data| == |vol.data| && vol1.spc == vol.spc && |vol1.root| == |vol.root|
    && DirIn(t1, at) && DirNode(t1, at).chain == DirNode(t, at).chain
    && k < |DirNode(t1, at).kids| && DirNode(t1, at).kids[k] == Item(name, File(ch, bytes))
    && (Clusters(t1) == Clusters(t) || Clusters(t1) == Clusters(t) + multiset(ch))
  }

  lemma Unlinked(vol: Vol, vol1: Vol, vol2: Vol, t: Node, t1: Node, at: seq<Name>, k: nat, name: Name,
                 ch: seq<nat>, bytes: seq<Byte>, x: Slot)
    returns (t2: Node)
    requires Twice(vol, vol1, t, t1, at, k, name, ch, bytes) && vol2.WellFormed()
    requires InData(vol1.data, DirNode(t, at).chain) && k < Count(DirSecs(vol1, DirNode(t, at).chain))
    requires SlotWritten(vol1, vol2, DirNode(t, at).chain, k, x) && IsVacant(x) && !IsEnd(x)
    ensures Represents(vol2, t2) && Removed(t1, t2, at + [name]) && Clusters(t2) == Clusters(t1) - multiset(ch)
    ensures vol2.fat == vol.fat && |vol2.data| == |vol.data|
  {
    var d := DirNode(t1, at);
    var secs := DirSecs(vol1, d.chain);
    DirOnDisk(vol1, t1, at);
    assert KidRep(vol1, SlotAt(secs, k), d.kids[k]);
    assert DistinctKids(d.kids[k := Hole]) && Tidy(secs);
    ChainApart(vol, t, at + [name], at);
    t2 := PutKid(t1, at, k, Hole);
    PutKidClusters(t1, at, k, Hole);
    assert KidClusters(d.kids[k]) == multiset(ch) && KidClusters(Hole) == multiset{};
    UnlinkFrame(vol, vol1, vol2, t, t1, d.chain, ch, k, x);
    TidyChanged(secs, k, x);
    assert KidRep(vol2, x, Hole);
    hide NodeRep, KidRep, Represents, Balanced, Source, SlotWritten, Clusters, KidClusters, DirSecs, Tidy, DistinctKids;
    ReplaceKid(vol1, vol2, t1, at, k, x, Hole);
    StatRemove(vol1, t1, at, k);
  }

  lemma UnlinkFrame(vol: Vol, vol1: Vol, vol2: Vol, t: Node, t1: Node, dch: seq<nat>, ch: seq<nat>, k: nat, x: Slot)
    requires vol.WellFormed() && vol1.WellFormed() && vol2.WellFormed() && Balanced(vol, t)
    requires InData(vol1.data, dch) && k < Count(DirSecs(vol1, dch)) && SlotWritten(vol1, vol2, dch, k, x)
    requires forall c :: c in dch ==> InUse(vol, c) && c !in ch
    requires Clusters(t1) == Clusters(t) || Clusters(t1) == Clusters(t) + multiset(ch)
    requires dch != [] ==> IsChain(vol1, dch)
    ensures SameOn(vol1, vol2, Clusters(t1) - multiset(dch) - multiset(ch))
    ensures dch != [] ==> IsChain(vol2, dch)
  {
    DirOnce(vol, t, t1, dch, ch);
    hide IsChain;
    if dch != [] {
      ChainFrame(vol1, vol2, dch);
    }
  }

  lemma DirOnce(vol: Vol, t: Node, t1: Node, dch: seq<nat>, ch: seq<nat>)
    requires vol.WellFormed() && Balanced(vol, t) && forall c :: c in dch ==> InUse(vol, c) && c !in ch
    requires Clusters(t1) == Clusters(t) || Clusters(t1) == Clusters(t) + multiset(ch)
    ensures forall c :: c in dch ==> c !in Clusters(t1) - multiset(dch) - multiset(ch)
  {
    forall c | c in dch ensures c !in Clusters(t1) - multiset(dch) - multiset(ch) {
      assert c in multiset(dch) && Clusters(t)[c] == 1;
      assert multiset(ch)[c] == 0;
    }
  }

  // ---------- mv ----------

  /** The file that `sk` named is what `tk` names now; every other path looks up as before. */
  ghost predicate Moved(t: Node, t': Node, sk: seq<Name>, tk: seq<Name>) {
    forall q :: Stat(t', q) == if q == tk then Stat(t, sk) else if q == sk then Absent else Stat(t, q)
  }

  /** What mv does. A destination name that starts with the deleted mark loses the file. */
  ghost predicate MoveOutcome(vol: Vol, vol': Vol, t: Node, t': Node, sk: seq<Name>, tk: seq<Name>, r: bool) {
    && vol.WellFormed() && vol'.WellFormed()
    && (r <==> Stat(t, sk).IsFile? && tk != [] && CanInsert(vol, t, Front(tk), Last(tk)))
    && if r then
         && vol'.fat == vol.fat && |vol'.data| == |vol.data| && Represents(vol', t')
         && if IsStorable(Last(tk)) then Moved(t, t', sk, tk) && Balanced(vol', t') && Clusters(t') == Clusters(t)
            else Removed(t, t', sk)
       else vol' == vol && t' == t
  }

  lemma MoveEnds(vol: Vol, vol2: Vol, t: Node, t1: Node, t2: Node, sk: seq<Name>, tk: seq<Name>)
    requires vol.WellFormed() && vol2.WellFormed() && Balanced(vol, t) && Represents(vol2, t2)
    requires Stat(t, sk).IsFile? && tk != [] && CanInsert(vol, t, Front(tk), Last(tk)) && Get(t, tk).None?
    requires vol2.fat == vol.fat && |vol2.data| == |vol.data|
    requires Removed(t1, t2, sk) && Clusters(t2) == Clusters(t1) - multiset(Stat(t, sk).chain)
    requires if IsStorable(Last(tk)) then
               SetTo(t, t1, tk, Stat(t, sk)) && Clusters(t1) == Clusters(t) + multiset(Stat(t, sk).chain)
             else t1 == t
    ensures MoveOutcome(vol, vol2, t, t2, sk, tk, true)
  {
    hide Represents, Clusters, SetTo, Removed, Moved, Stat;
    InsertParent(vol, t, tk);
    if IsStorable(Last(tk)) {
      assert Clusters(t2) == Clusters(t);
      BalancedStays(vol, vol2, t, t2);
      MovedNow(t, t1, t2, sk, tk);
    }
  }

  lemma InsertParent(vol: Vol, t: Node, tk: seq<Name>)
    requires tk != [] && CanInsert(vol, t, Front(tk), Last(tk))
    ensures DirIn(t, Front(tk)) && Stat(t, tk).Absent?
  {
    assert Front(tk) + [Last(tk)] == tk;
  }

  lemma BalancedStays(vol: Vol, vol': Vol, t: Node, t': Node)
    requires vol.WellFormed() && vol'.WellFormed() && Balanced(vol, t) && Clusters(t') == Clusters(t)
    requires vol'.fat == vol.fat && |vol'.data| == |vol.data|
    ensures Balanced(vol', t')
  {
    assert forall c: nat :: InUse(vol', c) <==> InUse(vol, c);
  }

  lemma MovedNow(t: Node, t1: Node, t2: Node, sk: seq<Name>, tk: seq<Name>)
    requires Stat(t, sk).IsFile? && Stat(t, tk).Absent? && tk != [] && DirIn(t, Front(tk))
    requires SetTo(t, t1, tk, Stat(t, sk)) && Removed(t1, t2, sk)
    ensures Moved(t, t2, sk, tk)
  {
    hide Stat, DirIn;
    forall q ensures Stat(t2, q) == if q == tk then Stat(t, sk) else if q == sk then Absent else Stat(t, q) {
      if sk <= q && q != sk {
        OnlyItself(t, sk, tk, q);
        NothingBelow(t, sk, q);
      }
    }
  }

  /** No missing path lies below a file: it would stay missing. */
  lemma OnlyItself(t: Node, sk: seq<Name>, tk: seq<Name>, q: seq<Name>)
    requires Stat(t, sk).IsFile? && tk != [] && DirIn(t, Front(tk)) && sk <= q && q != sk
    ensures q != tk
  {
    if q == tk {
      assert sk <= Front(tk);
      if sk != Front(tk) {
        NothingBelow(t, sk, Front(tk));
      }
      assert false;
    }
  }

  /** The tree and the volume once the new slot is written: it names the file too, or nothing. */
  ghost predicate SecondEntry(vol: Vol, vol1: Vol, t: Node, t1: Node, at: seq<Name>, k: nat, name: Name,
                              ch: seq<nat>, bytes: seq<Byte>, tk: seq<Name>) {
    && Twice(vol, vol1, t, t1, at, k, name, ch, bytes) && tk != []
    && if IsStorable(Last(tk)) then SetTo(t, t1, tk, IsFile(ch, bytes)) && Clusters(t1) == Clusters(t) + multiset(ch)
       else t1 == t
  }

  lemma SecondWritten(vol: Vol, vol1: Vol, t: Node, at: seq<Name>, k: nat, name: Name, ch: seq<nat>, bytes: seq<Byte>,
                      at2: seq<Name>, name2: Name, x: Slot)
    returns (t1: Node)
    requires Source(vol, t, at, k, name, ch, bytes) && vol1.WellFormed() && CanInsert(vol, t, at2, name2)
    requires SlotWritten(vol, vol1, DirNode(t, at2).chain, VacantSlot(vol, t, at2), x)
    requires IsFileSlot(x, name2, ch, |bytes|) && |vol1.root| == |vol.root|
    ensures SecondEntry(vol, vol1, t, t1, at, k, name, ch, bytes, at2 + [name2])
  {
    hide Represents, Balanced, NodeRep, SetTo, PutKid, SlotWritten, Clusters, FileRep, Stat, IsStorable, Get;
    var key, k2 := at + [name], VacantSlot(vol, t, at2);
    LastOf(at2, name2);
    if IsStorable(name2) {
      t1 := Linked(vol, vol1, t, key, at2, name2, x);
      NewNameFree(vol, t, at2, name2);
      KidElsewhere(t, at2, k2, Item(name2, File(ch, bytes)), at, k);
      ShapeKept(vol, vol1, DirNode(t, at2).chain, k2, x);
    } else {
      t1 := t;
      Unstored(vol, vol1, t, at2, name2, x);
      ShapeKept(vol, vol1, DirNode(t, at2).chain, k2, x);
    }
  }

  lemma LastOf(at: seq<Name>, name: Name)
    ensures at + [name] != [] && Last(at + [name]) == name && Front(at + [name]) == at
  {
  }

  lemma NewNameFree(vol: Vol, t: Node, at: seq<Name>, name: Name)
    requires vol.WellFormed() && Represents(vol, t) && CanInsert(vol, t, at, name)
    ensures DirIn(t, at) && IndexOf(DirNode(t, at).kids, name) == |DirNode(t, at).kids|
  {
    StepInto(vol, t, at, name);
  }

  lemma ShapeKept(vol: Vol, vol1: Vol, ch: seq<nat>, k: nat, x: Slot)
    requires InData(vol.data, ch) && k < Count(DirSecs(vol, ch)) && SlotWritten(vol, vol1, ch, k, x)
    ensures vol1.fat == vol.fat && |vol1.data| == |vol.data| && vol1.spc == vol.spc
  {
  }

  lemma Unstored(vol: Vol, vol1: Vol, t: Node, at: seq<Name>, name: Name, x: Slot)
    requires vol.WellFormed() && vol1.WellFormed() && Represents(vol, t) && Balanced(vol, t)
    requires CanInsert(vol, t, at, name) && !IsStorable(name) && NameOf(x) == name
    requires SlotWritten(vol, vol1, DirNode(t, at).chain, VacantSlot(vol, t, at), x)
    ensures Represents(vol1, t)
  {
    hide Represents, Balanced, NodeRep, SlotWritten, CanInsert;
    LinkFactsOnly(vol, t, at, name);
    InsertAt(vol, t, at, name);
    SlotConfined(vol, vol1, t, at, VacantSlot(vol, t, at), x);
    InsertHole(vol, vol1, t, at, name, x);
  }

  lemma LinkFactsOnly(vol: Vol, t: Node, at: seq<Name>, name: Name)
    requires CanInsert(vol, t, at, name)
    ensures DirIn(t, at) && InData(vol.data, DirNode(t, at).chain) && (!IsStorable(name) ==> name[0] == DELETED)
    ensures VacantSlot(vol, t, at) < Count(DirSecs(vol, DirNode(t, at).chain))
  {
  }

  /** Writes the new entry, then marks the old one as deleted. */
  method Relink(v: Volume, srcLba: nat, srcOffset: nat, srcEntry: Slot, dstLba: nat, dstOffset: nat, dstName: Str,
                ghost at: seq<Name>, ghost k: nat, ghost name: Name, ghost ch: seq<nat>, ghost bytes: seq<Byte>,
                ghost p: Place,
                ghost at2: seq<Name>, ghost c2: nat, ghost p2: Place)
    requires v.Mounted() && Source(v.Vol(), v.tree, at, k, name, ch, bytes)
    requires InData(v.Vol().data, DirNode(v.tree, at).chain)
    requires IsAt(v.Vol(), v.bpb, DirNode(v.tree, at).chain, k, srcLba, srcOffset, p)
    requires !IsDirSlot(srcEntry) && AttrOf(srcEntry) != LONG_NAME
    requires ClusterOf(srcEntry) == Head(ch) && SizeOf(srcEntry) == |bytes|
    requires IsDirAt(v.tree, at2, c2) && CanInsert(v.Vol(), v.tree, at2, Fmt(dstName))
    requires IsAt(v.Vol(), v.bpb, DirNode(v.tree, at2).chain, VacantSlot(v.Vol(), v.tree, at2), dstLba, dstOffset, p2)
    modifies v`disk, v`tree
    ensures v.Mounted()
    ensures MoveOutcome(old(v.Vol()), v.Vol(), old(v.tree), v.tree, at + [name], at2 + [Fmt(dstName)], true)
  {
    hide View, Mirrored, Bpb.TotalClusters, Represents, Balanced, NodeRep, SlotWritten, CanInsert, IsAt, Source,
      SecondEntry, MoveOutcome, IsDirChain, DirSecs, IsSlotFor, IsFileSlot, Stat, Get, DirIn, VacantSlot;
    ghost var vol, t, name2 := v.Vol(), v.tree, Fmt(dstName);
    LinkFactsOnly(vol, t, at2, name2);
    SourceDirs(vol, t, at, k, name, ch, bytes, at2, c2);
    ghost var ch2, k2 := DirNode(t, at2).chain, VacantSlot(vol, t, at2);
    var fatname := FormatFilename(dstName);
    var entry := Renamed(srcEntry, fatname);
    IsNewSlot(srcEntry, fatname, ch, |bytes|);
    WriteSlot(v, dstLba, dstOffset, entry, c2, ch2, k2, p2);
    ghost var vol1 := v.Vol();
    SameRoot(vol, vol1, ch2, k2, entry);
    ghost var t1 := SecondWritten(vol, vol1, t, at, k, name, ch, bytes, at2, name2, entry);
    SlotMoved(vol, vol1, t, t1, v.bpb, at, k, name, ch, bytes, at2 + [name2], srcLba, srcOffset, p);
    ghost var ch1 := DirNode(t, at).chain;
    MarkDeleted(v, srcLba, srcOffset, Head(ch1), ch1, k, p);
    ghost var x := Deleted(SlotAt(DirSecs(vol1, ch1), k));
    v.tree := RelinkEnds(vol, vol1, v.Vol(), t, t1, at, k, name, ch, bytes, at2, name2, x);
  }

  lemma IsNewSlot(s: Slot, name: Name, ch: seq<nat>, size: nat)
    requires !IsDirSlot(s) && AttrOf(s) != LONG_NAME && ClusterOf(s) == Head(ch) && SizeOf(s) == size
    ensures IsFileSlot(Renamed(s, name), name, ch, size) && NameOf(Renamed(s, name)) == name
  {
  }

  lemma SameRoot(vol: Vol, vol1: Vol, ch: seq<nat>, k: nat, x: Slot)
    requires InData(vol.data, ch) && k < Count(DirSecs(vol, ch)) && SlotWritten(vol, vol1, ch, k, x)
    ensures |vol1.root| == |vol.root|
  {
  }

  lemma SourceDirs(vol: Vol, t: Node, at: seq<Name>, k: nat, name: Name, ch: seq<nat>, bytes: seq<Byte>,
        at2: seq<Name>, c2: nat)
    requires Source(vol, t, at, k, name, ch, bytes) && IsDirAt(t, at2, c2)
    ensures vol.WellFormed() && DirIn(t, at) && IsDirChain(vol, c2, DirNode(t, at2).chain)
  {
    DirOnDisk(vol, t, at2);
  }

  /** The old slot is still where it was. */
  lemma SlotMoved(vol: Vol, vol1: Vol, t: Node, t1: Node, b: Bpb, at: seq<Name>, k: nat, name: Name,
                  ch: seq<nat>, bytes: seq<Byte>, tk: seq<Name>, lba: nat, offset: nat, p: Place)
    requires SecondEntry(vol, vol1, t, t1, at, k, name, ch, bytes, tk)
    requires InData(vol.data, DirNode(t, at).chain) && IsAt(vol, b, DirNode(t, at).chain, k, lba, offset, p)
    ensures var ch1 := DirNode(t, at).chain;
            && vol1.WellFormed() && InData(vol1.data, ch1) && IsDirChain(vol1, Head(ch1), ch1)
            && IsAt(vol1, b, ch1, k, lba, offset, p) && k < Count(DirSecs(vol1, ch1))
  {
    DirOnDisk(vol, t, at);
    DirOnDisk(vol1, t1, at);
    hide NodeRep, Balanced;
    IsAtShape(vol, vol1, b, Head(DirNode(t, at).chain), DirNode(t, at).chain, k, lba, offset, p);
  }

  lemma RelinkEnds(vol: Vol, vol1: Vol, vol2: Vol, t: Node, t1: Node, at: seq<Name>, k: nat, name: Name,
                   ch: seq<nat>, bytes: seq<Byte>, at2: seq<Name>, name2: Name, x: Slot)
    returns (t2: Node)
    requires SecondEntry(vol, vol1, t, t1, at, k, name, ch, bytes, at2 + [name2]) && vol2.WellFormed()
    requires CanInsert(vol, t, at2, name2)
    requires InData(vol1.data, DirNode(t, at).chain) && k < Count(DirSecs(vol1, DirNode(t, at).chain))
    requires SlotWritten(vol1, vol2, DirNode(t, at).chain, k, x) && IsVacant(x) && !IsEnd(x)
    ensures MoveOutcome(vol, vol2, t, t2, at + [name], at2 + [name2], true)
  {
    hide Represents, Balanced, NodeRep, SlotWritten, SetTo, Removed, Stat, Clusters, FileRep, IsStorable, MoveOutcome,
      DirSecs;
    LastOf(at2, name2);
    InsertParent(vol, t, at2 + [name2]);
    StatIsGet(t, at2 + [name2]);
    t2 := Unlinked(vol, vol1, vol2, t, t1, at, k, name, ch, bytes, x);
    MoveEnds(vol, vol2, t, t1, t2, at + [name], at2 + [name2]);
  }

  /** The normalised destination path, its components, and the key they make. */
  lemma DestinationPath(t: Node, cwd: Str, src: Str, dst: Str, name: Str, into: bool) returns (comps: seq<Str>)
    requires Resolved(cwd, src) != [] && name == Last(Resolved(cwd, src))
    requires into <==> Stat(t, KeyOf(cwd, dst)).IsDir?
    ensures IsNormal(comps) && Keys(comps) == TargetKey(t, KeyOf(cwd, src), KeyOf(cwd, dst))
    ensures Render(comps) == if into then Below(Normalized(cwd, dst), name) else Normalized(cwd, dst)
  {
    hide Stat, Resolved, Render, Below, Keys, IsNormal;
    var s, d := Resolved(cwd, src), Resolved(cwd, dst);
    KeySplit(s);
    if into {
      comps := d + [name];
      NormalWith(d, s);
      BelowRender(d, name);
      KeysAppend(d, [name]);
    } else {
      comps := d;
    }
  }

  lemma NormalWith(d: seq<Str>, s: seq<Str>)
    requires IsNormal(d) && IsNormal(s) && s != []
    ensures IsNormal(d + [Last(s)])
  {
  }

  lemma SameKeyNormalized(cwd: Str, dst: Str)
    ensures KeyOf(cwd, Normalized(cwd, dst)) == KeyOf(cwd, dst) && Normalized(cwd, dst) != []
  {
    NormalizeIdempotent(cwd, cwd, dst);
    RenderAbsolute(Resolved(cwd, dst));
  }

  /** When there is no destination entry to be had. */
  lemma NotMoved(vol: Vol, t: Node, sk: seq<Name>, tk: seq<Name>)
    requires vol.WellFormed()
    requires !Stat(t, sk).IsFile? || tk == [] || !DirIn(t, Front(tk)) || !Stat(t, tk).Absent?
             || !HasRoom(vol, DirNode(t, Front(tk)))
    ensures MoveOutcome(vol, vol, t, t, sk, tk, false)
  {
    if tk != [] {
      assert Front(tk) + [Last(tk)] == tk;
    }
  }

  /** The second half of mv: the destination is looked up, and the two entries written. */
  method MoveTo(v: Volume, srcLba: nat, srcOffset: nat, srcEntry: Slot, srcName: Str, src: Str, dst: Str,
                ghost k: nat, ghost p: Place)
    returns (r: bool)
    requires Valid(v) && FitsBuffers(v.currentPath, dst) && FitsBuffers(v.currentPath, Normalized(v.currentPath, dst))
    requires Resolved(v.currentPath, src) != [] && srcName == Last(Resolved(v.currentPath, src))
    requires var sk := KeyOf(v.currentPath, src);
             && sk != [] && sk == Front(sk) + [Fmt(srcName)] && Stat(v.tree, sk).IsFile?
             && EntryIs(srcEntry, Stat(v.tree, sk))
             && FoundAt(v.Vol(), v.tree, v.bpb, Front(sk), Fmt(srcName), srcLba, srcOffset, k, p)
    modifies v`disk, v`tree
    ensures v.Mounted()
    ensures var sk, dk := KeyOf(v.currentPath, src), KeyOf(v.currentPath, dst);
            MoveOutcome(old(v.Vol()), v.Vol(), old(v.tree), v.tree, sk, TargetKey(old(v.tree), sk, dk), r)
  {
    hide View, Mirrored, Bpb.TotalClusters, Represents, Balanced, FitsBuffers, KeyOf, Stat, MoveOutcome, Normalized,
      Render, Resolved, Below, DirIn, EntryIs, FoundAt, Get, IsNormal, Keys, TargetKey, IsAt, First, DirSecs, HasRoom,
      Source, CanInsert;
    ghost var vol, t, cwd := v.Vol(), v.tree, v.currentPath;
    ghost var sk := KeyOf(cwd, src);
    ghost var tk := TargetKey(t, sk, KeyOf(cwd, dst));
    SameKeyNormalized(cwd, dst);
    var absDst := NormalizePath(v.currentPath, dst);
    var into := IsDirectory(v, absDst);
    ghost var comps := DestinationPath(t, cwd, src, dst, srcName, into);
    if into {
      absDst := Below(absDst, srcName);
    }
    var ok, dstParent, dstName := SplitAndResolve(v, absDst, comps);
    if !ok {
      NotMovedNoParent(vol, t, sk, tk, comps);
      return false;
    }
    ghost var at2 := Front(tk);
    KeySplit(comps);
    var exists_, existing := FindIn(v, dstParent, dstName, at2);
    if exists_ {
      NotMoved(vol, t, sk, tk);
      return false;
    }
    RoomAt(v, at2, dstParent, dstName);
    var room, dstLba, dstOffset;
    ghost var p2;
    room, dstLba, dstOffset, p2 := FindFreeDirEntry(v, dstParent, DirNode(t, at2).chain);
    if !room {
      NotMoved(vol, t, sk, tk);
      return false;
    }
    ghost var e := Stat(t, sk);
    SourceNow(v, Front(sk), srcName, srcEntry, srcLba, srcOffset, k, p);
    Relink(v, srcLba, srcOffset, srcEntry, dstLba, dstOffset, dstName,
           Front(sk), k, Fmt(srcName), e.chain, e.bytes, p, at2, dstParent, p2);
    r := true;
  }

  lemma NotMovedNoParent(vol: Vol, t: Node, sk: seq<Name>, tk: seq<Name>, comps: seq<Str>)
    requires vol.WellFormed() && tk == Keys(comps) && (comps == [] || !DirIn(t, Front(tk)))
    ensures MoveOutcome(vol, vol, t, t, sk, tk, false)
  {
    NotMoved(vol, t, sk, tk);
  }

  lemma RoomAt(v: Volume, at: seq<Name>, c: nat, name: Str)
    requires Valid(v) && IsDirAt(v.tree, at, c) && Stat(v.tree, at + [Fmt(name)]).Absent?
    ensures DirIn(v.tree, at) && InData(v.Vol().data, DirNode(v.tree, at).chain)
    ensures IsDirChain(v.Vol(), c, DirNode(v.tree, at).chain)
    ensures var secs := DirSecs(v.Vol(), DirNode(v.tree, at).chain);
            && First(secs, Vacant) == VacantSlot(v.Vol(), v.tree, at)
            && (HasRoom(v.Vol(), DirNode(v.tree, at)) <==> First(secs, Vacant) < Count(secs))
            && (CanInsert(v.Vol(), v.tree, at, Fmt(name)) <==> First(secs, Vacant) < Count(secs))
  {
    OpenDir(v, at, c, name);
  }

  lemma SourceNow(v: Volume, at: seq<Name>, name: Str, s: Slot, lba: nat, offset: nat, k: nat, p: Place)
    requires Valid(v) && v.Mounted() && Stat(v.tree, at + [Fmt(name)]).IsFile?
             && EntryIs(s, Stat(v.tree, at + [Fmt(name)]))
    requires FoundAt(v.Vol(), v.tree, v.bpb, at, Fmt(name), lba, offset, k, p)
    ensures var e := Stat(v.tree, at + [Fmt(name)]);
            && Source(v.Vol(), v.tree, at, k, Fmt(name), e.chain, e.bytes)
            && ClusterOf(s) == Head(e.chain) && SizeOf(s) == |e.bytes|
    ensures InData(v.Vol().data, DirNode(v.tree, at).chain)
    ensures IsAt(v.Vol(), v.bpb, DirNode(v.tree, at).chain, k, lba, offset, p)
    ensures !IsDirSlot(s) && AttrOf(s) != LONG_NAME
  {
    FmtFirst(name);
    KidInTree(v.Vol(), v.tree, at, Fmt(name));
    StatChain(v.Vol(), v.tree, at + [Fmt(name)]);
  }

  /** Moves a file: its chain stays where it is. */
  method Mv(v: Volume, src: Str, dst: Str) returns (r: bool)
    requires Valid(v) && FitsBuffers(v.currentPath, src) && FitsBuffers(v.currentPath, dst)
    requires FitsBuffers(v.currentPath, Normalized(v.currentPath, dst))
    requires |Destination(v.currentPath, src, dst, Stat(v.tree, KeyOf(v.currentPath, dst)).IsDir?)| <= PATH_MAX
    modifies v`disk, v`tree
    ensures v.Mounted()
    ensures var sk, dk := KeyOf(v.currentPath, src), KeyOf(v.currentPath, dst);
            MoveOutcome(old(v.Vol()), v.Vol(), old(v.tree), v.tree, sk, TargetKey(old(v.tree), sk, dk), r)
  {
    hide View, Mirrored, Bpb.TotalClusters, Represents, Balanced, FitsBuffers, KeyOf, Stat, MoveOutcome, Normalized,
      Render, Resolved, Below, DirIn, EntryIs, FoundAt, Get, IsNormal, TargetKey, Destination;
    ghost var vol, t, cwd := v.Vol(), v.tree, v.currentPath;
    ghost var sk := KeyOf(cwd, src);
    ghost var tk := TargetKey(t, sk, KeyOf(cwd, dst));
    NoSourceNoMove(vol, t, sk, tk);
    var isDir := IsDirectory(v, src);
    if isDir {
      return false;
    }
    var ok, srcParent, srcName := ResolveParent(v, src);
    RootIsDir(v, sk);
    if !ok {
      if sk != [] {
        AbsentWithoutParent(t, sk);
      }
      return false;
    }
    var found, srcLba, srcOffset, srcEntry;
    ghost var k, p;
    found, srcLba, srcOffset, srcEntry, k, p := LocateIn(v, srcParent, srcName, Front(sk));
    if !found {
      return false;
    }
    KindOfSlot(srcEntry, Stat(t, sk));
    if IsDirSlot(srcEntry) {
      return false;
    }
    r := MoveTo(v, srcLba, srcOffset, srcEntry, srcName, src, dst, k, p);
  }

  lemma NoSourceNoMove(vol: Vol, t: Node, sk: seq<Name>, tk: seq<Name>)
    requires vol.WellFormed()
    ensures !Stat(t, sk).IsFile? ==> MoveOutcome(vol, vol, t, t, sk, tk, false)
  {
  }

  lemma KindOfSlot(s: Slot, e: Entry)
    requires EntryIs(s, e)
    ensures IsDirSlot(s) <==> e.IsDir?
    ensures !IsDirSlot(s) <==> e.IsFile?
  {
  }
}