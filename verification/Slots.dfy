/** 32-byte directory slots, and the searches over the slots of a directory's sectors. */
module Slots {
  import opened Bytes

  const DELETED: Byte := 0xE5
  const LONG_NAME: Byte := 0x0F
  const ATTR_DIR: Byte := 0x10
  const ATTR_ARCHIVE: Byte := 0x20
  const DOT: Byte := 0x2E
  const SPACE: Byte := 0x20

  type Slot = s: seq<Byte> | |s| == 32 witness seq(32, _ => 0)
  type Name = s: seq<Byte> | |s| == 11 witness seq(11, _ => 0)

  function NameOf(s: Slot): Name { s[..11] }
  function AttrOf(s: Slot): Byte { s[11] }
  function ClusterOf(s: Slot): Word { Get16(s, 26) }
  function SizeOf(s: Slot): Dword { Get32(s, 28) }

  /** The test `attr & 0x10`. */
  predicate IsDirSlot(s: Slot) {
    AttrOf(s) / ATTR_DIR % 2 == 1
  }

  predicate IsEnd(s: Slot) { s[0] == 0 }

  predicate IsVacant(s: Slot) { s[0] == 0 || s[0] == DELETED }

  /** The entries "." and ".." that a directory starts with. */
  predicate IsDot(s: Slot) {
    s[0] == DOT && (s[1] == SPACE || s[1] == DOT)
  }

  /** A slot that names a file or a subdirectory. */
  predicate IsLive(s: Slot) {
    !IsVacant(s) && AttrOf(s) != LONG_NAME && !IsDot(s)
  }

  predicate Matches(s: Slot, name: Name) {
    !IsVacant(s) && AttrOf(s) != LONG_NAME && NameOf(s) == name
  }

  predicate IsSlotFor(x: Slot, name: Name, attr: Byte, cluster: nat, size: nat) {
    NameOf(x) == name && AttrOf(x) == attr && ClusterOf(x) == cluster && SizeOf(x) == size
  }

  /** The slot that touch, mkdir and write_file build, given the bytes of the slot they take over. */
  function NewSlot(base: Slot, name: Name, attr: Byte, cluster: Word, size: Dword): (s: Slot)
    ensures IsSlotFor(s, name, attr, cluster, size)
    ensures s[12..26] == base[12..26]
  {
    var named: seq<Byte> := name + [attr] + base[12..];
    assert named[..11] == name && named[11] == attr && named[12..26] == base[12..26];
    var linked := Put16(named, 26, cluster);
    assert linked[..26] == named[..26] by { assert forall i :: 0 <= i < 26 ==> linked[i] == named[i]; }
    var s := Put32(linked, 28, size);
    assert s[..28] == linked[..28] by { assert forall i :: 0 <= i < 28 ==> s[i] == linked[i]; }
    assert s[..11] == s[..28][..11] == linked[..26][..11] == named[..11];
    assert s[12..26] == linked[..26][12..26] == named[..26][12..26];
    assert Get16(s, 26) == Get16(linked, 26);
    s
  }

  /** The slot with another first cluster and size. */
  function Relinked(s: Slot, cluster: Word, size: Dword): (r: Slot)
    ensures IsSlotFor(r, NameOf(s), AttrOf(s), cluster, size)
  {
    var linked := Put16(s, 26, cluster);
    assert linked[..26] == s[..26] by { assert forall i :: 0 <= i < 26 ==> linked[i] == s[i]; }
    var r := Put32(linked, 28, size);
    assert r[..28] == linked[..28] by { assert forall i :: 0 <= i < 28 ==> r[i] == linked[i]; }
    assert r[..11] == r[..28][..11] == linked[..26][..11] == s[..11];
    assert Get16(r, 26) == Get16(linked, 26);
    r
  }

  /** The bytes of a slot: the name in 0 to 10, the attributes in 11, the first cluster in 26 and 27, the size behind
      it, lowest bytes first. */
  predicate HoldsEntry(s: Slot, name: Name, attr: Byte, cluster: Word, size: Dword) {
    && (forall i: nat :: i < 11 ==> s[i] == name[i])
    && s[11] == attr && IsWordAt(s, 26, cluster) && IsDwordAt(s, 28, size)
  }

  lemma SlotBytes(s: Slot, name: Name, attr: Byte, cluster: Word, size: Dword)
    ensures HoldsEntry(s, name, attr, cluster, size) <==> IsSlotFor(s, name, attr, cluster, size)
  {
    hide Get16, Get32;
    Get16Is(s, 26, cluster);
    Get32Is(s, 28, size);
    assert NameOf(s) == name <==> forall i: nat :: i < 11 ==> s[i] == name[i] by {
      if forall i: nat :: i < 11 ==> s[i] == name[i] {
        assert NameOf(s) == name;
      } else {
        var i: nat :| i < 11 && s[i] != name[i];
        assert NameOf(s)[i] != name[i];
      }
    }
  }

  function Deleted(s: Slot): (r: Slot)
    ensures IsVacant(r) && !IsEnd(r)
  {
    s[0 := DELETED]
  }

  // ---------- slots within sectors ----------

  function SlotIn(s: Sector, i: nat): Slot
    requires i < 16
  {
    s[32 * i..32 * i + 32]
  }

  function SetSlotIn(s: Sector, i: nat, x: Slot): (r: Sector)
    requires i < 16
    ensures SlotIn(r, i) == x
    ensures forall j :: 0 <= j < 16 && j != i ==> SlotIn(r, j) == SlotIn(s, j)
  {
    var r := Splice(s, 32 * i, x);
    assert forall j :: 0 <= j < 16 && j != i ==> SlotIn(r, j) == SlotIn(s, j);
    r
  }

  function Count(secs: seq<Sector>): nat {
    16 * |secs|
  }

  function SlotAt(secs: seq<Sector>, k: nat): Slot
    requires k < Count(secs)
  {
    SlotIn(secs[k / 16], k % 16)
  }

  /** The directory's sectors with slot k replaced by x. */
  function SetSlot(secs: seq<Sector>, k: nat, x: Slot): (r: seq<Sector>)
    requires k < Count(secs)
    ensures |r| == |secs| && SlotAt(r, k) == x
    ensures forall j :: 0 <= j < Count(secs) && j != k ==> SlotAt(r, j) == SlotAt(secs, j)
  {
    var i := k / 16;
    var r: seq<Sector> := secs[i := SetSlotIn(secs[i], k % 16, x)];
    assert forall j :: 0 <= j < Count(secs) && j != k ==> SlotAt(r, j) == SlotAt(secs, j) by {
      forall j | 0 <= j < Count(secs) && j != k ensures SlotAt(r, j) == SlotAt(secs, j) {
        if j / 16 == i {
          assert j % 16 != k % 16;
        }
      }
    }
    r
  }

  // ---------- searches ----------

  /** What a search over a directory is looking for. */
  datatype Goal =
    | Named(name: Name) // find_entry: the name, giving up at the end marker
    | Vacant            // find_free_dir_entry
    | Occupied          // is_dir_empty: anything but dots, giving up at the end marker

  predicate Stops(goal: Goal, s: Slot) {
    match goal
    case Named(name) => IsEnd(s) || Matches(s, name)
    case Vacant => IsVacant(s)
    case Occupied => IsEnd(s) || IsLive(s)
  }

  /** The first slot from k on at which the search stops, or the slot count. */
  function FirstFrom(secs: seq<Sector>, goal: Goal, k: nat): (r: nat)
    requires k <= Count(secs)
    ensures k <= r <= Count(secs)
    ensures forall j :: k <= j < r ==> !Stops(goal, SlotAt(secs, j))
    ensures r < Count(secs) ==> Stops(goal, SlotAt(secs, r))
    decreases Count(secs) - k
  {
    if k == Count(secs) || Stops(goal, SlotAt(secs, k)) then k else FirstFrom(secs, goal, k + 1)
  }

  function First(secs: seq<Sector>, goal: Goal): (r: nat)
    ensures r <= Count(secs)
    ensures forall j :: 0 <= j < r ==> !Stops(goal, SlotAt(secs, j))
    ensures r < Count(secs) ==> Stops(goal, SlotAt(secs, r))
  {
    FirstFrom(secs, goal, 0)
  }

  /** The slot that a lookup of `name` finds, if any. */
  function Find(secs: seq<Sector>, name: Name): (r: nat)
    ensures r < Count(secs) ==> Matches(SlotAt(secs, r), name)
    ensures r <= Count(secs)
  {
    var k := First(secs, Named(name));
    if k < Count(secs) && !IsEnd(SlotAt(secs, k)) then k else Count(secs)
  }

  lemma FirstIs(secs: seq<Sector>, goal: Goal, k: nat)
    requires k <= Count(secs)
    requires forall j :: 0 <= j < k ==> !Stops(goal, SlotAt(secs, j))
    requires k < Count(secs) ==> Stops(goal, SlotAt(secs, k))
    ensures First(secs, goal) == k
  {
  }

  /** An entry of that name: neither an end marker nor deleted, and no part of a long name. */
  predicate IsEntryOf(s: seq<Byte>, name: Name)
    requires |s| == 32
  {
    s[0] != 0 && s[0] != 0xE5 && s[11] != 0x0F && s[..11] == name
  }

  /** The 32 bytes of slot k. */
  function SlotBytesAt(secs: seq<Sector>, k: nat): (r: seq<Byte>)
    requires k < 16 * |secs|
    ensures |r| == 32
  {
    secs[k / 16][32 * (k % 16)..32 * (k % 16) + 32]
  }

  /** What a lookup finds, in terms of the bytes: the first entry of that name, if no slot before it starts with a
      zero byte. */
  lemma FindByBytes(secs: seq<Sector>, name: Name, k: nat)
    requires k < 16 * |secs|
    ensures Find(secs, name) == k <==>
            && IsEntryOf(SlotBytesAt(secs, k), name)
            && forall j :: 0 <= j < k ==> SlotBytesAt(secs, j)[0] != 0 && !IsEntryOf(SlotBytesAt(secs, j), name)
  {
    forall j: nat | j < 16 * |secs|
      ensures SlotBytesAt(secs, j) == SlotAt(secs, j)
      ensures Stops(Named(name), SlotAt(secs, j)) <==>
              SlotBytesAt(secs, j)[0] == 0 || IsEntryOf(SlotBytesAt(secs, j), name)
    {
    }
    if IsEntryOf(SlotBytesAt(secs, k), name)
       && forall j :: 0 <= j < k ==> SlotBytesAt(secs, j)[0] != 0 && !IsEntryOf(SlotBytesAt(secs, j), name) {
      FirstIs(secs, Named(name), k);
    }
  }

  /** No live slot ever follows an end marker. */
  ghost predicate Tidy(secs: seq<Sector>) {
    forall i, j :: 0 <= i < j < Count(secs) && IsEnd(SlotAt(secs, i)) ==> IsVacant(SlotAt(secs, j))
  }

  /** Names of matching slots are distinct. */
  ghost predicate DistinctNames(secs: seq<Sector>) {
    forall i, j :: 0 <= i < j < Count(secs) && IsLive(SlotAt(secs, i)) && IsLive(SlotAt(secs, j))
                   ==> NameOf(SlotAt(secs, i)) != NameOf(SlotAt(secs, j))
  }

  /** The `for (i = 0; i < 512; i += 32)` loop of every search. */
  method ScanSector(sector: Sector, goal: Goal) returns (k: nat)
    ensures k <= 16
    ensures forall j :: 0 <= j < k ==> !Stops(goal, SlotIn(sector, j))
    ensures k < 16 ==> Stops(goal, SlotIn(sector, k))
  {
    k := 0;
    var i := 0;
    while i < 512
      invariant i == 32 * k && k <= 16
      invariant forall j :: 0 <= j < k ==> !Stops(goal, SlotIn(sector, j))
    {
      if Stops(goal, sector[i..i + 32]) {
        return;
      }
      i := i + 32;
      k := k + 1;
    }
  }

  // ---------- what one changed slot does to every lookup ----------

  /** In a tidy directory a lookup finds k iff k is the first slot that matches. */
  lemma FindInTidy(secs: seq<Sector>, name: Name, k: nat)
    requires Tidy(secs) && k <= Count(secs)
    requires k < Count(secs) ==> Matches(SlotAt(secs, k), name)
    requires forall j :: 0 <= j < k ==> !Matches(SlotAt(secs, j), name)
    ensures Find(secs, name) == k
  {
  }

  /** Filling the slot that find_free_dir_entry returns keeps the directory tidy, makes exactly the new name
      appear at that slot, and leaves every other lookup as it was. The new name is found iff it does not
      start with the byte that marks a deleted slot. */
  lemma InsertLookup(secs: seq<Sector>, x: Slot)
    requires Tidy(secs) && First(secs, Vacant) < Count(secs)
    requires !IsEnd(x) && AttrOf(x) != LONG_NAME && Find(secs, NameOf(x)) == Count(secs)
    ensures var k := First(secs, Vacant);
            && Tidy(SetSlot(secs, k, x))
            && (Find(SetSlot(secs, k, x), NameOf(x)) == k <==> x[0] != DELETED)
            && forall n: Name :: n != NameOf(x) ==> Find(SetSlot(secs, k, x), n) == Find(secs, n)
  {
    var k := First(secs, Vacant);
    var secs' := SetSlot(secs, k, x);
    assert Tidy(secs');
    if x[0] != DELETED {
      FindInTidy(secs', NameOf(x), k);
    }
    forall n: Name | n != NameOf(x) ensures Find(secs', n) == Find(secs, n) {
      FindOther(secs, k, x, n);
    }
  }

  lemma FindOther(secs: seq<Sector>, k: nat, x: Slot, name: Name)
    requires k < Count(secs) && Tidy(SetSlot(secs, k, x)) && Tidy(secs)
    requires !Matches(SlotAt(secs, k), name) && !Matches(x, name)
    ensures Find(SetSlot(secs, k, x), name) == Find(secs, name)
  {
    FindInTidy(SetSlot(secs, k, x), name, Find(secs, name));
  }

  /** Marking a found slot as deleted removes that name and no other. */
  lemma DeleteLookup(secs: seq<Sector>, name: Name)
    requires Tidy(secs) && DistinctNames(secs) && name[0] != DOT && Find(secs, name) < Count(secs)
    ensures var k := Find(secs, name);
            var secs' := SetSlot(secs, k, Deleted(SlotAt(secs, k)));
            && Tidy(secs') && DistinctNames(secs')
            && Find(secs', name) == Count(secs')
            && forall n: Name :: n != name ==> Find(secs', n) == Find(secs, n)
  {
    var k := Find(secs, name);
    var secs' := SetSlot(secs, k, Deleted(SlotAt(secs, k)));
    assert Tidy(secs');
    assert DistinctNames(secs');
    assert forall j :: 0 <= j < Count(secs) && j != k && Matches(SlotAt(secs, j), name) ==> IsLive(SlotAt(secs, j));
    FindInTidy(secs', name, Count(secs'));
    forall n: Name | n != name ensures Find(secs', n) == Find(secs, n) {
      FindOther(secs, k, Deleted(SlotAt(secs, k)), n);
    }
  }
}
