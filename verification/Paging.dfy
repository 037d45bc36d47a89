/** The first page table: an identity map of the first 4 MB, with a user bit for every page. */
module Paging {
  import opened Bytes

  const PAGE_SIZE := 4096
  const LIMIT := 0x40_0000 // what one table maps

  /** Frame address, present and writable: what an entry of the identity map holds besides the user bit. */
  function Identity(i: nat): Dword
    requires i < 1024
  {
    i * PAGE_SIZE + 3
  }

  /** The test `e & 4`. */
  predicate IsUser(e: Dword) {
    e / 4 % 2 == 1
  }

  /** e | 4 */
  function WithUser(e: Dword): (r: Dword)
    ensures IsUser(r)
    ensures e % 8 < 4 ==> r == e + 4
  {
    if IsUser(e) then e else e + 4
  }

  /** e & ~4 */
  function WithoutUser(e: Dword): (r: Dword)
    ensures !IsUser(r)
  {
    if IsUser(e) then e - 4 else e
  }

  /** The pages that a call with these bounds touches: those that overlap [start, end), cut at 4 MB. If the range
      is empty but not page-aligned, the page it lies in. */
  predicate Covers(start: Dword, end: Dword, i: nat) {
    start <= end && start < LIMIT
             && start / PAGE_SIZE <= i < ((if end > LIMIT then LIMIT else end) + PAGE_SIZE - 1) / PAGE_SIZE
  }

  /** These are the pages that hold some address of the range below 4 MB. Of an empty range it is the page that it
      lies in, unless it lies between two; of a range that ends before it starts, none. */
  lemma CoversOverlap(start: Dword, end: Dword, i: nat)
    ensures start < end ==> (Covers(start, end, i) <==> exists a :: start <= a < end && IsOnPage(a, i))
    ensures start == end ==> (Covers(start, end, i) <==> start % 0x1000 != 0 && IsOnPage(start, i))
    ensures start > end ==> !Covers(start, end, i)
  {
    if start < end && Covers(start, end, i) {
      var a: nat := if start / PAGE_SIZE == i then start as int else i * PAGE_SIZE;
      assert start <= a < end && IsOnPage(a, i);
    }
  }

  predicate IsOnPage(a: nat, i: nat) {
    a < 0x40_0000 && 0x1000 * i <= a < 0x1000 * i + 0x1000
  }

  /** An identity map, whatever the user bits. */
  predicate IsIdentity(table: seq<Dword>) {
    |table| == 1024 && forall i :: 0 <= i < 1024 ==> table[i] == Identity(i) || table[i] == Identity(i) + 4
  }

  lemma IdentityBits(i: nat)
    requires i < 1024
    ensures !IsUser(Identity(i)) && IsUser(Identity(i) + 4) && WithUser(Identity(i)) == Identity(i) + 4
    ensures WithUser(Identity(i) + 4) == Identity(i) + 4
    ensures WithoutUser(Identity(i)) == Identity(i) && WithoutUser(Identity(i) + 4) == Identity(i)
  {
    BitTwo(i * 512, 3);
    BitTwo(i * 512, 7);
  }

  lemma BitTwo(k: nat, r: nat)
    requires r < 8
    ensures (8 * k + r) / 4 % 2 == r / 4
  {
    assert (8 * k + r) / 4 == 2 * k + r / 4;
  }

  class PageTables {
    const directory: array<Dword>
    const table: array<Dword>

    ghost predicate Shaped()
      reads this
    {
      directory.Length == 1024 && table.Length == 1024 && directory != table
    }

    ghost predicate Valid()
      reads this, table
    {
      Shaped() && IsIdentity(table[..])
    }

    /** paging_init: only the first 4 MB are mapped, and no page is the user's. */
    constructor (tableAddr: Dword)
      requires tableAddr % PAGE_SIZE == 0
      ensures Valid() && fresh(directory) && fresh(table)
      ensures forall i :: 0 <= i < 1024 ==> table[i] == 0x1000 * i + 3 && !IsUser(table[i])
      ensures directory[0] == tableAddr + 7 && forall i :: 1 <= i < 1024 ==> directory[i] == 2
    {
      var d, t := new Dword[1024](_ => 0), new Dword[1024](_ => 0);
      for i := 0 to 1024
        invariant forall j :: 0 <= j < i ==> d[j] == 2
      {
        d[i] := 2;
      }
      for i := 0 to 1024
        invariant forall j :: 0 <= j < i ==> t[j] == Identity(j)
        invariant forall j :: 0 <= j < 1024 ==> d[j] == 2
      {
        t[i] := i * PAGE_SIZE + 3;
      }
      d[0] := tableAddr + 7;
      forall i | 0 <= i < 1024 ensures !IsUser(t[i]) {
        IdentityBits(i);
      }
      directory, table := d, t;
    }

    /** Sets or clears the user bit of one page. */
    method SetPage(idx: nat, user: bool)
      requires Valid() && idx < 1024
      modifies table
      ensures Valid() && (IsUser(table[idx]) <==> user)
      ensures forall i :: 0 <= i < 1024 && i != idx ==> table[i] == old(table[i])
    {
      IdentityBits(idx);
      assert table[..][idx] == Identity(idx) || table[..][idx] == Identity(idx) + 4;
      hide Identity;
      ghost var was := table[..];
      table[idx] := if user then WithUser(table[idx]) else WithoutUser(table[idx]);
      assert table[..] == was[idx := table[idx]];
    }

    /** Sets or clears the user bit of every page of the range. */
    method SetRange(start0: Dword, end0: Dword, user: bool)
      requires Valid()
      modifies table
      ensures Valid()
      ensures forall i :: 0 <= i < 1024 ==>
                            (IsUser(table[i]) <==> if Covers(start0, end0, i) then user else IsUser(old(table[i])))
    {
      hide IsUser, IsIdentity;
      if end0 < start0 || start0 >= LIMIT {
        return;
      }
      var end: nat := if end0 > LIMIT then LIMIT else end0;
      var start: nat := start0 / PAGE_SIZE * PAGE_SIZE;
      end := (end + PAGE_SIZE - 1) / PAGE_SIZE * PAGE_SIZE;
      var addr := start;
      ghost var page, first := start0 / PAGE_SIZE, start0 / PAGE_SIZE;
      ghost var last := end / PAGE_SIZE;
      while addr < end
        invariant addr == page * PAGE_SIZE && first <= page && (page <= last || page == first)
        invariant Valid()
        invariant forall i :: 0 <= i < 1024 ==>
                    (IsUser(table[i]) <==> if first <= i < page then user else IsUser(old(table[i])))
      {
        SetPage(addr / PAGE_SIZE, user);
        addr := addr + PAGE_SIZE;
        page := page + 1;
      }
    }

    method MarkUser(start: Dword, end: Dword)
      requires Valid()
      modifies table
      ensures Valid()
      ensures forall i :: 0 <= i < 1024 ==> (IsUser(table[i]) <==> Covers(start, end, i) || IsUser(old(table[i])))
    {
      SetRange(start, end, true);
    }

    method ClearUser(start: Dword, end: Dword)
      requires Valid()
      modifies table
      ensures Valid()
      ensures forall i :: 0 <= i < 1024 ==> (IsUser(table[i]) <==> !Covers(start, end, i) && IsUser(old(table[i])))
    {
      SetRange(start, end, false);
    }

    /** Takes the kernel's pages away from user mode. */
    method ProtectKernel(kernelStart: Dword, kernelEnd: Dword)
      requires Valid()
      modifies table
      ensures Valid()
      ensures forall i :: 0 <= i < 1024 ==>
                            (IsUser(table[i]) <==> !Covers(kernelStart, kernelEnd, i) && IsUser(old(table[i])))
    {
      SetRange(kernelStart, kernelEnd, false);
    }
  }
}
