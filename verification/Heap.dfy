/** The kernel heap: a linked list of block headers in memory, first fit, with merging of free neighbours. */
module Heap {
  import opened Bytes
  import opened Content

  const MAGIC: Dword := 0xAABB_CCDD
  const HEADER := 16

  /** A block as its header describes it; the payload follows the 16-byte header. */
  datatype Block = Block(addr: nat, size: nat, free: bool)
  {
    function Payload(): nat { addr + HEADER }
    function End(): nat { addr + HEADER + size }
  }

  function Align4(size: nat): (r: nat)
    ensures size <= r < size + 4 && r % 4 == 0
  {
    (size + 3) / 4 * 4
  }

  // ---------- lists of blocks ----------

  /** The blocks cover [start, end) one after the other: no gap and no overlap. */
  ghost predicate Tiles(blocks: seq<Block>, start: nat, end: nat) {
    && (if blocks == [] then start == end else blocks[0].addr == start && Last(blocks).End() == end)
    && forall i :: 0 <= i < |blocks| - 1 ==> blocks[i].End() == blocks[i + 1].addr
  }

  ghost predicate NoFreeNeighbours(blocks: seq<Block>) {
    forall i :: 0 <= i < |blocks| - 1 ==> !(blocks[i].free && blocks[i + 1].free)
  }

  ghost predicate Aligned(blocks: seq<Block>) {
    forall i :: 0 <= i < |blocks| ==> blocks[i].addr % 4 == 0 && blocks[i].size % 4 == 0
  }

  /** The blocks in use. */
  ghost function Live(blocks: seq<Block>): (r: set<Block>)
    ensures forall b :: b in r <==> b in blocks && !b.free
  {
    set b | b in blocks && !b.free
  }

  lemma {:induction false} TilesOrdered(blocks: seq<Block>, start: nat, end: nat, i: nat, j: nat)
    requires Tiles(blocks, start, end) && i < j < |blocks|
    ensures blocks[i].End() <= blocks[j].addr
    decreases j
  {
    if i < j - 1 {
      TilesOrdered(blocks, start, end, i, j - 1);
    }
  }

  lemma TilesInside(blocks: seq<Block>, start: nat, end: nat, i: nat)
    requires Tiles(blocks, start, end) && i < |blocks|
    ensures start <= blocks[i].addr && blocks[i].End() <= end
  {
    if i > 0 {
      TilesOrdered(blocks, start, end, 0, i);
    }
    if i < |blocks| - 1 {
      TilesOrdered(blocks, start, end, i, |blocks| - 1);
    }
  }

  function Extent(blocks: seq<Block>): nat {
    if blocks == [] then 0 else Extent(Front(blocks)) + HEADER + Last(blocks).size
  }

  /** The sizes with their headers add up to the extent of the heap. */
  lemma {:induction false} ExtentIs(blocks: seq<Block>, start: nat, end: nat)
    requires Tiles(blocks, start, end)
    ensures start + Extent(blocks) == end
  {
    if blocks != [] {
      assert Tiles(Front(blocks), start, Last(blocks).addr);
      ExtentIs(Front(blocks), start, Last(blocks).addr);
    }
  }

  /** Payloads of different blocks do not overlap, nor do payloads and headers. */
  lemma PayloadsApart(blocks: seq<Block>, start: nat, end: nat, a: Block, b: Block)
    requires Tiles(blocks, start, end) && a in blocks && b in blocks && a != b
    ensures a.End() <= b.addr || b.End() <= a.addr
  {
    var i :| 0 <= i < |blocks| && blocks[i] == a;
    var j :| 0 <= j < |blocks| && blocks[j] == b;
    if i < j {
      TilesOrdered(blocks, start, end, i, j);
    } else {
      TilesOrdered(blocks, start, end, j, i);
    }
  }

  // ---------- what the operations do to the list ----------

  predicate Fits(b: Block, size: nat) {
    b.free && b.size >= size
  }

  /** The first block that fits, or the number of blocks. */
  function FirstFit(blocks: seq<Block>, size: nat): (k: nat)
    ensures k <= |blocks| && (k < |blocks| ==> Fits(blocks[k], size))
    ensures forall i :: 0 <= i < k ==> !Fits(blocks[i], size)
  {
    if blocks == [] || Fits(blocks[0], size) then 0 else 1 + FirstFit(blocks[1..], size)
  }

  lemma FirstFitIs(blocks: seq<Block>, size: nat, k: nat)
    requires k <= |blocks| && (k < |blocks| ==> Fits(blocks[k], size))
    requires forall i :: 0 <= i < k ==> !Fits(blocks[i], size)
    ensures FirstFit(blocks, size) == k
  {
  }

  function Marked(blocks: seq<Block>, k: nat, free: bool): seq<Block>
    requires k < |blocks|
  {
    blocks[k := blocks[k].(free := free)]
  }

  /** The list after kmalloc: the first block that fits is taken whole, or a new one is put at the end. */
  function Allocated(blocks: seq<Block>, end: nat, size: nat): seq<Block> {
    var k := FirstFit(blocks, size);
    if k < |blocks| then Marked(blocks, k, false) else blocks + [Block(end, size, false)]
  }

  function Join(a: Block, b: Block): Block {
    Block(a.addr, a.size + HEADER + b.size, true)
  }

  /** The list with neighbouring free blocks joined, from the front on. */
  function Merged(blocks: seq<Block>): seq<Block>
    decreases |blocks|
  {
    if |blocks| < 2 then blocks
    else if blocks[0].free && blocks[1].free then Merged([Join(blocks[0], blocks[1])] + blocks[2..])
    else [blocks[0]] + Merged(blocks[1..])
  }

  lemma TilesTail(blocks: seq<Block>, start: nat, end: nat)
    requires Tiles(blocks, start, end) && Aligned(blocks) && blocks != []
    ensures Tiles(blocks[1..], blocks[0].End(), end) && Aligned(blocks[1..])
    ensures blocks[0].addr == start && blocks[0].addr % 4 == 0 && blocks[0].size % 4 == 0
  {
  }

  lemma TilesCons(b: Block, rest: seq<Block>, start: nat, end: nat)
    requires Tiles(rest, b.End(), end) && Aligned(rest) && b.addr == start && b.addr % 4 == 0 && b.size % 4 == 0
    ensures Tiles([b] + rest, start, end) && Aligned([b] + rest)
  {
    var blocks := [b] + rest;
    forall i | 0 <= i < |blocks| - 1 ensures blocks[i].End() == blocks[i + 1].addr {
      if i > 0 {
        assert rest[i - 1].End() == rest[i].addr;
      }
    }
  }

  lemma JoinedTiles(blocks: seq<Block>, start: nat, end: nat)
    requires Tiles(blocks, start, end) && Aligned(blocks) && |blocks| >= 2
    ensures var joined := [Join(blocks[0], blocks[1])] + blocks[2..];
            Tiles(joined, start, end) && Aligned(joined)
  {
    hide Tiles, Aligned;
    TilesTail(blocks, start, end);
    TilesTail(blocks[1..], blocks[0].End(), end);
    assert blocks[1..][1..] == blocks[2..];
    TilesCons(Join(blocks[0], blocks[1]), blocks[2..], start, end);
  }

  lemma {:induction false} MergedTiles(blocks: seq<Block>, start: nat, end: nat)
    requires Tiles(blocks, start, end) && Aligned(blocks)
    ensures Tiles(Merged(blocks), start, end) && Aligned(Merged(blocks))
    decreases |blocks|
  {
    hide Tiles, Aligned;
    if |blocks| >= 2 {
      if blocks[0].free && blocks[1].free {
        JoinedTiles(blocks, start, end);
        MergedTiles([Join(blocks[0], blocks[1])] + blocks[2..], start, end);
      } else {
        TilesTail(blocks, start, end);
        MergedTiles(blocks[1..], blocks[0].End(), end);
        TilesCons(blocks[0], Merged(blocks[1..]), start, end);
      }
    }
  }

  lemma {:induction false} MergedNoNeighbours(blocks: seq<Block>)
    ensures var m := Merged(blocks);
            NoFreeNeighbours(m) && (blocks != [] ==> m != [] && (m[0].free <==> blocks[0].free))
    decreases |blocks|
  {
    if |blocks| >= 2 {
      if blocks[0].free && blocks[1].free {
        MergedNoNeighbours([Join(blocks[0], blocks[1])] + blocks[2..]);
      } else {
        MergedNoNeighbours(blocks[1..]);
      }
    }
  }

  lemma {:induction false} MergedLive(blocks: seq<Block>)
    ensures Live(Merged(blocks)) == Live(blocks)
    decreases |blocks|
  {
    if |blocks| >= 2 {
      if blocks[0].free && blocks[1].free {
        var joined := [Join(blocks[0], blocks[1])] + blocks[2..];
        MergedLive(joined);
        assert blocks == [blocks[0], blocks[1]] + blocks[2..];
        assert Live(joined) == Live(blocks);
      } else {
        MergedLive(blocks[1..]);
        assert blocks == [blocks[0]] + blocks[1..];
        assert Live(Merged(blocks)) == Live([blocks[0]]) + Live(blocks[1..]) == Live(blocks);
      }
    }
  }

  /** Merging leaves no free neighbours, covers the same memory, and keeps every block in use. */
  lemma MergedGood(blocks: seq<Block>, start: nat, end: nat)
    requires Tiles(blocks, start, end) && Aligned(blocks)
    ensures var m := Merged(blocks);
            Tiles(m, start, end) && Aligned(m) && NoFreeNeighbours(m) && Live(m) == Live(blocks)
  {
    hide Tiles, Aligned, NoFreeNeighbours, Live, Merged;
    MergedTiles(blocks, start, end);
    MergedNoNeighbours(blocks);
    MergedLive(blocks);
  }

  /** Freeing one block takes it out of the blocks in use, and no other. */
  lemma FreedLive(blocks: seq<Block>, start: nat, end: nat, k: nat)
    requires Tiles(blocks, start, end) && k < |blocks| && !blocks[k].free
    ensures Live(Marked(blocks, k, true)) == Live(blocks) - {blocks[k]}
    ensures Tiles(Marked(blocks, k, true), start, end)
  {
    var marked := Marked(blocks, k, true);
    forall b ensures b in Live(marked) <==> b in Live(blocks) && b != blocks[k] {
      if b in Live(blocks) && b != blocks[k] {
        var i :| 0 <= i < |blocks| && blocks[i] == b;
        assert marked[i] == b;
      }
      if b in Live(marked) {
        var i :| 0 <= i < |blocks| && marked[i] == b;
        if i < k {
          TilesOrdered(blocks, start, end, i, k);
        } else if k < i {
          TilesOrdered(blocks, start, end, k, i);
        }
      }
    }
  }

  /** Taking a free block adds it to those in use. */
  lemma Taken(blocks: seq<Block>, start: nat, end: nat, k: nat)
    requires Tiles(blocks, start, end) && k < |blocks| && blocks[k].free
    ensures var b := blocks[k].(free := false);
            var marked := Marked(blocks, k, false);
            b in marked && b !in Live(blocks) && Live(marked) == Live(blocks) + {b}
  {
    var b := blocks[k].(free := false);
    var marked := Marked(blocks, k, false);
    assert marked[k] == b;
    forall c ensures c in Live(marked) <==> c in Live(blocks) || c == b {
      if c in Live(blocks) {
        var i :| 0 <= i < |blocks| && blocks[i] == c;
        assert marked[i] == c;
      }
    }
    if b in Live(blocks) {
      var i :| 0 <= i < |blocks| && blocks[i] == b;
      PayloadsApart(blocks, start, end, blocks[i], blocks[k]);
    }
  }

  /** A new block behind the last is new. */
  lemma Appended(blocks: seq<Block>, start: nat, end: nat, size: nat)
    requires Tiles(blocks, start, end)
    ensures var b := Block(end, size, false);
            b !in Live(blocks) && Live(blocks + [b]) == Live(blocks) + {b}
  {
    var b := Block(end, size, false);
    if b in blocks {
      var i :| 0 <= i < |blocks| && blocks[i] == b;
      TilesInside(blocks, start, end, i);
    }
  }

  lemma MarkedTiles(blocks: seq<Block>, start: nat, end: nat, k: nat, free: bool)
    requires Tiles(blocks, start, end) && Aligned(blocks) && k < |blocks|
    ensures Tiles(Marked(blocks, k, free), start, end) && Aligned(Marked(blocks, k, free))
    ensures NoFreeNeighbours(blocks) && !free ==> NoFreeNeighbours(Marked(blocks, k, free))
  {
  }

  lemma NeighboursAppend(blocks: seq<Block>, b: Block)
    requires NoFreeNeighbours(blocks) && !b.free
    ensures NoFreeNeighbours(blocks + [b])
  {
  }

  /** Allocating adds one block to those in use, disjoint from all of them, aligned and large enough. */
  lemma AllocatedGood(blocks: seq<Block>, start: nat, end: nat, size: nat) returns (b: Block)
    requires Tiles(blocks, start, end) && Aligned(blocks) && NoFreeNeighbours(blocks) && size % 4 == 0 && end % 4 == 0
    ensures var blocks', end' := Allocated(blocks, end, size), NewEnd(blocks, end, size);
            && Tiles(blocks', start, end') && Aligned(blocks') && NoFreeNeighbours(blocks') && end' % 4 == 0
            && b in blocks' && !b.free && b.size >= size && b !in Live(blocks) && Live(blocks') == Live(blocks) + {b}
  {
    hide Tiles, Aligned, NoFreeNeighbours, Live, Marked, FirstFit;
    var k := FirstFit(blocks, size);
    if k < |blocks| {
      b := blocks[k].(free := false);
      Taken(blocks, start, end, k);
      MarkedTiles(blocks, start, end, k, false);
    } else {
      b := Block(end, size, false);
      Appended(blocks, start, end, size);
      TilesAppend(blocks, start, b);
      NeighboursAppend(blocks, b);
    }
  }

  function NewEnd(blocks: seq<Block>, end: nat, size: nat): nat {
    if FirstFit(blocks, size) < |blocks| then end else end + HEADER + size
  }

  // ---------- headers in memory ----------

  /** The header of b, linked to the header at `next`. */
  ghost predicate IsHeader(mem: seq<Byte>, b: Block, next: nat) {
    && b.End() <= |mem| && b.addr > 0
    && Get32(mem, b.addr) == MAGIC && Get32(mem, b.addr + 4) == b.size
    && mem[b.addr + 8] == (if b.free then 1 else 0) && Get32(mem, b.addr + 12) == next
  }

  function AddrAt(blocks: seq<Block>, i: nat): nat {
    if i < |blocks| then blocks[i].addr else 0
  }

  /** The linked list in memory is this list of blocks. */
  ghost predicate IsList(mem: seq<Byte>, head: nat, blocks: seq<Block>) {
    head == AddrAt(blocks, 0) && forall i: nat :: i < |blocks| ==> HeaderAt(mem, blocks, i)
  }

  ghost predicate HeaderAt(mem: seq<Byte>, blocks: seq<Block>, i: nat)
    requires i < |blocks|
  {
    IsHeader(mem, blocks[i], AddrAt(blocks, i + 1))
  }

  ghost function Addrs(blocks: seq<Block>): (r: set<nat>)
    ensures forall b :: b in blocks ==> b.addr in r
    ensures forall h :: h in r ==> exists b :: b in blocks && b.addr == h
  {
    set b | b in blocks :: b.addr
  }

  predicate InHeader(h: nat, a: nat) {
    h <= a < h + HEADER
  }

  /** The two memories agree outside the headers at these addresses. */
  ghost predicate SameOutside(mem: seq<Byte>, mem': seq<Byte>, headers: set<nat>) {
    |mem'| == |mem| && forall a: nat :: a < |mem| && (forall h :: h in headers ==> !InHeader(h, a)) ==>
             mem'[a] == mem[a]
  }

  lemma SameOutsideTwice(mem0: seq<Byte>, mem: seq<Byte>, mem': seq<Byte>, headers: set<nat>, more: set<nat>)
    requires SameOutside(mem0, mem, headers) && SameOutside(mem, mem', more) && more <= headers
    ensures SameOutside(mem0, mem', headers)
  {
  }

  /** The payload bytes of b are the same in both memories. */
  ghost predicate SamePayload(mem: seq<Byte>, mem': seq<Byte>, b: Block) {
    b.End() <= |mem| == |mem'| && mem'[b.Payload()..b.End()] == mem[b.Payload()..b.End()]
  }

  lemma OutsidePayload(mem: seq<Byte>, mem': seq<Byte>, blocks: seq<Block>, start: nat, end: nat, b: Block)
    requires Tiles(blocks, start, end) && end <= |mem| && SameOutside(mem, mem', Addrs(blocks)) && b in blocks
    ensures SamePayload(mem, mem', b)
  {
    var i :| 0 <= i < |blocks| && blocks[i] == b;
    TilesInside(blocks, start, end, i);
    forall a: nat | b.Payload() <= a < b.End() ensures mem'[a] == mem[a] {
      forall h | h in Addrs(blocks) ensures !InHeader(h, a) {
        var c :| c in blocks && c.addr == h;
        if c != b {
          PayloadsApart(blocks, start, end, b, c);
        }
      }
    }
  }

  /** A header that is not written to stays. */
  lemma OtherHeader(mem: seq<Byte>, mem': seq<Byte>, b: Block, next: nat, at: nat)
    requires IsHeader(mem, b, next) && SameOutside(mem, mem', {at})
    requires at + HEADER <= b.addr || b.addr + HEADER <= at
    ensures IsHeader(mem', b, next)
  {
    assert forall a: nat :: b.addr <= a < b.addr + HEADER ==> mem'[a] == mem[a];
  }

  /** One header rewritten, which may swallow the n - 1 blocks behind it: the list follows. */
  lemma ListSpliced(mem: seq<Byte>, mem': seq<Byte>, head: nat, blocks: seq<Block>, start: nat, end: nat, k: nat,
        b': Block, n: nat)
    requires IsList(mem, head, blocks) && Tiles(blocks, start, end) && 0 < n && k + n <= |blocks|
    requires b'.addr == blocks[k].addr && SameOutside(mem, mem', {b'.addr}) && IsHeader(mem', b', AddrAt(blocks, k + n))
    ensures IsList(mem', head, blocks[..k] + [b'] + blocks[k + n..])
  {
    hide IsHeader, SameOutside, Tiles;
    var blocks' := blocks[..k] + [b'] + blocks[k + n..];
    forall i: nat | i < |blocks'| ensures HeaderAt(mem', blocks', i) {
      if i != k {
        var j := if i < k then i else i + n - 1;
        assert HeaderAt(mem, blocks, j);
        HeadersApart(blocks, start, end, j, k);
        OtherHeader(mem, mem', blocks[j], AddrAt(blocks, j + 1), b'.addr);
      }
    }
  }

  lemma HeadersApart(blocks: seq<Block>, start: nat, end: nat, i: nat, j: nat)
    requires Tiles(blocks, start, end) && i < |blocks| && j < |blocks| && i != j
    ensures blocks[i].addr + HEADER <= blocks[j].addr || blocks[j].addr + HEADER <= blocks[i].addr
  {
    if i < j {
      TilesOrdered(blocks, start, end, i, j);
    } else {
      TilesOrdered(blocks, start, end, j, i);
    }
  }

  /** The free byte of block k rewritten. */
  lemma MarkWritten(mem: seq<Byte>, head: nat, blocks: seq<Block>, start: nat, end: nat, k: nat, free: bool)
    requires IsList(mem, head, blocks) && Tiles(blocks, start, end) && k < |blocks|
    ensures blocks[k].addr + 8 < |mem|
    ensures var mem' := mem[blocks[k].addr + 8 := if free then 1 else 0];
            IsList(mem', head, Marked(blocks, k, free)) && SameOutside(mem, mem', Addrs(blocks))
  {
    assert HeaderAt(mem, blocks, k);
    var b := blocks[k].(free := free);
    var mem' := mem[blocks[k].addr + 8 := if free then 1 else 0];
    assert SameOutside(mem, mem', {b.addr});
    hide IsList, Tiles;
    ListSpliced(mem, mem', head, blocks, start, end, k, b, 1);
    assert blocks[..k] + [b] + blocks[k + 1..] == Marked(blocks, k, free);
    assert {b.addr} <= Addrs(blocks);
    SameOutsideMore(mem, mem', {b.addr}, Addrs(blocks));
  }

  lemma SameOutsideMore(mem: seq<Byte>, mem': seq<Byte>, headers: set<nat>, more: set<nat>)
    requires SameOutside(mem, mem', headers) && headers <= more
    ensures SameOutside(mem, mem', more)
  {
  }

  /** The memory with the header of b written. */
  function WithHeader(mem: seq<Byte>, b: Block, next: Dword): (r: seq<Byte>)
    requires b.addr + HEADER <= |mem| && b.size < 0x1_0000_0000
  {
    var sized := Put32(Put32(mem, b.addr, MAGIC), b.addr + 4, b.size);
    Put32(sized[b.addr + 8 := if b.free then 1 else 0], b.addr + 12, next)
  }

  lemma HeaderWritten(mem: seq<Byte>, b: Block, next: Dword)
    requires b.End() <= |mem| < 0x1_0000_0000 && b.addr > 0
    ensures var mem' := WithHeader(mem, b, next);
            IsHeader(mem', b, next) && SameOutside(mem, mem', {b.addr})
  {
    var m1 := Put32(mem, b.addr, MAGIC);
    var m2 := Put32(m1, b.addr + 4, b.size);
    var m3 := m2[b.addr + 8 := if b.free then 1 else 0];
    var m4 := Put32(m3, b.addr + 12, next);
    assert Get32(m4, b.addr) == Get32(m3, b.addr) == Get32(m2, b.addr) == Get32(m1, b.addr);
    assert Get32(m4, b.addr + 4) == Get32(m3, b.addr + 4) == Get32(m2, b.addr + 4);
  }

  /** Writing behind the last block leaves the list alone. */
  lemma ListBefore(mem: seq<Byte>, mem': seq<Byte>, head: nat, blocks: seq<Block>, start: nat, end: nat)
    requires IsList(mem, head, blocks) && Tiles(blocks, start, end) && SameOutside(mem, mem', {end})
    ensures IsList(mem', head, blocks)
  {
    hide IsHeader, SameOutside, Tiles;
    forall i: nat | i < |blocks| ensures HeaderAt(mem', blocks, i) {
      assert HeaderAt(mem, blocks, i);
      TilesInside(blocks, start, end, i);
      OtherHeader(mem, mem', blocks[i], AddrAt(blocks, i + 1), end);
    }
  }

  /** The new block linked behind the last. */
  lemma LastLinked(mem: seq<Byte>, mem': seq<Byte>, head: nat, blocks: seq<Block>, start: nat, b: Block)
    requires IsList(mem, head, blocks) && Tiles(blocks, start, b.addr) && blocks != [] && IsHeader(mem, b, 0)
    requires b.addr < 0x1_0000_0000 && Last(blocks).addr + HEADER <= |mem|
    requires mem' == Put32(mem, Last(blocks).addr + 12, b.addr)
    ensures IsList(mem', head, blocks + [b]) && SameOutside(mem, mem', {Last(blocks).addr})
  {
    var n := |blocks| - 1;
    var last := blocks[n];
    assert HeaderAt(mem, blocks, n);
    assert IsHeader(mem', last, b.addr);
    assert SameOutside(mem, mem', {last.addr});
    OtherHeader(mem, mem', b, 0, last.addr);
    hide IsHeader, SameOutside, Put32, Tiles;
    forall i: nat | i < |blocks + [b]| ensures HeaderAt(mem', blocks + [b], i) {
      if i < n {
        assert HeaderAt(mem, blocks, i);
        HeadersApart(blocks, start, b.addr, i, n);
        OtherHeader(mem, mem', blocks[i], AddrAt(blocks, i + 1), last.addr);
      }
    }
  }

  lemma StartBeforeEnd(blocks: seq<Block>, start: nat, end: nat)
    requires Tiles(blocks, start, end)
    ensures start <= end
  {
    if blocks != [] {
      TilesInside(blocks, start, end, 0);
    }
  }

  lemma TilesAppend(blocks: seq<Block>, start: nat, b: Block)
    requires Tiles(blocks, start, b.addr)
    ensures Tiles(blocks + [b], start, b.End())
    ensures Aligned(blocks) && b.addr % 4 == 0 && b.size % 4 == 0 ==> Aligned(blocks + [b])
  {
  }

  lemma AtHead(mem: seq<Byte>, head: nat, blocks: seq<Block>)
    requires IsList(mem, head, blocks)
    ensures head == AddrAt(blocks, 0)
  {
  }

  lemma AtEnd(mem: seq<Byte>, head: nat, blocks: seq<Block>, i: nat)
    requires IsList(mem, head, blocks) && i <= |blocks| && AddrAt(blocks, i) == 0
    ensures i == |blocks|
  {
    assert i < |blocks| ==> HeaderAt(mem, blocks, i);
  }

  /** What the driver reads at the i-th header. */
  lemma ReadHeader(mem: seq<Byte>, head: nat, blocks: seq<Block>, i: nat)
    requires IsList(mem, head, blocks) && i <= |blocks| && AddrAt(blocks, i) != 0
    ensures i < |blocks| && blocks[i].addr == AddrAt(blocks, i) && blocks[i].End() <= |mem|
    ensures var a := AddrAt(blocks, i);
            && Get32(mem, a) == MAGIC && Get32(mem, a + 4) == blocks[i].size
            && (mem[a + 8] != 0 <==> blocks[i].free)
            && Get32(mem, a + 12) == AddrAt(blocks, i + 1)
  {
    hide Get32;
    assert HeaderAt(mem, blocks, i);
  }

  lemma AtStart(mem: seq<Byte>, head: nat, blocks: seq<Block>)
    requires IsList(mem, head, blocks) && blocks != []
    ensures AddrAt(blocks, 0) == blocks[0].addr != 0
  {
    assert HeaderAt(mem, blocks, 0);
  }

  /** The header that extend_heap writes. */
  method NewHeader(mem: seq<Byte>, addr: nat, size: nat) returns (mem': seq<Byte>)
    requires addr + HEADER + size <= |mem| < 0x1_0000_0000
    ensures mem' == WithHeader(mem, Block(addr, size, false), 0)
  {
    mem' := Put32(mem, addr, MAGIC);
    mem' := Put32(mem', addr + 4, size);
    mem' := mem'[addr + 8 := 0];
    mem' := Put32(mem', addr + 12, 0);
  }

  lemma HeaderLength(mem: seq<Byte>, mem': seq<Byte>, headers: set<nat>)
    requires SameOutside(mem, mem', headers)
    ensures |mem'| == |mem|
  {
  }

  lemma FirstBlock(mem: seq<Byte>, blocks: seq<Block>, b: Block)
    requires IsList(mem, 0, blocks) && IsHeader(mem, b, 0)
    ensures IsList(mem, b.addr, blocks + [b]) && {b.addr} <= Addrs(blocks + [b])
  {
    AtHead(mem, 0, blocks);
    AtEnd(mem, 0, blocks, 0);
    assert forall i: nat :: i < 1 ==> HeaderAt(mem, [b], i);
    assert blocks + [b] == [b];
    assert b in blocks + [b];
  }

  lemma NotFirst(mem: seq<Byte>, head: nat, blocks: seq<Block>)
    requires IsList(mem, head, blocks) && head != 0
    ensures blocks != []
  {
  }

  lemma InAddrs(blocks: seq<Block>, b: Block)
    requires blocks != []
    ensures {Last(blocks).addr} <= Addrs(blocks + [b]) && {b.addr} <= Addrs(blocks + [b])
  {
    assert b in blocks + [b] && Last(blocks) in blocks + [b];
  }

  lemma FoundBlock(blocks: seq<Block>, k: nat)
    requires AddrAt(blocks, k) != 0
    ensures k < |blocks| && blocks[k].addr == AddrAt(blocks, k)
  {
  }

  lemma NoBlock(mem: seq<Byte>, head: nat, blocks: seq<Block>, k: nat)
    requires IsList(mem, head, blocks) && k <= |blocks| && AddrAt(blocks, k) == 0
    ensures k == |blocks|
  {
    AtEnd(mem, head, blocks, k);
  }

  /** The new block is where the driver says. */
  lemma AllocatedAt(blocks: seq<Block>, end: nat, size: nat, b: Block)
    requires b in Allocated(blocks, end, size) && !b.free && b !in Live(blocks)
    ensures var k := FirstFit(blocks, size);
            if k < |blocks| then Allocated(blocks, end, size) == Marked(blocks, k, false) && b.addr == blocks[k].addr
            else Allocated(blocks, end, size) == blocks + [Block(end, size, false)] && b.addr == end
  {
  }

  lemma PayloadsKept(mem: seq<Byte>, mem': seq<Byte>, blocks: seq<Block>, start: nat, end: nat)
    requires Tiles(blocks, start, end) && end <= |mem| && SameOutside(mem, mem', Addrs(blocks))
    ensures forall b :: b in blocks ==> SamePayload(mem, mem', b)
  {
    forall b | b in blocks ensures SamePayload(mem, mem', b) {
      OutsidePayload(mem, mem', blocks, start, end, b);
    }
  }

  lemma BlockAligned(blocks: seq<Block>, b: Block)
    requires Aligned(blocks) && b in blocks
    ensures b.Payload() % 4 == 0
  {
  }

  lemma BlocksApart(blocks: seq<Block>, start: nat, end: nat, before: seq<Block>, b: Block)
    requires Tiles(blocks, start, end) && b in blocks && b !in Live(before) && Live(blocks) == Live(before) + {b}
    ensures IsNewBlock(before, blocks, b) && forall c :: c in Live(before) ==> c in blocks
  {
    forall c | c in Live(before) ensures c in blocks && (c.End() <= b.addr || b.End() <= c.addr) {
      assert c in Live(blocks);
      PayloadsApart(blocks, start, end, c, b);
    }
  }

  // ---------- joining ----------

  function Joined(blocks: seq<Block>, i: nat): seq<Block>
    requires i + 1 < |blocks|
  {
    blocks[..i] + [Join(blocks[i], blocks[i + 1])] + blocks[i + 2..]
  }

  /** The blocks before i are final, and merging the rest completes the merging of `from`. */
  ghost predicate IsMerging(from: seq<Block>, blocks: seq<Block>, i: nat) {
    i <= |blocks| && Merged(from) == blocks[..i] + Merged(blocks[i..])
  }

  lemma NothingMerged(mem: seq<Byte>, blocks: seq<Block>)
    ensures IsMerging(blocks, blocks, 0) && SameOutside(mem, mem, Addrs(blocks))
  {
    assert blocks[..0] == [] && blocks[0..] == blocks;
  }

  lemma JoinInRange(blocks: seq<Block>, start: nat, end: nat, i: nat)
    requires Tiles(blocks, start, end) && i + 1 < |blocks|
    ensures blocks[i].size + HEADER + blocks[i + 1].size <= end
  {
    TilesInside(blocks, start, end, i + 1);
  }

  lemma JoinWritten(mem: seq<Byte>, mem': seq<Byte>, head: nat, blocks: seq<Block>, start: nat, end: nat, i: nat)
    requires IsList(mem, head, blocks) && Tiles(blocks, start, end) && Aligned(blocks) && end <= |mem| < 0x1_0000_0000
    requires i + 1 < |blocks| && blocks[i].free && blocks[i + 1].free
    requires blocks[i].addr + HEADER <= |mem| && blocks[i].size + HEADER + blocks[i + 1].size <= end
    requires AddrAt(blocks, i + 2) < 0x1_0000_0000
    requires mem' == Put32(Put32(mem, blocks[i].addr + 4, blocks[i].size + HEADER + blocks[i + 1].size),
                           blocks[i].addr + 12, AddrAt(blocks, i + 2))
    ensures var bs := Joined(blocks, i);
            && IsList(mem', head, bs) && Tiles(bs, start, end) && Aligned(bs)
            && SameOutside(mem, mem', Addrs(blocks)) && Addrs(bs) <= Addrs(blocks) && AddrAt(bs, i) == AddrAt(blocks, i)
  {
    hide IsHeader, Put32, Tiles, Aligned, SameOutside, IsList, HeaderAt, Addrs, AddrAt;
    var b := Join(blocks[i], blocks[i + 1]);
    TwoHeaders(mem, head, blocks, start, end, i);
    JoinHeader(mem, mem', blocks, i, end);
    JoinTiles(blocks, start, end, i);
    ListSpliced(mem, mem', head, blocks, start, end, i, b, 2);
    JoinAddrs(blocks, i);
    SameOutsideMore(mem, mem', {b.addr}, Addrs(blocks));
  }

  lemma TwoHeaders(mem: seq<Byte>, head: nat, blocks: seq<Block>, start: nat, end: nat, i: nat)
    requires IsList(mem, head, blocks) && Tiles(blocks, start, end) && i + 1 < |blocks|
    ensures HeaderAt(mem, blocks, i) && HeaderAt(mem, blocks, i + 1)
    ensures blocks[i].End() == blocks[i + 1].addr && blocks[i + 1].End() <= end
  {
    TilesInside(blocks, start, end, i + 1);
  }

  lemma JoinHeader(mem: seq<Byte>, mem': seq<Byte>, blocks: seq<Block>, i: nat, end: nat)
    requires i + 1 < |blocks| && HeaderAt(mem, blocks, i) && HeaderAt(mem, blocks, i + 1)
             && end <= |mem| < 0x1_0000_0000
    requires blocks[i].End() == blocks[i + 1].addr && blocks[i + 1].End() <= end && blocks[i].free
    requires AddrAt(blocks, i + 2) < 0x1_0000_0000
    requires mem' == Put32(Put32(mem, blocks[i].addr + 4, blocks[i].size + HEADER + blocks[i + 1].size),
                           blocks[i].addr + 12, AddrAt(blocks, i + 2))
    ensures var b := Join(blocks[i], blocks[i + 1]);
            IsHeader(mem', b, AddrAt(blocks, i + 2)) && SameOutside(mem, mem', {b.addr})
  {
    var a := blocks[i].addr;
    var m := Put32(mem, a + 4, blocks[i].size + HEADER + blocks[i + 1].size);
    assert Get32(mem', a) == Get32(m, a) == Get32(mem, a);
    assert Get32(mem', a + 4) == Get32(m, a + 4);
  }

  lemma JoinTiles(blocks: seq<Block>, start: nat, end: nat, i: nat)
    requires Tiles(blocks, start, end) && Aligned(blocks) && i + 1 < |blocks|
    ensures Tiles(Joined(blocks, i), start, end) && Aligned(Joined(blocks, i))
  {
    var bs := Joined(blocks, i);
    forall j | 0 <= j < |bs| - 1 ensures bs[j].End() == bs[j + 1].addr {
      if j < i {
        assert blocks[j].End() == blocks[j + 1].addr;
      } else {
        assert blocks[j + 1].End() == blocks[j + 2].addr;
      }
    }
    assert Last(bs).End() == Last(blocks).End();
  }

  lemma JoinAddrs(blocks: seq<Block>, i: nat)
    requires i + 1 < |blocks|
    ensures Addrs(Joined(blocks, i)) <= Addrs(blocks) && {blocks[i].addr} <= Addrs(blocks)
    ensures AddrAt(Joined(blocks, i), i) == AddrAt(blocks, i)
  {
    assert blocks[i] in blocks;
    forall h | h in Addrs(Joined(blocks, i)) ensures h in Addrs(blocks) {
      var b :| b in Joined(blocks, i) && b.addr == h;
      if b !in blocks {
        assert b == Join(blocks[i], blocks[i + 1]);
      }
    }
  }

  lemma StillMerging(from: seq<Block>, blocks: seq<Block>, i: nat)
    requires IsMerging(from, blocks, i) && i + 1 < |blocks| && blocks[i].free && blocks[i + 1].free
    ensures IsMerging(from, Joined(blocks, i), i)
  {
    var bs := Joined(blocks, i);
    assert bs[..i] == blocks[..i];
    assert bs[i..] == [Join(blocks[i], blocks[i + 1])] + blocks[i..][2..];
  }

  lemma SteppedOver(from: seq<Block>, blocks: seq<Block>, i: nat)
    requires IsMerging(from, blocks, i) && i + 1 < |blocks| && !(blocks[i].free && blocks[i + 1].free)
    ensures IsMerging(from, blocks, i + 1)
  {
    assert blocks[i..][1..] == blocks[i + 1..];
    assert blocks[..i + 1] == blocks[..i] + [blocks[i]];
  }

  lemma LastOne(mem: seq<Byte>, head: nat, blocks: seq<Block>, i: nat)
    requires IsList(mem, head, blocks) && i <= |blocks|
    requires AddrAt(blocks, i) == 0 || AddrAt(blocks, i + 1) == 0
    ensures |blocks[i..]| < 2
  {
    if i + 1 < |blocks| {
      ReadNonzero(mem, head, blocks, i);
      ReadNonzero(mem, head, blocks, i + 1);
    }
  }

  lemma ReadNonzero(mem: seq<Byte>, head: nat, blocks: seq<Block>, i: nat)
    requires IsList(mem, head, blocks) && i < |blocks|
    ensures AddrAt(blocks, i) > 0
  {
    assert HeaderAt(mem, blocks, i);
  }

  lemma MergingEnds(from: seq<Block>, blocks: seq<Block>, i: nat)
    requires IsMerging(from, blocks, i) && |blocks[i..]| < 2
    ensures blocks == Merged(from)
  {
    assert blocks[..i] + blocks[i..] == blocks;
  }

  // ---------- freeing ----------

  lemma NoPayloadAtZero(blocks: seq<Block>)
    ensures forall b :: b in Live(blocks) ==> b.Payload() != 0
  {
  }

  /** The block whose payload is at ptr, and its header. */
  lemma LiveIndex(mem: seq<Byte>, head: nat, blocks: seq<Block>, start: nat, end: nat, ptr: nat) returns (k: nat)
    requires IsList(mem, head, blocks) && Tiles(blocks, start, end) && end <= |mem|
    requires exists b :: b in Live(blocks) && b.Payload() == ptr
    ensures k < |blocks| && !blocks[k].free && blocks[k].addr + HEADER == ptr <= |mem|
    ensures Get32(mem, blocks[k].addr) == MAGIC
  {
    var b :| b in Live(blocks) && b.Payload() == ptr;
    k :| 0 <= k < |blocks| && blocks[k] == b;
    assert HeaderAt(mem, blocks, k);
  }

  lemma MarkedAddrs(blocks: seq<Block>, k: nat, free: bool)
    requires k < |blocks|
    ensures Addrs(Marked(blocks, k, free)) <= Addrs(blocks)
  {
    var marked := Marked(blocks, k, free);
    forall h | h in Addrs(marked) ensures h in Addrs(blocks) {
      var b :| b in marked && b.addr == h;
      var i :| 0 <= i < |marked| && marked[i] == b;
      assert blocks[i] in blocks && blocks[i].addr == h;
    }
  }

  lemma OnlyThat(blocks: seq<Block>, start: nat, end: nat, k: nat, ptr: nat)
    requires Tiles(blocks, start, end) && k < |blocks| && blocks[k].Payload() == ptr
    ensures forall b :: b in Live(blocks) && b.Payload() == ptr ==> b == blocks[k]
  {
    forall b | b in Live(blocks) && b.Payload() == ptr ensures b == blocks[k] {
      if b != blocks[k] {
        PayloadsApart(blocks, start, end, b, blocks[k]);
      }
    }
  }

  lemma StillThere(before: seq<Block>, after: seq<Block>, b: Block)
    requires Live(after) == Live(before) - {b}
    ensures forall c :: c in Live(after) ==> c in before
  {
  }

  /** b is in use now and was not before; every other block in use was and is, and lies clear of b. */
  ghost predicate IsNewBlock(before: seq<Block>, after: seq<Block>, b: Block) {
    && b in after && b !in Live(before) && Live(after) == Live(before) + {b}
    && forall c :: c in Live(before) ==> c.End() <= b.addr || b.End() <= c.addr
  }

  class KernelHeap {
    var mem: seq<Byte>
    var heapHead: nat
    var heapEnd: nat
    ghost var heapStart: nat
    ghost var blocks: seq<Block>

    ghost predicate Valid()
      reads this
    {
      && 0 < heapStart && heapStart % 4 == 0 && heapEnd % 4 == 0 && heapEnd <= |mem| < 0x1_0000_0000
      && IsList(mem, heapHead, blocks)
      && Tiles(blocks, heapStart, heapEnd) && Aligned(blocks) && NoFreeNeighbours(blocks)
    }

    /** The list in memory, without the promise that no free neighbours are left. */
    ghost predicate Listed()
      reads this
    {
      && 0 < heapStart && heapStart % 4 == 0 && heapEnd % 4 == 0 && heapEnd <= |mem| < 0x1_0000_0000
      && IsList(mem, heapHead, blocks)
      && Tiles(blocks, heapStart, heapEnd) && Aligned(blocks)
    }

    constructor (mem: seq<Byte>, start: nat)
      requires 0 < start <= |mem| < 0x1_0000_0000 && start % 4 == 0
      ensures Valid() && blocks == [] && heapStart == start == heapEnd && this.mem == mem
    {
      this.mem := mem;
      heapHead := 0;
      heapEnd := start;
      heapStart := start;
      blocks := [];
    }

    /** Walks the list for the first free block that is large enough; 0 if there is none. */
    method FindFreeBlock(size: nat) returns (addr: nat)
      requires Valid()
      ensures addr == AddrAt(blocks, FirstFit(blocks, size))
      ensures if addr == 0 then forall b :: b in blocks ==> !b.free || b.size < size
              else exists k ::
                && 0 <= k < |blocks| && blocks[k].addr == addr && blocks[k].free && blocks[k].size >= size
                && forall i :: 0 <= i < k ==> !blocks[i].free || blocks[i].size < size
    {
      hide FirstFit, Tiles, Aligned, NoFreeNeighbours, IsList, Get32, AddrAt;
      AtHead(mem, heapHead, blocks);
      var current := heapHead;
      ghost var i := 0;
      while current != 0
        invariant i <= |blocks| && current == AddrAt(blocks, i)
        invariant forall j :: 0 <= j < i ==> !Fits(blocks[j], size)
        decreases |blocks| - i
      {
        ReadHeader(mem, heapHead, blocks, i);
        // The driver halts here if the magic word is wrong: it never is.
        assert Get32(mem, current) == MAGIC;
        if mem[current + 8] != 0 && Get32(mem, current + 4) >= size {
          FirstFitIs(blocks, size, i);
          return current;
        }
        current := Get32(mem, current + 12);
        i := i + 1;
      }
      AtEnd(mem, heapHead, blocks, i);
      FirstFitIs(blocks, size, i);
      return 0;
    }

    /** Walks to the last block and makes it link to addr. */
    method LinkLast(addr: nat, ghost bs: seq<Block>)
      requires bs != [] && IsList(mem, heapHead, bs) && addr < 0x1_0000_0000
      modifies this`mem
      ensures Last(bs).addr + HEADER <= |old(mem)| && mem == Put32(old(mem), Last(bs).addr + 12, addr)
    {
      hide IsList, Get32, Put32;
      var current := heapHead;
      ghost var i := 0;
      AtHead(mem, heapHead, bs);
      AtStart(mem, heapHead, bs);
      ReadHeader(mem, heapHead, bs, 0);
      while Get32(mem, current + 12) != 0
        invariant mem == old(mem) && i < |bs| && current == bs[i].addr && current + HEADER <= |mem|
        invariant Get32(mem, current + 12) == AddrAt(bs, i + 1)
        decreases |bs| - i
      {
        current := Get32(mem, current + 12);
        i := i + 1;
        ReadHeader(mem, heapHead, bs, i);
      }
      AtEnd(mem, heapHead, bs, i + 1);
      mem := Put32(mem, current + 12, addr);
    }

    /** Takes memory for a new block at the end of the heap and links it behind the last one. */
    method ExtendHeap(size: nat) returns (addr: nat)
      requires Valid() && size % 4 == 0 && heapEnd + HEADER + size <= |mem|
      modifies this
      ensures addr == old(heapEnd) && heapEnd == old(heapEnd) + HEADER + size && heapStart == old(heapStart)
      ensures blocks == old(blocks) + [Block(addr, size, false)] && Listed()
      ensures SameOutside(old(mem), mem, Addrs(blocks))
    {
      hide Tiles, IsList, IsHeader, Put32, SameOutside, NoFreeNeighbours, WithHeader, Aligned;
      addr := heapEnd;
      StartBeforeEnd(blocks, heapStart, heapEnd);
      ghost var b, mem0, bs := Block(addr, size, false), mem, blocks;
      mem := NewHeader(mem, addr, size);
      HeaderWritten(mem0, b, 0);
      HeaderLength(mem0, mem, {addr});
      ListBefore(mem0, mem, heapHead, bs, heapStart, addr);
      TilesAppend(bs, heapStart, b);
      heapEnd := heapEnd + (HEADER + size);
      blocks := bs + [b];
      ghost var mem1 := mem;
      if heapHead == 0 {
        heapHead := addr;
        FirstBlock(mem1, bs, b);
        SameOutsideMore(mem0, mem1, {addr}, Addrs(blocks));
      } else {
        NotFirst(mem1, heapHead, bs);
        LinkLast(addr, bs);
        LastLinked(mem1, mem, heapHead, bs, heapStart, b);
        HeaderLength(mem1, mem, {Last(bs).addr});
        InAddrs(bs, b);
        SameOutsideMore(mem0, mem1, {addr}, Addrs(blocks));
        SameOutsideTwice(mem0, mem1, mem, Addrs(blocks), {Last(bs).addr});
      }
    }

    /** Allocates a block: the first free one that is large enough, or a new one. The payload is aligned, large
        enough, and disjoint from every payload in use, whose bytes do not change. */
    method Kmalloc(size0: nat) returns (p: nat)
      requires Valid()
      requires FirstFit(blocks, Align4(size0)) == |blocks| ==> heapEnd + HEADER + Align4(size0) <= |mem|
      modifies this
      ensures Valid() && heapStart == old(heapStart) && |mem| == |old(mem)|
      ensures blocks == Allocated(old(blocks), old(heapEnd), Align4(size0))
      ensures heapEnd == NewEnd(old(blocks), old(heapEnd), Align4(size0))
      ensures p % 4 == 0 && exists b :: IsNewBlock(old(blocks), blocks, b) && b.Payload() == p && b.size >= size0
      ensures forall c :: c in Live(old(blocks)) ==> SamePayload(old(mem), mem, c)
    {
      hide IsList, SameOutside, FirstFit, Marked, SamePayload, IsNewBlock, Live, Allocated, Tiles, NoFreeNeighbours,
        Aligned;
      var size := Align4(size0);
      ghost var mem0, bs, end0 := mem, blocks, heapEnd;
      ghost var k := FirstFit(bs, size);
      ghost var b := AllocatedGood(bs, heapStart, heapEnd, size);
      var block := FindFreeBlock(size);
      if block != 0 {
        FoundBlock(bs, k);
        MarkWritten(mem, heapHead, bs, heapStart, heapEnd, k, false);
        mem := mem[block + 8 := 0];
        blocks := Marked(bs, k, false);
        HeaderLength(mem0, mem, Addrs(bs));
        AllocatedAt(bs, end0, size, b);
        PayloadsKept(mem0, mem, bs, heapStart, heapEnd);
        p := block + HEADER;
      } else {
        NoBlock(mem, heapHead, bs, k);
        block := ExtendHeap(size);
        HeaderLength(mem0, mem, Addrs(blocks));
        AllocatedAt(bs, end0, size, b);
        PayloadsKept(mem0, mem, blocks, heapStart, heapEnd);
        p := block + HEADER;
      }
      BlocksApart(blocks, heapStart, heapEnd, bs, b);
      BlockAligned(blocks, b);
    }

    /** Joins neighbouring free blocks, in one pass over the list. */
    method MergeFreeBlocks()
      requires Listed()
      modifies this`mem, this`blocks
      ensures Listed() && blocks == Merged(old(blocks)) && SameOutside(old(mem), mem, Addrs(old(blocks)))
    {
      hide Tiles, Aligned, IsList, SameOutside, Merged, Get32, Put32, Addrs, AddrAt, IsMerging;
      ghost var mem0, bs0, start := mem, blocks, heapStart;
      var current := heapHead;
      ghost var i := 0;
      AtHead(mem, heapHead, blocks);
      NothingMerged(mem, blocks);
      if current != 0 {
        ReadHeader(mem, heapHead, blocks, 0);
      }
      while current != 0 && NextOf(current) != 0
        invariant heapHead == old(heapHead) && heapEnd == old(heapEnd) && heapStart == start && |mem| == |mem0|
        invariant Listed() && i <= |blocks| && current == AddrAt(blocks, i)
        invariant current != 0 ==> current + HEADER <= |mem|
        invariant IsMerging(bs0, blocks, i) && SameOutside(mem0, mem, Addrs(bs0)) && Addrs(blocks) <= Addrs(bs0)
        decreases |blocks| - i
      {
        ghost var mem1, bs1 := mem, blocks;
        ReadHeader(mem, heapHead, blocks, i);
        var next := Get32(mem, current + 12);
        ReadHeader(mem, heapHead, blocks, i + 1);
        if mem[current + 8] != 0 && mem[next + 8] != 0 {
          JoinInRange(blocks, heapStart, heapEnd, i);
          TwoHeaders(mem, heapHead, blocks, heapStart, heapEnd, i);
          var size: nat := Get32(mem, current + 4) as nat + HEADER + Get32(mem, next + 4);
          Get32Elsewhere(mem, current + 4, size, next + 12);
          mem := Put32(mem, current + 4, size);
          mem := Put32(mem, current + 12, Get32(mem, next + 12));
          JoinWritten(mem1, mem, heapHead, bs1, heapStart, heapEnd, i);
          blocks := Joined(bs1, i);
          StillMerging(bs0, bs1, i);
          SameOutsideTwice(mem0, mem1, mem, Addrs(bs0), Addrs(bs1));
        } else {
          current := next;
          i := i + 1;
          SteppedOver(bs0, blocks, i - 1);
        }
      }
      if current != 0 {
        ReadHeader(mem, heapHead, blocks, i);
      }
      LastOne(mem, heapHead, blocks, i);
      MergingEnds(bs0, blocks, i);
    }

    function NextOf(addr: nat): nat
      requires addr + HEADER <= |mem|
      reads this
    {
      Get32(mem, addr + 12)
    }

    /** Frees the block in use whose payload is at ptr, and joins it with free neighbours. Every other block in
        use stays, with its bytes. */
    method Kfree(ptr: nat)
      requires Valid() && (ptr == 0 || exists b :: b in Live(blocks) && b.Payload() == ptr)
      modifies this
      ensures Valid() && heapStart == old(heapStart) && heapEnd == old(heapEnd) && |mem| == |old(mem)|
      ensures ptr == 0 ==> mem == old(mem) && blocks == old(blocks)
      ensures forall b :: b in Live(old(blocks)) && b.Payload() == ptr ==> Live(blocks) == Live(old(blocks)) - {b}
      ensures ptr != 0 ==> forall c :: c in Live(blocks) ==> SamePayload(old(mem), mem, c)
    {
      hide Tiles, Aligned, IsList, SameOutside, Merged, Get32, Addrs, NoFreeNeighbours, Marked, SamePayload, Live;
      if ptr == 0 {
        NoPayloadAtZero(blocks);
        return;
      }
      ghost var mem0, bs := mem, blocks;
      ghost var k := LiveIndex(mem, heapHead, bs, heapStart, heapEnd, ptr);
      var block := ptr - HEADER;
      // The driver complains and returns if the magic word is wrong: for a block in use it never is.
      assert Get32(mem, block) == MAGIC;
      MarkWritten(mem, heapHead, bs, heapStart, heapEnd, k, true);
      mem := mem[block + 8 := 1];
      HeaderLength(mem0, mem, Addrs(bs));
      FreedLive(bs, heapStart, heapEnd, k);
      MarkedTiles(bs, heapStart, heapEnd, k, true);
      blocks := Marked(bs, k, true);
      ghost var mem1, bs1 := mem, blocks;
      MergeFreeBlocks();
      MergedGood(bs1, heapStart, heapEnd);
      MarkedAddrs(bs, k, true);
      SameOutsideTwice(mem0, mem1, mem, Addrs(bs), Addrs(bs1));
      HeaderLength(mem0, mem, Addrs(bs));
      PayloadsKept(mem0, mem, bs, heapStart, heapEnd);
      OnlyThat(bs, heapStart, heapEnd, k, ptr);
      StillThere(bs, blocks, bs[k]);
    }
  }

  // ---------- runs ----------

  /** What a client of the heap does: allocate, free the k-th of the blocks it holds, or write a byte into it. */
  datatype HeapOp = Alloc(size: nat) | Free(k: nat) | Store(k: nat, at: nat, value: Byte)

  /** A piece of memory as its owner thinks of it: the size asked for, and the bytes written so far. */
  datatype Cell = Cell(size: nat, written: map<nat, Byte>)

  /** What the client owns after these operations, whatever the heap does behind the scenes. */
  function Cells(ops: seq<HeapOp>): seq<Cell> {
    if ops == [] then [] else CellStep(Cells(Front(ops)), Last(ops))
  }

  function CellStep(cells: seq<Cell>, op: HeapOp): seq<Cell> {
    match op
    case Alloc(size) => cells + [Cell(size, map[])]
    case Free(k) => if k < |cells| then Without(cells, k) else cells
    case Store(k, at, value) =>
      if k < |cells| && at < cells[k].size then cells[k := Cell(cells[k].size, cells[k].written[at := value])]
      else cells
  }

  /** The memory that the operations take if nothing is ever reused. */
  function Demand(ops: seq<HeapOp>): nat {
    if ops == [] then 0
    else (if ops[0].Alloc? then HEADER + Align4(ops[0].size) else 0) + Demand(ops[1..])
  }

  /** The block has room for the cell and holds every byte written to it. */
  ghost predicate Keeps(mem: seq<Byte>, b: Block, cell: Cell) {
    && cell.size <= b.size && b.End() <= |mem|
    && forall at :: at in cell.written ==> at < cell.size && mem[b.Payload() + at] == cell.written[at]
  }

  ghost predicate AllKeep(mem: seq<Byte>, mine: seq<Block>, cells: seq<Cell>) {
    |mine| == |cells| && forall i :: 0 <= i < |mine| ==> Keeps(mem, mine[i], cells[i])
  }

  lemma KeepsOn(mem: seq<Byte>, mem': seq<Byte>, b: Block, cell: Cell)
    requires Keeps(mem, b, cell) && SamePayload(mem, mem', b)
    ensures Keeps(mem', b, cell)
  {
    forall at | at in cell.written ensures mem'[b.Payload() + at] == mem[b.Payload() + at] {
      assert mem'[b.Payload()..b.End()][at] == mem[b.Payload()..b.End()][at];
    }
  }

  /** What a client may hold after its blocks stayed as they were: those blocks, and perhaps a new one. */
  lemma CellsKept(mem: seq<Byte>, mem': seq<Byte>, mine: seq<Block>, cells: seq<Cell>)
    requires AllKeep(mem, mine, cells) && forall i :: 0 <= i < |mine| ==> SamePayload(mem, mem', mine[i])
    ensures AllKeep(mem', mine, cells)
  {
    hide Keeps, SamePayload;
    forall i | 0 <= i < |mine| ensures Keeps(mem', mine[i], cells[i]) {
      KeepsOn(mem, mem', mine[i], cells[i]);
    }
  }

  lemma CellsMore(mem: seq<Byte>, mine: seq<Block>, cells: seq<Cell>, b: Block, size: nat)
    requires AllKeep(mem, mine, cells) && size <= b.size && b.End() <= |mem|
    ensures AllKeep(mem, mine + [b], CellStep(cells, Alloc(size)))
  {
  }

  lemma CellsLess(mem: seq<Byte>, mem': seq<Byte>, mine: seq<Block>, cells: seq<Cell>, k: nat)
    requires AllKeep(mem, mine, cells) && k < |mine|
    requires forall i :: 0 <= i < |mine| - 1 ==> SamePayload(mem, mem', Without(mine, k)[i])
    ensures AllKeep(mem', Without(mine, k), CellStep(cells, Free(k)))
  {
    hide Keeps, SamePayload;
    assert AllKeep(mem, Without(mine, k), Without(cells, k));
    CellsKept(mem, mem', Without(mine, k), Without(cells, k));
  }

  lemma CellsWritten(mem: seq<Byte>, mem': seq<Byte>, mine: seq<Block>, cells: seq<Cell>, k: nat, at: nat, x: Byte)
    requires AllKeep(mem, mine, cells) && k < |mine| && at < cells[k].size && mine[k].Payload() + at < |mem|
    requires mem' == mem[mine[k].Payload() + at := x]
    requires forall i :: 0 <= i < |mine| && i != k ==> SamePayload(mem, mem', mine[i])
    ensures AllKeep(mem', mine, CellStep(cells, Store(k, at, x)))
  {
    hide SamePayload;
    var cells' := CellStep(cells, Store(k, at, x));
    forall i | 0 <= i < |mine| ensures Keeps(mem', mine[i], cells'[i]) {
      if i != k {
        KeepsOn(mem, mem', mine[i], cells[i]);
      }
    }
  }

  /** A byte written inside a payload changes no header and no other payload. */
  lemma PayloadWritten(mem: seq<Byte>, head: nat, blocks: seq<Block>, start: nat, end: nat, b: Block, a: nat, x: Byte)
    requires IsList(mem, head, blocks) && Tiles(blocks, start, end) && end <= |mem|
    requires b in blocks && b.Payload() <= a < b.End()
    ensures a < |mem| && IsList(mem[a := x], head, blocks)
    ensures forall c :: c in blocks && c != b ==> SamePayload(mem, mem[a := x], c)
  {
    var k :| 0 <= k < |blocks| && blocks[k] == b;
    TilesInside(blocks, start, end, k);
    var mem' := mem[a := x];
    forall i: nat | i < |blocks| ensures HeaderAt(mem', blocks, i) {
      assert HeaderAt(mem, blocks, i);
      ClearOf(blocks, start, end, b, blocks[i]);
    }
    forall c | c in blocks && c != b ensures SamePayload(mem, mem', c) {
      var i :| 0 <= i < |blocks| && blocks[i] == c;
      TilesInside(blocks, start, end, i);
      ClearOf(blocks, start, end, b, c);
    }
  }

  lemma ClearOf(blocks: seq<Block>, start: nat, end: nat, b: Block, c: Block)
    requires Tiles(blocks, start, end) && b in blocks && c in blocks
    ensures c != b ==> c.End() <= b.addr || b.End() <= c.addr
  {
    if c != b {
      PayloadsApart(blocks, start, end, b, c);
    }
  }

  lemma CellsSoFar(ops: seq<HeapOp>, n: nat)
    requires n < |ops|
    ensures Cells(ops[..n + 1]) == CellStep(Cells(ops[..n]), ops[n])
    ensures Demand(ops[n..]) == (if ops[n].Alloc? then HEADER + Align4(ops[n].size) else 0) + Demand(ops[n + 1..])
  {
    assert Front(ops[..n + 1]) == ops[..n] && Last(ops[..n + 1]) == ops[n];
    assert ops[n..][1..] == ops[n + 1..];
  }

  /** The client's own blocks are among those in use, and where its pointers say. */
  lemma MineLive(h: KernelHeap, theirs: set<Block>, ptrs: seq<nat>, mine: seq<Block>)
    requires ClientHolds(h, theirs, ptrs, mine)
    ensures forall i :: 0 <= i < |mine| ==> mine[i] in Live(h.blocks) && mine[i].Payload() == ptrs[i] != 0
    ensures theirs <= Live(h.blocks)
  {
  }

  ghost predicate ClientHolds(h: KernelHeap, theirs: set<Block>, ptrs: seq<nat>, mine: seq<Block>)
    reads h
  {
    && h.Valid() && |ptrs| == |mine| && Live(h.blocks) == theirs + BlockSet(mine)
    && (forall i :: 0 <= i < |mine| ==> mine[i].Payload() == ptrs[i] && mine[i] !in theirs)
    && forall i, j :: 0 <= i < j < |mine| ==> mine[i] != mine[j]
  }

  ghost function BlockSet(bs: seq<Block>): (r: set<Block>)
    ensures forall b :: b in r <==> b in bs
  {
    set b | b in bs
  }

  function Without<T>(s: seq<T>, k: nat): (r: seq<T>)
    requires k < |s|
    ensures |r| == |s| - 1
    ensures forall i :: 0 <= i < |r| ==> r[i] == s[if i < k then i else i + 1]
  {
    s[..k] + s[k + 1..]
  }

  lemma SetWithout(bs: seq<Block>, k: nat)
    requires k < |bs| && forall i, j :: 0 <= i < j < |bs| ==> bs[i] != bs[j]
    ensures BlockSet(Without(bs, k)) == BlockSet(bs) - {bs[k]}
  {
    var r := Without(bs, k);
    forall b ensures b in BlockSet(r) <==> b in BlockSet(bs) && b != bs[k] {
      if b in bs && b != bs[k] {
        var i :| 0 <= i < |bs| && bs[i] == b;
        assert r[if i < k then i else i - 1] == b;
      }
    }
  }

  lemma SetWith(bs: seq<Block>, b: Block)
    ensures BlockSet(bs + [b]) == BlockSet(bs) + {b}
  {
  }

  lemma Keep(mem0: seq<Byte>, mem1: seq<Byte>, mem2: seq<Byte>, theirs: set<Block>, live: set<Block>)
    requires theirs <= live && (forall b :: b in theirs ==> SamePayload(mem0, mem1, b))
    requires forall b :: b in live ==> SamePayload(mem1, mem2, b)
    ensures forall b :: b in theirs ==> SamePayload(mem0, mem2, b)
  {
  }

  lemma StartHolding(h: KernelHeap)
    requires h.Valid()
    ensures ClientHolds(h, Live(h.blocks), [], [])
    ensures forall b :: b in Live(h.blocks) ==> SamePayload(h.mem, h.mem, b)
  {
    forall b | b in Live(h.blocks) ensures SamePayload(h.mem, h.mem, b) {
      var i :| 0 <= i < |h.blocks| && h.blocks[i] == b;
      TilesInside(h.blocks, h.heapStart, h.heapEnd, i);
    }
  }

  lemma HoldsMore(h: KernelHeap, before: seq<Block>, theirs: set<Block>, ptrs: seq<nat>, mine: seq<Block>, b: Block)
    requires h.Valid() && Live(before) == theirs + BlockSet(mine) && IsNewBlock(before, h.blocks, b)
    requires |ptrs| == |mine| && forall i :: 0 <= i < |mine| ==> mine[i].Payload() == ptrs[i] && mine[i] !in theirs
    requires forall i, j :: 0 <= i < j < |mine| ==> mine[i] != mine[j]
    ensures ClientHolds(h, theirs, ptrs + [b.Payload()], mine + [b])
  {
    SetWith(mine, b);
    assert forall i :: 0 <= i < |mine| ==> mine[i] in Live(before);
  }

  lemma HoldsLess(h: KernelHeap, before: seq<Block>, theirs: set<Block>, ptrs: seq<nat>, mine: seq<Block>, k: nat)
    requires h.Valid() && Live(before) == theirs + BlockSet(mine) && k < |mine|
             && Live(h.blocks) == Live(before) - {mine[k]}
    requires |ptrs| == |mine| && forall i :: 0 <= i < |mine| ==> mine[i].Payload() == ptrs[i] && mine[i] !in theirs
    requires forall i, j :: 0 <= i < j < |mine| ==> mine[i] != mine[j]
    ensures ClientHolds(h, theirs, Without(ptrs, k), Without(mine, k)) && theirs <= Live(h.blocks)
  {
    SetWithout(mine, k);
  }

  /** A client in the middle of its run: it owns these cells, and `theirs` is as it was in mem0. */
  ghost predicate Client(h: KernelHeap, theirs: set<Block>, mem0: seq<Byte>, ptrs: seq<nat>, mine: seq<Block>,
                         cells: seq<Cell>)
    reads h
  {
    && ClientHolds(h, theirs, ptrs, mine) && AllKeep(h.mem, mine, cells)
    && forall b :: b in theirs ==> SamePayload(mem0, h.mem, b)
  }

  lemma StartClient(h: KernelHeap, ops: seq<HeapOp>)
    requires h.Valid()
    ensures Client(h, Live(h.blocks), h.mem, [], [], []) && Cells(ops[..0]) == [] && ops[0..] == ops
  {
    StartHolding(h);
  }

  method ClientAlloc(h: KernelHeap, size: nat, ghost theirs: set<Block>, ghost mem0: seq<Byte>, ptrs: seq<nat>,
                     ghost mine: seq<Block>, ghost cells: seq<Cell>) returns (p: nat, ghost b: Block)
    requires Client(h, theirs, mem0, ptrs, mine, cells) && h.heapEnd + HEADER + Align4(size) <= |h.mem|
    modifies h
    ensures Client(h, theirs, mem0, ptrs + [p], mine + [b], CellStep(cells, Alloc(size)))
    ensures |h.mem| == |old(h.mem)| && h.heapEnd <= old(h.heapEnd) + HEADER + Align4(size)
  {
    hide SamePayload, Live, IsNewBlock, KernelHeap.Valid, BlockSet, Allocated, AllKeep, FirstFit, CellStep;
    ghost var mem1, before := h.mem, h.blocks;
    MineLive(h, theirs, ptrs, mine);
    p := h.Kmalloc(size);
    b :| IsNewBlock(before, h.blocks, b) && b.Payload() == p && b.size >= size;
    HoldsMore(h, before, theirs, ptrs, mine, b);
    Keep(mem0, mem1, h.mem, theirs, Live(before));
    CellsKept(mem1, h.mem, mine, cells);
    NewInMemory(h, before, b);
    CellsMore(h.mem, mine, cells, b, size);
  }

  lemma NewInMemory(h: KernelHeap, before: seq<Block>, b: Block)
    requires h.Valid() && IsNewBlock(before, h.blocks, b)
    ensures b.End() <= |h.mem|
  {
    var k :| 0 <= k < |h.blocks| && h.blocks[k] == b;
    TilesInside(h.blocks, h.heapStart, h.heapEnd, k);
  }

  method ClientFree(h: KernelHeap, k: nat, ghost theirs: set<Block>, ghost mem0: seq<Byte>, ptrs: seq<nat>,
                    ghost mine: seq<Block>, ghost cells: seq<Cell>)
    requires Client(h, theirs, mem0, ptrs, mine, cells) && k < |ptrs| == |mine|
    modifies h
    ensures Client(h, theirs, mem0, Without(ptrs, k), Without(mine, k), CellStep(cells, Free(k)))
    ensures |h.mem| == |old(h.mem)| && h.heapEnd == old(h.heapEnd)
  {
    hide SamePayload, Live, KernelHeap.Valid, BlockSet, AllKeep, CellStep;
    ghost var mem1, before := h.mem, h.blocks;
    MineLive(h, theirs, ptrs, mine);
    h.Kfree(ptrs[k]);
    HoldsLess(h, before, theirs, ptrs, mine, k);
    Keep(mem0, mem1, h.mem, theirs, Live(h.blocks));
    MineLive(h, theirs, Without(ptrs, k), Without(mine, k));
    CellsLess(mem1, h.mem, mine, cells, k);
  }

  method ClientStore(h: KernelHeap, k: nat, at: nat, x: Byte, ghost theirs: set<Block>, ghost mem0: seq<Byte>,
                     ptrs: seq<nat>, ghost mine: seq<Block>, cells: seq<Cell>)
    requires Client(h, theirs, mem0, ptrs, mine, cells) && k < |ptrs| == |mine| == |cells| && at < cells[k].size
    modifies h`mem
    ensures Client(h, theirs, mem0, ptrs, mine, CellStep(cells, Store(k, at, x))) && |h.mem| == |old(h.mem)|
  {
    hide SamePayload, Live, BlockSet, IsList, Tiles, CellStep, Keeps;
    ghost var mem1 := h.mem;
    MineLive(h, theirs, ptrs, mine);
    RoomForCell(h.mem, mine, cells, k);
    PayloadWritten(h.mem, h.heapHead, h.blocks, h.heapStart, h.heapEnd, mine[k], ptrs[k] + at, x);
    h.mem := h.mem[ptrs[k] + at := x];
    CellsWritten(mem1, h.mem, mine, cells, k, at, x);
    forall b | b in theirs ensures SamePayload(mem0, h.mem, b) {
      SameTwice(mem0, mem1, h.mem, b);
    }
  }

  lemma RoomForCell(mem: seq<Byte>, mine: seq<Block>, cells: seq<Cell>, k: nat)
    requires AllKeep(mem, mine, cells) && k < |mine|
    ensures k < |cells| && cells[k].size <= mine[k].size
  {
    assert Keeps(mem, mine[k], cells[k]);
  }

  lemma SameTwice(mem0: seq<Byte>, mem1: seq<Byte>, mem2: seq<Byte>, b: Block)
    requires SamePayload(mem0, mem1, b) && SamePayload(mem1, mem2, b)
    ensures SamePayload(mem0, mem2, b)
  {
  }

  /** Whatever a client allocates, writes and frees, as long as there is memory: the heap stays valid, the client
      holds exactly what it has asked for and not freed, with every byte it has written there, and every block that
      others held before is still theirs, byte for byte. */
  method RunClient(h: KernelHeap, ops: seq<HeapOp>) returns (ptrs: seq<nat>, ghost mine: seq<Block>)
    requires h.Valid() && h.heapEnd + Demand(ops) <= |h.mem|
    modifies h
    ensures ClientHolds(h, Live(old(h.blocks)), ptrs, mine)
    ensures AllKeep(h.mem, mine, Cells(ops))
    ensures forall b :: b in Live(old(h.blocks)) ==> SamePayload(old(h.mem), h.mem, b)
  {
    hide SamePayload, Live, KernelHeap.Valid, BlockSet, Without, Cells, Demand, AllKeep, ClientHolds, Client;
    ghost var theirs, mem0 := Live(h.blocks), h.mem;
    ptrs, mine := [], [];
    var cells := [];
    StartClient(h, ops);
    for n := 0 to |ops|
      invariant Client(h, theirs, mem0, ptrs, mine, cells) && cells == Cells(ops[..n])
      invariant h.heapEnd + Demand(ops[n..]) <= |h.mem| == |mem0|
    {
      CellsSoFar(ops, n);
      ClientSizes(h, theirs, mem0, ptrs, mine, cells);
      match ops[n] {
        case Alloc(size) =>
          var p;
          ghost var b;
          p, b := ClientAlloc(h, size, theirs, mem0, ptrs, mine, cells);
          ptrs, mine := ptrs + [p], mine + [b];
        case Free(k) =>
          if k < |ptrs| {
            ClientFree(h, k, theirs, mem0, ptrs, mine, cells);
            ptrs, mine := Without(ptrs, k), Without(mine, k);
          }
        case Store(k, at, value) =>
          if k < |ptrs| && at < cells[k].size {
            ClientStore(h, k, at, value, theirs, mem0, ptrs, mine, cells);
          }
      }
      cells := CellStep(cells, ops[n]);
    }
    assert ops[..|ops|] == ops;
    ClientEnds(h, theirs, mem0, ptrs, mine, cells);
  }

  lemma ClientSizes(h: KernelHeap, theirs: set<Block>, mem0: seq<Byte>, ptrs: seq<nat>, mine: seq<Block>,
                    cells: seq<Cell>)
    requires Client(h, theirs, mem0, ptrs, mine, cells)
    ensures |ptrs| == |mine| == |cells|
  {
  }

  lemma ClientEnds(h: KernelHeap, theirs: set<Block>, mem0: seq<Byte>, ptrs: seq<nat>, mine: seq<Block>,
                   cells: seq<Cell>)
    requires Client(h, theirs, mem0, ptrs, mine, cells)
    ensures ClientHolds(h, theirs, ptrs, mine) && AllKeep(h.mem, mine, cells)
    ensures forall b :: b in theirs ==> SamePayload(mem0, h.mem, b)
  {
  }
}
