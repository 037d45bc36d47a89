/** The stack that a new program starts with: its argument strings, the argv array and argc. */
module UserStack {
  import opened Bytes
  import opened Names

  const ARGS_MAX := 32
  const ARG_BYTES := 256

  /** argv[i]: a C string, or a null pointer. */
  datatype Arg = Null | Text(s: Str)

  function TextOf(a: Arg): Str {
    if a.Null? then [] else a.s
  }

  /** A NUL-terminated copy of the string, cut to 255 characters. */
  function Copied(s: Str): (r: seq<Byte>)
    ensures 0 < |r| <= ARG_BYTES && |r| == Min(|s| + 1, ARG_BYTES)
    ensures r[|r| - 1] == 0 && forall i :: 0 <= i < |r| - 1 ==> r[i] == s[i]
  {
    var cut: seq<Byte> := s[..Min(|s|, ARG_BYTES - 1)];
    cut + [0]
  }

  /** The memory holds `bytes` at `at`. */
  ghost predicate HasAt(ram: seq<Byte>, at: nat, bytes: seq<Byte>) {
    at + |bytes| <= |ram| && ram[at..at + |bytes|] == bytes
  }

  /** The memories agree outside [from, to). */
  ghost predicate SameBut(ram: seq<Byte>, ram': seq<Byte>, from: nat, to: nat) {
    |ram'| == |ram| && forall a :: 0 <= a < |ram| && !(from <= a < to) ==> ram'[a] == ram[a]
  }

  lemma HasStill(ram: seq<Byte>, ram': seq<Byte>, from: nat, to: nat, at: nat, bytes: seq<Byte>)
    requires HasAt(ram, at, bytes) && SameBut(ram, ram', from, to) && (to <= at || at + |bytes| <= from)
    ensures HasAt(ram', at, bytes)
  {
    assert forall a :: at <= a < at + |bytes| ==> ram'[a] == ram[a];
  }

  /** ptrs point to copies of the arguments, one behind the other up to `top`: no two of them overlap. */
  ghost predicate HasStrings(ram: seq<Byte>, ptrs: seq<nat>, args: seq<Arg>, top: nat) {
    && |ptrs| == |args| && top <= |ram|
    && forall i: nat :: i < |ptrs| ==> StringAt(ram, ptrs, args, top, i)
  }

  function EndAt(ptrs: seq<nat>, top: nat, i: nat): nat {
    if i < |ptrs| then ptrs[i] else top
  }

  ghost predicate StringAt(ram: seq<Byte>, ptrs: seq<nat>, args: seq<Arg>, top: nat, i: nat)
    requires i < |ptrs| == |args|
  {
    HasAt(ram, ptrs[i], Copied(TextOf(args[i]))) && ptrs[i] + |Copied(TextOf(args[i]))| == EndAt(ptrs, top, i + 1)
  }

  /** The argv array at `at`: the pointers, and a null pointer behind them. */
  ghost predicate HasArray(ram: seq<Byte>, at: nat, ptrs: seq<nat>) {
    && at + 4 * |ptrs| + 4 <= |ram| && Get32(ram, at + 4 * |ptrs|) == 0
    && forall i :: 0 <= i < |ptrs| ==> Get32(ram, at + 4 * i) == ptrs[i]
  }

  /** What _start finds: argc, argv, the array and the strings, all within [sp, top), and sp aligned to words. */
  ghost predicate IsUserStack(ram: seq<Byte>, sp: nat, args: seq<Arg>, ptrs: seq<nat>, top: nat) {
    && sp + 8 <= |ram|
    && Get32(ram, sp) == |args| && Get32(ram, sp + 4) == sp + 8
    && HasArray(ram, sp + 8, ptrs) && HasStrings(ram, ptrs, args, top)
    && sp + 8 + 4 * |args| + 4 <= EndAt(ptrs, top, 0) <= top
    && sp % 4 == 0
  }

  /** The machine's memory. */
  class Ram {
    var bytes: seq<Byte>

    constructor (bytes: seq<Byte>)
      ensures this.bytes == bytes
    {
      this.bytes := bytes;
    }

    method PushBytes(sp0: nat, src: seq<Byte>) returns (sp: nat)
      requires |src| <= sp0 <= |bytes|
      modifies this
      ensures sp == sp0 - |src| && bytes == Splice(old(bytes), sp, src)
    {
      sp := sp0 - |src|;
      ghost var was := bytes;
      for i := 0 to |src|
        invariant |bytes| == |was| && bytes == Splice(was, sp, src[..i])
      {
        bytes := bytes[sp + i := src[i]];
      }
      assert src[..|src|] == src;
    }

    method PushU32(sp0: nat, v: Dword) returns (sp: nat)
      requires 4 <= sp0 <= |bytes|
      modifies this
      ensures sp == sp0 - 4 && bytes == Put32(old(bytes), sp, v)
    {
      LittleEndian(bytes, sp0 - 4, v);
      sp := PushBytes(sp0, WordBytes(v));
    }

    /** The bounded copy of one argument, just below sp0. */
    method PushString(sp0: nat, s: Str) returns (sp: nat)
      requires |Copied(s)| <= sp0 <= |bytes|
      modifies this
      ensures sp == sp0 - |Copied(s)| && HasAt(bytes, sp, Copied(s)) && SameBut(old(bytes), bytes, sp, sp0)
    {
      var len := |s| + 1;
      if len > ARG_BYTES {
        len := ARG_BYTES;
      }
      sp := sp0 - len;
      ghost var was := bytes;
      var j := 0;
      while j < len
        invariant j <= len && j <= |s| + 1 && |bytes| == |was|
        invariant forall a :: 0 <= a < |was| && !(sp <= a < sp0) ==> bytes[a] == was[a]
        invariant forall i :: 0 <= i < j ==> bytes[sp + i] == if i < |s| then s[i] else 0
      {
        var c: Byte := if j < |s| then s[j] else 0;
        bytes := bytes[sp + j := c];
        j := j + 1;
        if c == 0 {
          break;
        }
      }
      bytes := bytes[sp + len - 1 := 0];
      assert forall i :: 0 <= i < len ==> bytes[sp + i] == Copied(s)[i];
    }
  }

  function WordBytes(v: Dword): (r: seq<Byte>)
    ensures |r| == 4
  {
    [v % 0x100, v / 0x100 % 0x100, v / 0x1_0000 % 0x100, v / 0x100_0000]
  }

  /** Four bytes, lowest first, are a little-endian word. */
  lemma LittleEndian(ram: seq<Byte>, at: nat, v: Dword)
    requires at + 4 <= |ram|
    ensures Splice(ram, at, WordBytes(v)) == Put32(ram, at, v)
  {
    hide Splice, Put32, WordBytes;
    var a, b := Splice(ram, at, WordBytes(v)), Put32(ram, at, v);
    Put32Bytes(ram, at, v);
    forall i | 0 <= i < |ram| ensures a[i] == b[i] {
      if at <= i < at + 4 {
        assert a[i] == a[at..at + 4][i - at] == b[at..at + 4][i - at] == b[i];
      }
    }
  }

  lemma Put32Bytes(ram: seq<Byte>, at: nat, v: Dword)
    requires at + 4 <= |ram|
    ensures |WordBytes(v)| == 4 && Put32(ram, at, v)[at..at + 4] == WordBytes(v)
  {
    hide Put16;
    Put16Bytes(ram, at, v % 0x1_0000);
    Put16Bytes(Put16(ram, at, v % 0x1_0000), at + 2, v / 0x1_0000);
    WordDigits(v);
  }

  lemma Put16Bytes(ram: seq<Byte>, at: nat, v: Word)
    requires at + 2 <= |ram|
    ensures var r := Put16(ram, at, v); r[at] == v % 0x100 && r[at + 1] == v / 0x100
  {
  }

  // ---------- build_user_stack ----------

  lemma {:induction false} StringsAbove(ram: seq<Byte>, ptrs: seq<nat>, args: seq<Arg>, top: nat, i: nat)
    requires HasStrings(ram, ptrs, args, top) && i < |ptrs|
    ensures EndAt(ptrs, top, 0) <= ptrs[i] && ptrs[i] + |Copied(TextOf(args[i]))| <= top
    decreases |ptrs| - i
  {
    assert StringAt(ram, ptrs, args, top, i);
    if i + 1 < |ptrs| {
      StringsAbove(ram, ptrs, args, top, i + 1);
    }
    StringsFrom(ram, ptrs, args, top, i);
  }

  lemma {:induction false} StringsFrom(ram: seq<Byte>, ptrs: seq<nat>, args: seq<Arg>, top: nat, i: nat)
    requires HasStrings(ram, ptrs, args, top) && i <= |ptrs|
    ensures EndAt(ptrs, top, 0) <= EndAt(ptrs, top, i)
  {
    if i > 0 {
      assert StringAt(ram, ptrs, args, top, i - 1);
      StringsFrom(ram, ptrs, args, top, i - 1);
    }
  }

  /** Different strings do not overlap. */
  lemma {:induction false} StringsApart(ram: seq<Byte>, ptrs: seq<nat>, args: seq<Arg>, top: nat, i: nat, j: nat)
    requires HasStrings(ram, ptrs, args, top) && i < j < |ptrs|
    ensures ptrs[i] + |Copied(TextOf(args[i]))| <= ptrs[j]
    decreases j
  {
    assert StringAt(ram, ptrs, args, top, i);
    if i < j - 1 {
      StringsApart(ram, ptrs, args, top, i, j - 1);
      assert StringAt(ram, ptrs, args, top, j - 1);
    }
  }

  /** Writing below the strings leaves them alone. */
  lemma StringsStay(ram: seq<Byte>, ram': seq<Byte>, ptrs: seq<nat>, args: seq<Arg>, top: nat, from: nat, to: nat)
    requires HasStrings(ram, ptrs, args, top) && SameBut(ram, ram', from, to) && to <= EndAt(ptrs, top, 0)
    ensures HasStrings(ram', ptrs, args, top)
  {
    forall i: nat | i < |ptrs| ensures StringAt(ram', ptrs, args, top, i) {
      assert StringAt(ram, ptrs, args, top, i);
      StringsAbove(ram, ptrs, args, top, i);
      HasStill(ram, ram', from, to, ptrs[i], Copied(TextOf(args[i])));
    }
  }

  /** One more string below the others. */
  lemma StringPushed(ram: seq<Byte>, ptrs: seq<nat>, rest: seq<Arg>, top: nat, sp: nat, a: Arg)
    requires HasStrings(ram, ptrs, rest, top) && HasAt(ram, sp, Copied(TextOf(a)))
    requires sp + |Copied(TextOf(a))| == EndAt(ptrs, top, 0)
    ensures HasStrings(ram, [sp] + ptrs, [a] + rest, top)
  {
    var ps, args := [sp] + ptrs, [a] + rest;
    forall i: nat | i < |ps| ensures StringAt(ram, ps, args, top, i) {
      if i > 0 {
        assert StringAt(ram, ptrs, rest, top, i - 1);
      }
    }
  }

  lemma SameButTwice(ram0: seq<Byte>, ram: seq<Byte>, ram': seq<Byte>, from: nat, mid: nat, to: nat)
    requires SameBut(ram0, ram, mid, to) && SameBut(ram, ram', from, mid) && from <= mid <= to
    ensures SameBut(ram0, ram', from, to)
  {
  }

  /** Copies the arguments, the last one first. */
  method PushArgs(ram: Ram, args: seq<Arg>, top: nat) returns (sp: nat, ptrs: seq<nat>)
    requires |args| <= ARGS_MAX && ARGS_MAX * ARG_BYTES <= top <= |ram.bytes|
    modifies ram
    ensures HasStrings(ram.bytes, ptrs, args, top) && sp == EndAt(ptrs, top, 0)
    ensures top - ARG_BYTES * |args| <= sp <= top && SameBut(old(ram.bytes), ram.bytes, sp, top)
  {
    hide StringAt, SameBut, HasAt, Copied;
    sp, ptrs := top, [];
    var i: nat := |args|;
    NoStrings(ram.bytes, args, top);
    while i > 0
      invariant i <= |args| && HasStrings(ram.bytes, ptrs, args[i..], top) && sp == EndAt(ptrs, top, 0)
      invariant top - ARG_BYTES * (|args| - i) <= sp <= top && SameBut(old(ram.bytes), ram.bytes, sp, top)
    {
      i := i - 1;
      ghost var was, above := ram.bytes, sp;
      sp := ram.PushString(sp, TextOf(args[i]));
      StringsStay(was, ram.bytes, ptrs, args[i + 1..], top, sp, above);
      StringPushed(ram.bytes, ptrs, args[i + 1..], top, sp, args[i]);
      SameButTwice(old(ram.bytes), was, ram.bytes, sp, above, top);
      assert [args[i]] + args[i + 1..] == args[i..];
      ptrs := [sp] + ptrs;
    }
    assert args[0..] == args;
  }

  lemma NoStrings(ram: seq<Byte>, args: seq<Arg>, top: nat)
    requires top <= |ram|
    ensures HasStrings(ram, [], args[|args|..], top) && SameBut(ram, ram, top, top)
  {
  }

  lemma WordPushed(ram: seq<Byte>, sp: nat, v: Dword, ptrs: seq<nat>)
    requires 4 <= sp && HasArray(ram, sp, ptrs)
    ensures HasArray(Put32(ram, sp - 4, v), sp - 4, [v as nat] + ptrs)
    ensures HasArray(Put32(ram, sp - 4, v), sp, ptrs)
  {
    var ram', ps := Put32(ram, sp - 4, v), [v as nat] + ptrs;
    forall k: nat | k <= |ptrs| ensures Get32(ram', sp + 4 * k) == Get32(ram, sp + 4 * k) {
      Get32Elsewhere(ram, sp - 4, v, sp + 4 * k);
    }
    forall i | 0 <= i < |ps| ensures Get32(ram', sp - 4 + 4 * i) == ps[i] {
      if i > 0 {
        assert sp - 4 + 4 * i == sp + 4 * (i - 1);
      }
    }
    assert sp - 4 + 4 * |ps| == sp + 4 * |ptrs|;
  }

  lemma PutIsSameBut(ram: seq<Byte>, at: nat, v: Dword)
    requires at + 4 <= |ram|
    ensures SameBut(ram, Put32(ram, at, v), at, at + 4)
  {
  }

  /** Pushes the null pointer and the argument pointers, the last one first. */
  method PushArray(ram: Ram, sp0: nat, ptrs: seq<nat>) returns (sp: nat)
    requires 4 * |ptrs| + 4 <= sp0 <= |ram.bytes| && forall i :: 0 <= i < |ptrs| ==> ptrs[i] < 0x1_0000_0000
    modifies ram
    ensures sp == sp0 - 4 * |ptrs| - 4 && HasArray(ram.bytes, sp, ptrs) && SameBut(old(ram.bytes), ram.bytes, sp, sp0)
  {
    hide Put32, Get32, SameBut;
    PutIsSameBut(ram.bytes, sp0 - 4, 0);
    sp := ram.PushU32(sp0, 0);
    var i: nat := |ptrs|;
    while i > 0
      invariant i <= |ptrs| && sp == sp0 - 4 * (|ptrs| - i) - 4
      invariant HasArray(ram.bytes, sp, ptrs[i..]) && SameBut(old(ram.bytes), ram.bytes, sp, sp0)
    {
      i := i - 1;
      ghost var was := ram.bytes;
      WordPushed(was, sp, ptrs[i], ptrs[i + 1..]);
      PutIsSameBut(was, sp - 4, ptrs[i]);
      sp := ram.PushU32(sp, ptrs[i]);
      SameButTwice(old(ram.bytes), was, ram.bytes, sp, sp + 4, sp0);
      assert [ptrs[i]] + ptrs[i + 1..] == ptrs[i..];
    }
    assert ptrs[0..] == ptrs;
  }

  /** The bytes that the largest stack takes: 32 strings, the padding and 35 words. */
  const STACK_NEED := ARGS_MAX * ARG_BYTES + 15 + 35 * 4

  /** Builds the stack of a new program below `top`; 0 for a negative argument count. */
  method BuildUserStack(ram: Ram, argc0: int, argv: seq<Arg>, top: nat) returns (sp: nat, ghost ptrs: seq<nat>)
    requires argc0 <= |argv| && STACK_NEED <= top <= |ram.bytes| && top < 0x1_0000_0000
    modifies ram
    ensures argc0 < 0 ==> sp == 0 && ram.bytes == old(ram.bytes)
    ensures argc0 >= 0 ==>
              && IsUserStack(ram.bytes, sp, argv[..Min(argc0, ARGS_MAX)], ptrs, top)
              && top - STACK_NEED <= sp && SameBut(old(ram.bytes), ram.bytes, sp, top)
  {
    hide Put32, Get32, SameBut, HasStrings, HasArray;
    if argc0 < 0 {
      return 0, [];
    }
    var argc := if argc0 > ARGS_MAX then ARGS_MAX else argc0;
    ghost var args := argv[..argc];
    var ps;
    sp, ps := PushArgs(ram, argv[..argc], top);
    ptrs := ps;
    ghost var ram1, strings := ram.bytes, sp;
    PointersBelow(ram1, ps, args, top);
    sp := sp / 16 * 16;
    ghost var aligned := sp;
    sp := PushArray(ram, sp, ps);
    ghost var ram2 := ram.bytes;
    StringsStay(ram1, ram2, ps, args, top, sp, aligned);
    WidenSame(old(ram.bytes), ram1, ram2, sp, aligned, strings, top);
    var argvPtr := sp;
    sp := ram.PushU32(sp, argvPtr);
    ghost var ram3 := ram.bytes;
    sp := ram.PushU32(sp, argc);
    StackDone(old(ram.bytes), ram2, argvPtr, args, ps, top);
  }

  lemma PointersBelow(ram: seq<Byte>, ptrs: seq<nat>, args: seq<Arg>, top: nat)
    requires HasStrings(ram, ptrs, args, top) && top < 0x1_0000_0000
    ensures |ptrs| == |args| && top <= |ram| && forall i :: 0 <= i < |ptrs| ==> ptrs[i] < 0x1_0000_0000
  {
    forall i: nat | i < |ptrs| ensures ptrs[i] < 0x1_0000_0000 {
      StringsAbove(ram, ptrs, args, top, i);
    }
  }

  lemma WidenSame(ram0: seq<Byte>, ram1: seq<Byte>, ram2: seq<Byte>, from: nat, mid: nat, mid': nat, to: nat)
    requires SameBut(ram0, ram1, mid', to) && SameBut(ram1, ram2, from, mid) && from <= mid <= mid' <= to
    ensures SameBut(ram0, ram2, from, to) && |ram2| == |ram1|
  {
  }

  /** argv and argc pushed below the array. */
  lemma StackDone(ram0: seq<Byte>, ram2: seq<Byte>, at: nat, args: seq<Arg>, ptrs: seq<nat>, top: nat)
    requires 8 <= at < 0x1_0000_0000 && |args| == |ptrs| < 0x1_0000_0000 && at % 4 == 0
    requires HasArray(ram2, at, ptrs) && HasStrings(ram2, ptrs, args, top) && SameBut(ram0, ram2, at, top)
    requires at + 4 * |args| + 4 <= EndAt(ptrs, top, 0) <= top
    ensures var ram := Put32(Put32(ram2, at - 4, at), at - 8, |args|);
            IsUserStack(ram, at - 8, args, ptrs, top) && SameBut(ram0, ram, at - 8, top)
  {
    hide SameBut, Put32, Get32, HasArray, HasStrings;
    InRange(ram2, at, ptrs);
    var ram3 := Put32(ram2, at - 4, at);
    var ram := Put32(ram3, at - 8, |args|);
    WordPushed(ram2, at, at, ptrs);
    WordPushed(ram3, at - 4, |args|, [at] + ptrs);
    ArrayTail(ram, at - 8, |args|, [at] + ptrs);
    ArrayTail(ram, at - 4, at, ptrs);
    PutIsSameBut(ram2, at - 4, at);
    PutIsSameBut(ram3, at - 8, |args|);
    SameButTwice(ram2, ram3, ram, at - 8, at - 4, at);
    StringsStay(ram2, ram, ptrs, args, top, at - 8, at);
    SameButTwice(ram0, ram2, ram, at - 8, at, top);
  }

  lemma InRange(ram: seq<Byte>, at: nat, ptrs: seq<nat>)
    requires HasArray(ram, at, ptrs)
    ensures at + 4 <= |ram|
  {
  }

  lemma ArrayTail(ram: seq<Byte>, at: nat, x: nat, ptrs: seq<nat>)
    requires HasArray(ram, at, [x] + ptrs)
    ensures at + 4 <= |ram| && Get32(ram, at) == x && HasArray(ram, at + 4, ptrs)
  {
    var ps := [x] + ptrs;
    forall i | 0 <= i < |ptrs| ensures Get32(ram, at + 4 + 4 * i) == ptrs[i] {
      assert Get32(ram, at + 4 * (i + 1)) == ps[i + 1];
      assert at + 4 * (i + 1) == at + 4 + 4 * i;
    }
    assert Get32(ram, at + 4 * 0) == ps[0];
    assert at + 4 * |ps| == at + 4 + 4 * |ptrs|;
  }
}
