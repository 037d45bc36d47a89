/** Bytes, little-endian words and 512-byte sectors, as the kernel's C code reads and writes them. */
module Bytes {
  type Byte = x: int | 0 <= x < 0x100
  type Word = x: int | 0 <= x < 0x1_0000
  type Dword = x: int | 0 <= x < 0x1_0000_0000

  type Sector = s: seq<Byte> | |s| == 512 witness seq(512, _ => 0)

  function Zeros(n: nat): (r: seq<Byte>)
    ensures |r| == n && forall i :: 0 <= i < n ==> r[i] == 0
  {
    seq(n, _ => 0)
  }

  function Get16(s: seq<Byte>, at: nat): Word
    requires at + 2 <= |s|
  {
    (s[at] as int) + 0x100 * (s[at + 1] as int)
  }

  function Put16(s: seq<Byte>, at: nat, v: Word): (r: seq<Byte>)
    requires at + 2 <= |s|
    ensures |r| == |s| && Get16(r, at) == v
    ensures forall i :: 0 <= i < |s| && (i < at || at + 2 <= i) ==> r[i] == s[i]
  {
    s[at := v % 0x100][at + 1 := v / 0x100]
  }

  function Get32(s: seq<Byte>, at: nat): Dword
    requires at + 4 <= |s|
  {
    (Get16(s, at) as int) + 0x1_0000 * (Get16(s, at + 2) as int)
  }

  function Put32(s: seq<Byte>, at: nat, v: Dword): (r: seq<Byte>)
    requires at + 4 <= |s|
    ensures |r| == |s| && Get32(r, at) == v
    ensures forall i :: 0 <= i < |s| && (i < at || at + 4 <= i) ==> r[i] == s[i]
  {
    Put16(Put16(s, at, v % 0x1_0000), at + 2, v / 0x1_0000)
  }

  /** Writing one word leaves every other word alone. */
  lemma Get32Elsewhere(s: seq<Byte>, at: nat, v: Dword, other: nat)
    requires at + 4 <= |s| && other + 4 <= |s| && (at + 4 <= other || other + 4 <= at)
    ensures Get32(Put32(s, at, v), other) == Get32(s, other)
  {
  }

  /** The word at `at` is w, its low byte first. */
  predicate IsWordAt(s: seq<Byte>, at: nat, w: Word)
    requires at + 2 <= |s|
  {
    s[at] == w % 0x100 && s[at + 1] == w / 0x100
  }

  /** The double word at `at` is w, its lowest byte first. */
  predicate IsDwordAt(s: seq<Byte>, at: nat, w: Dword)
    requires at + 4 <= |s|
  {
    s[at] == w % 0x100 && s[at + 1] == w / 0x100 % 0x100
    && s[at + 2] == w / 0x1_0000 % 0x100 && s[at + 3] == w / 0x100_0000
  }

  lemma Get16Is(s: seq<Byte>, at: nat, w: Word)
    requires at + 2 <= |s|
    ensures Get16(s, at) == w <==> IsWordAt(s, at, w)
  {
  }

  lemma Get32Is(s: seq<Byte>, at: nat, w: Dword)
    requires at + 4 <= |s|
    ensures Get32(s, at) == w <==> IsDwordAt(s, at, w)
  {
    hide Get16;
    Get16Is(s, at, w % 0x1_0000);
    Get16Is(s, at + 2, w / 0x1_0000);
    WordDigits(w);
    assert w == w % 0x1_0000 + 0x1_0000 * (w / 0x1_0000);
  }

  lemma WordDigits(v: Dword)
    ensures v % 0x1_0000 % 0x100 == v % 0x100 && v % 0x1_0000 / 0x100 == v / 0x100 % 0x100
    ensures v / 0x1_0000 / 0x100 == v / 0x100_0000
  {
  }

  /** s with the bytes from `at` on overwritten by t. */
  function Splice(s: seq<Byte>, at: nat, t: seq<Byte>): (r: seq<Byte>)
    requires at + |t| <= |s|
    ensures |r| == |s|
    ensures r[at..at + |t|] == t
    ensures forall i :: 0 <= i < |s| && (i < at || at + |t| <= i) ==> r[i] == s[i]
  {
    s[..at] + t + s[at + |t|..]
  }
}
