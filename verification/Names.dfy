/** C strings, and the 8.3 form in which a directory slot keeps a name. */
module Names {
  import opened Bytes
  import opened Slots

  /** The characters of a C string: every byte but NUL. */
  type Char = x: int | 1 <= x < 0x100 witness 1
  type Str = seq<Char>

  const SLASH: Char := 0x2F
  const DOT_CHAR: Char := 0x2E

  function Upper(c: Char): Char {
    if 0x61 <= c <= 0x7A then c - 0x20 else c
  }

  function Uppers(s: Str): (r: seq<Byte>)
    ensures |r| == |s| && forall i :: 0 <= i < |s| ==> r[i] == Upper(s[i])
  {
    seq(|s|, i requires 0 <= i < |s| => Upper(s[i]))
  }

  function Padded(s: seq<Byte>, n: nat): (r: seq<Byte>)
    ensures |s| <= n ==> |r| == n
  {
    s + if |s| <= n then seq(n - |s|, _ => SPACE) else []
  }

  /** The length of the part before the first dot, cut to 8. */
  function StemLength(s: Str): (n: nat)
    ensures n <= |s| && n <= 8
    ensures forall i :: 0 <= i < n ==> s[i] != DOT_CHAR
    ensures n < |s| ==> n == 8 || s[n] == DOT_CHAR
  {
    StemFrom(s, 0)
  }

  function StemFrom(s: Str, i: nat): (n: nat)
    requires i <= |s| && i <= 8
    ensures i <= n <= |s| && n <= 8
    ensures forall k :: i <= k < n ==> s[k] != DOT_CHAR
    ensures n < |s| ==> n == 8 || s[n] == DOT_CHAR
    decreases |s| - i
  {
    if i < |s| && s[i] != DOT_CHAR && i < 8 then StemFrom(s, i + 1) else i
  }

  function Min(a: nat, b: nat): nat {
    if a < b then a else b
  }

  /** The 11-byte form: up to 8 characters before the dot and 3 after it, upper-cased and space-padded.
      A name whose stem is longer than 8 loses its extension. */
  function Fmt(s: Str): Name {
    var n := StemLength(s);
    var ext := if n < |s| && s[n] == DOT_CHAR then s[n + 1..Min(n + 4, |s|)] else [];
    Padded(Uppers(s[..n]), 8) + Padded(Uppers(ext), 3)
  }

  /** A formatted name never starts with NUL or a dot, so no search ever matches "." or "..", and starts with
      the deleted mark only if the string does. */
  lemma FmtFirst(s: Str)
    ensures Fmt(s)[0] != 0 && Fmt(s)[0] != DOT
    ensures Fmt(s)[0] == DELETED <==> |s| > 0 && s[0] == DELETED
  {
    var n := StemLength(s);
    if n > 0 {
      assert Fmt(s)[0] == Upper(s[0]);
    } else {
      assert Fmt(s)[0] == SPACE;
    }
  }

  // ---------- the eleven bytes, one by one ----------

  /** 'a' to 'z' become the byte 32 below; every other byte stays. */
  predicate IsUpperOf(b: Byte, c: Char) {
    if 0x61 <= c <= 0x7A then b == c - 32 else b == c
  }

  /** The n bytes of `field` from `at` on are the first characters of s, as far as there are any, then spaces. */
  predicate HoldsField(field: Name, at: nat, n: nat, s: Str)
    requires at + n <= 11
  {
    forall i: nat :: i < n ==>
      if i < |s| then IsUpperOf(field[at + i], s[i]) else field[at + i] == 0x20
  }

  /** A name without a dot: its first 8 characters, and no extension. */
  lemma FmtPlain(s: Str)
    requires 0x2E !in s
    ensures HoldsField(Fmt(s), 0, 8, s) && HoldsField(Fmt(s), 8, 3, [])
  {
    var n := Min(|s|, 8);
    StemIs(s, n);
    FmtIs(s, n, []);
  }

  /** A short stem, a dot, and the first 3 characters behind it, whatever they are. */
  lemma FmtDotted(stem: Str, ext: Str)
    requires 0x2E !in stem && |stem| <= 8
    ensures HoldsField(Fmt(stem + [0x2E] + ext), 0, 8, stem) && HoldsField(Fmt(stem + [0x2E] + ext), 8, 3, ext)
  {
    var s, n := stem + [0x2E] + ext, |stem|;
    StemIs(s, n);
    assert s[n + 1..Min(n + 4, |s|)] == ext[..Min(3, |ext|)];
    assert s[..n] == stem;
    FmtIs(s, n, ext[..Min(3, |ext|)]);
  }

  /** A stem of more than 8 characters is cut, and loses the extension. */
  lemma FmtLong(stem: Str, rest: Str)
    requires 0x2E !in stem && |stem| > 8
    ensures HoldsField(Fmt(stem + rest), 0, 8, stem) && HoldsField(Fmt(stem + rest), 8, 3, [])
  {
    var s := stem + rest;
    StemIs(s, 8);
    assert s[..8] == stem[..8];
    FmtIs(s, 8, []);
  }

  lemma FmtIs(s: Str, n: nat, ext: Str)
    requires n == StemLength(s) && |ext| <= 3
    requires ext == if n < |s| && s[n] == 0x2E then s[n + 1..Min(n + 4, |s|)] else []
    ensures HoldsField(Fmt(s), 0, 8, s[..n]) && HoldsField(Fmt(s), 8, 3, ext)
  {
  }

  method FormatFilename(input: Str) returns (out11: Name)
    ensures out11 == Fmt(input)
  {
    out11 := seq(11, _ => SPACE);
    var i, j := 0, 0;
    while i < |input| && input[i] != DOT_CHAR && j < 8
      invariant i == j <= |input| && j <= 8
      invariant forall k :: 0 <= k < i ==> input[k] != DOT_CHAR
      invariant out11 == Padded(Uppers(input[..i]), 8) + Padded([], 3)
    {
      out11 := out11[j := Upper(input[i])];
      j := j + 1;
      i := i + 1;
    }
    ghost var n := i;
    StemIs(input, n);
    if i < |input| && input[i] == DOT_CHAR {
      i := i + 1;
      j := 8;
      var k := 0;
      while i < |input| && k < 3
        invariant i == n + 1 + k <= |input| && j == 8 + k && k <= 3
        invariant out11 == Padded(Uppers(input[..n]), 8) + Padded(Uppers(input[n + 1..i]), 3)
      {
        out11 := out11[j := Upper(input[i])];
        j := j + 1;
        i := i + 1;
        k := k + 1;
      }
    }
  }

  lemma StemIs(s: Str, n: nat)
    requires n <= |s| && n <= 8 && (forall k :: 0 <= k < n ==> s[k] != DOT_CHAR)
    requires n < |s| ==> n == 8 || s[n] == DOT_CHAR
    ensures StemLength(s) == n
  {
  }
}
