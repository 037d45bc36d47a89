/** cp: the source read whole, and written to the destination, or into it if that is a directory. */
module FileCopy {
  import opened Layout
  import opened Content
  import opened Slots
  import opened Names
  import opened Paths
  import opened VolumeState
  import opened Nodes
  import opened TreeOps
  import opened Resolve
  import opened Accounting
  import opened Entries
  import opened FileWrite
  import opened FileRead

  // ---------- where the copy goes ----------

  /** dir, a slash unless it is the root, and name: what strcpy and strcat build. */
  function Below(dir: Str, name: Str): Str {
    dir + (if dir != ROOT then [SLASH] else []) + name
  }

  lemma BelowRender(stack: seq<Str>, name: Str)
    requires IsNormal(stack)
    ensures Below(Render(stack), name) == Render(stack + [name])
  {
    assert Front(stack + [name]) == stack;
    if stack != [] {
      SlashedAbsolute(stack);
      assert IsName(Last(stack));
    } else {
      assert Slashed([name]) == [SLASH] + name by { assert Front([name]) == []; }
    }
  }

  /** A rendered path names its own components. */
  lemma ResolvedRender(base: Str, stack: seq<Str>)
    requires IsNormal(stack)
    ensures Resolved(base, Render(stack)) == stack
  {
    RenderAbsolute(stack);
    PartsSlash(Render(stack));
    PartsRender(stack);
    FoldNames([], stack);
    assert [] + stack == stack;
  }

  /** The path that cp and mv work on: dst, or the source's name in dst if that is a directory. */
  function Destination(cwd: Str, src: Str, dst: Str, into: bool): Str {
    if into && Resolved(cwd, src) != [] then Below(Normalized(cwd, dst), Last(Resolved(cwd, src))) else dst
  }

  /** The same as a key. */
  function TargetKey(t: Node, sk: seq<Name>, dk: seq<Name>): seq<Name> {
    if Stat(t, dk).IsDir? && sk != [] then dk + [Last(sk)] else dk
  }

  lemma DestinationKey(t: Node, cwd: Str, src: Str, dst: Str)
    ensures var sk, dk := KeyOf(cwd, src), KeyOf(cwd, dst);
            KeyOf(cwd, Destination(cwd, src, dst, Stat(t, dk).IsDir?)) == TargetKey(t, sk, dk)
  {
    var s, d := Resolved(cwd, src), Resolved(cwd, dst);
    if Stat(t, Keys(d)).IsDir? && s != [] {
      KeySplit(s);
      BelowRender(d, Last(s));
      assert IsNormal(d + [Last(s)]);
      ResolvedRender(cwd, d + [Last(s)]);
      KeysAppend(d, [Last(s)]);
    }
  }

  /** Where cp and mv put a file, as a path: at dst, or if that is a directory, under the source's name in it. */
  lemma TargetPath(t: Node, cwd: Str, src: Str, dst: Str)
    requires dst != [] && Resolved(cwd, src) != []
    ensures var name := Last(Resolved(cwd, src));
            TargetKey(t, KeyOf(cwd, src), KeyOf(cwd, dst)) ==
            KeyOf(cwd, if Stat(t, KeyOf(cwd, dst)).IsDir? then dst + [0x2F] + name else dst)
  {
    hide Stat;
    var s, d := Resolved(cwd, src), Resolved(cwd, dst);
    KeySplit(s);
    LastComponent(cwd, dst, Last(s));
    assert IsName(Last(s));
    KeysAppend(d, [Last(s)]);
  }

  // ---------- cp ----------

  /** Copies a file. Where the copy goes, and when that succeeds, is as for write_file; the buffer size wraps
      around for a source of nearly 4 GB. */
  method Cp(v: Volume, src: Str, dst: Str) returns (r: bool)
    requires Valid(v) && FitsBuffers(v.currentPath, src) && FitsBuffers(v.currentPath, dst)
    requires FitsBuffers(v.currentPath, Destination(v.currentPath, src, dst,
                                                    Stat(v.tree, KeyOf(v.currentPath, dst)).IsDir?))
    modifies v`disk, v`tree
    ensures v.Mounted()
    ensures var sk, dk := KeyOf(v.currentPath, src), KeyOf(v.currentPath, dst);
            var e := Stat(old(v.tree), sk);
            if src == [] || dst == [] || !e.IsFile? || |e.bytes| + 4 >= 0x1_0000_0000 then
              !r && v.Vol() == old(v.Vol()) && v.tree == old(v.tree)
            else WriteOutcome(old(v.Vol()), v.Vol(), old(v.tree), v.tree, TargetKey(old(v.tree), sk, dk), e.bytes, r)
  {
    hide View, Represents, Balanced, Mirrored, Bpb.TotalClusters, FitsBuffers, KeyOf, Stat, WriteOutcome, Normalized,
      Resolved, Below, Splits, NamePart;
    ghost var vol, t, cwd := v.Vol(), v.tree, v.currentPath;
    ghost var sk, dk := KeyOf(cwd, src), KeyOf(cwd, dst);
    var isDir := IsDirectory(v, src);
    if isDir {
      return false;
    }
    var ok, fileSize := FileSize(v, src);
    if !ok {
      return false;
    }
    var buf;
    ok, buf := ReadFile(v, src, (fileSize as nat + 4) % 0x1_0000_0000);
    if !ok {
      return false;
    }
    if |buf| != fileSize {
      assert false;
      return false;
    }
    DestinationKey(t, cwd, src, dst);
    RootIsDir(v, sk);
    SourceName(cwd, src);
    var into := IsDirectory(v, dst);
    if into {
      var absDst := NormalizePath(v.currentPath, dst);
      var absSrc := NormalizePath(v.currentPath, src);
      var split, parentSrc, srcName := SplitPath(absSrc);
      if !split {
        assert false;
        return false;
      }
      BelowNotEmpty(absDst, srcName);
      r := WriteFile(v, Below(absDst, srcName), buf);
    } else {
      r := WriteFile(v, dst, buf);
    }
  }

  lemma SourceName(cwd: Str, src: Str)
    ensures Splits(Normalized(cwd, src)) <==> KeyOf(cwd, src) != []
    ensures KeyOf(cwd, src) != [] <==> Resolved(cwd, src) != []
    ensures KeyOf(cwd, src) != [] ==> NamePart(Normalized(cwd, src)) == Last(Resolved(cwd, src))
  {
    SplitRender(Resolved(cwd, src));
  }

  lemma BelowNotEmpty(dir: Str, name: Str)
    ensures Below(dir, name) != []
  {
  }

  /** After a copy both names read as the source did, even if they are the same name, and every other path
      looks up as before. */
  lemma CopyReads(vol: Vol, vol': Vol, t: Node, t': Node, sk: seq<Name>, tk: seq<Name>)
    requires Stat(t, sk).IsFile? && WriteOutcome(vol, vol', t, t', tk, Stat(t, sk).bytes, true) && IsStorable(Last(tk))
    ensures Stat(t', tk).IsFile? && Stat(t', tk).bytes == Stat(t, sk).bytes
    ensures Stat(t', sk).IsFile? && Stat(t', sk).bytes == Stat(t, sk).bytes
    ensures forall q :: q != tk ==> Stat(t', q) == Stat(t, q)
  {
  }
}
