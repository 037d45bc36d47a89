/** Absolute paths followed from the root directory on disk, and in the tree. */
module Resolve {
  import opened Layout
  import opened Chains
  import opened Content
  import opened Slots
  import opened Names
  import opened Paths
  import opened VolumeState
  import opened Directory
  import opened Nodes
  import opened Tree
  import opened TreePaths
  import opened TreeOps

  /** The disk holds the tree. */
  ghost predicate Holding(v: Volume)
    reads v
  {
    v.Mounted() && Represents(v.Vol(), v.tree)
  }

  /** c is the first cluster of the directory at `path`; the root's is 0. */
  ghost predicate IsDirAt(t: Node, path: seq<Name>, c: nat) {
    DirIn(t, path) && Head(DirNode(t, path).chain) == c
  }

  /** Path components in the form in which directories store them. */
  function Keys(comps: seq<Str>): (r: seq<Name>)
    ensures |r| == |comps|
    ensures forall i :: 0 <= i < |comps| ==> r[i] == Fmt(comps[i])
  {
    seq(|comps|, i requires 0 <= i < |comps| => Fmt(comps[i]))
  }

  lemma {:induction false} GetAppend(t: Node, p: seq<Name>, q: seq<Name>)
    ensures Get(t, p + q) == if Get(t, p).None? then None else Get(Get(t, p).value, q)
    decreases |p|
  {
    if p == [] {
      assert p + q == q;
    } else if t.Dir? {
      var i := IndexOf(t.kids, p[0]);
      assert (p + q)[1..] == p[1..] + q;
      if i < |t.kids| {
        GetAppend(t.kids[i].node, p[1..], q);
      }
    }
  }

  lemma NoDirBelow(t: Node, p: seq<Name>, q: seq<Name>)
    requires !DirIn(t, p)
    ensures !DirIn(t, p + q)
  {
    GetAppend(t, p, q);
  }

  /** A directory of the tree, as it lies on disk. */
  lemma DirOnDisk(vol: Vol, t: Node, path: seq<Name>)
    requires vol.WellFormed() && Represents(vol, t) && DirIn(t, path)
    ensures var d := DirNode(t, path);
            && NodeRep(vol, d)
            && IsDirChain(vol, Head(d.chain), d.chain)
            && (d.chain == [] <==> path == [])
            && |d.kids| == Count(DirSecs(vol, d.chain))
  {
    GetRep(vol, t, path);
    if path != [] {
      OnlyRootChainless(vol, t, path);
      assert vol.IsCluster(DirNode(t, path).chain[0]);
    }
  }

  /** A lookup on disk finds the slot of the kid with that name. */
  lemma FindIsKid(vol: Vol, d: Node, name: Name)
    requires vol.WellFormed() && NodeRep(vol, d) && d.Dir? && name[0] != DOT
    ensures InData(vol.data, d.chain) && |d.kids| == Count(DirSecs(vol, d.chain))
    ensures Find(DirSecs(vol, d.chain), name) == IndexOf(d.kids, name)
  {
    var secs := DirSecs(vol, d.chain);
    var i := IndexOf(d.kids, name);
    forall j | 0 <= j < i ensures !Matches(SlotAt(secs, j), name) {
      assert KidRep(vol, SlotAt(secs, j), d.kids[j]);
    }
    if i < |d.kids| {
      assert KidRep(vol, SlotAt(secs, i), d.kids[i]);
    }
    FindInTidy(secs, name, i);
  }

  /** One step of a walk: the lookup of `name` in the directory at `path`. */
  lemma StepInto(vol: Vol, t: Node, path: seq<Name>, name: Name)
    requires vol.WellFormed() && Represents(vol, t) && DirIn(t, path) && name[0] != DOT
    ensures var d := DirNode(t, path);
            && InData(vol.data, d.chain) && |d.kids| == Count(DirSecs(vol, d.chain))
            && var k := Find(DirSecs(vol, d.chain), name);
            && k == IndexOf(d.kids, name)
            && (if k < |d.kids| then
                  && SlotNames(SlotAt(DirSecs(vol, d.chain), k), d.kids[k].node)
                  && Get(t, path + [name]) == Some(d.kids[k].node)
                else Get(t, path + [name]) == None)
  {
    var d := DirNode(t, path);
    DirOnDisk(vol, t, path);
    FindIsKid(vol, d, name);
    GetAppend(t, path, [name]);
    var k := IndexOf(d.kids, name);
    if k < |d.kids| {
      assert KidRep(vol, SlotAt(DirSecs(vol, d.chain), k), d.kids[k]);
      assert Get(d.kids[k].node, []) == Some(d.kids[k].node);
    }
  }

  /** Follows an absolute path from the root; succeeds iff the tree has a directory there. */
  method ResolveAbsolute(v: Volume, path: Str) returns (ok: bool, cluster: nat)
    requires Holding(v)
    ensures ok <==> IsAbsolute(path) && DirIn(v.tree, Keys(Parts(path)))
    ensures ok ==> IsDirAt(v.tree, Keys(Parts(path)), cluster)
  {
    hide View, NodeRep, PartsFrom, DirIn, Keys, Holding, Ended;
    if path == [] || path[0] != SLASH {
      return false, 0;
    }
    cluster := 0;
    var p := path[1..];
    FromRoot(v, path);
    var part: Str := [];
    ghost var done: seq<Str> := [];
    var i := 0;
    while true
      invariant i <= |p| && Parts(path) == done + PartsFrom(part, p[i..])
      invariant part == [] || IsPart(part)
      invariant IsDirAt(v.tree, Keys(done), cluster)
      decreases |p| - i
    {
      PartsStep(part, p, i);
      if i == |p| || p[i] == SLASH {
        ghost var rest := if i == |p| then [] else PartsFrom([], p[i + 1..]);
        OnePartDone(done, part, rest);
        if part != [] {
          var found;
          found, cluster := EnterSubdir(v, cluster, part, Keys(done));
          KeysAppend(done, [part]);
          done := done + [part];
          if !found {
            KeysAppend(done, rest);
            NoDirBelow(v.tree, Keys(done), Keys(rest));
            return false, 0;
          }
        }
        part := [];
        if i == |p| {
          return true, cluster;
        }
      } else {
        if |part| < NAME_MAX {
          part := part + [p[i]];
        }
      }
      i := i + 1;
    }
  }

  lemma FromRoot(v: Volume, path: Str)
    requires Holding(v) && IsAbsolute(path)
    ensures Parts(path) == [] + PartsFrom([], path[1..][0..]) && IsDirAt(v.tree, Keys([]), 0)
  {
    var p := path[1..];
    PartsSlash(p);
    assert [SLASH] + p == path && p[0..] == p && Keys([]) == [];
  }

  lemma OnePartDone(done: seq<Str>, part: Str, rest: seq<Str>)
    ensures done + (Ended(part) + rest) == (if part == [] then done else done + [part]) + rest
    ensures rest == [] ==> done + Ended(part) == if part == [] then done else done + [part]
    ensures rest == [] ==> forall ps: seq<Str> :: ps + rest == ps
  {
    assert rest == [] ==> forall ps: seq<Str> :: ps + rest == ps;
  }

  lemma KeysAppend(a: seq<Str>, b: seq<Str>)
    ensures Keys(a + b) == Keys(a) + Keys(b)
    ensures |b| == 1 ==> Keys(b) == [Fmt(b[0])]
  {
  }

  /** Looks `part` up in the directory at `at` and enters it if it is a directory. */
  method EnterSubdir(v: Volume, cluster: nat, part: Str, ghost at: seq<Name>) returns (ok: bool, sub: nat)
    requires Holding(v) && IsDirAt(v.tree, at, cluster)
    ensures ok <==> DirIn(v.tree, at + [Fmt(part)])
    ensures ok ==> IsDirAt(v.tree, at + [Fmt(part)], sub)
  {
    hide View;
    ghost var d := DirNode(v.tree, at);
    FmtFirst(part);
    DirOnDisk(v.Vol(), v.tree, at);
    StepInto(v.Vol(), v.tree, at, Fmt(part));
    hide NodeRep;
    var found, entry := FindEntry(v, cluster, part, d.chain);
    if !found {
      return false, 0;
    }
    if !IsDirSlot(entry) {
      return false, 0;
    }
    return true, ClusterOf(entry);
  }

  /** fat16_init before an operation: on a mounted volume it changes nothing. */
  method Remount(v: Volume) returns (ok: bool)
    requires Holding(v)
    modifies v`bpb
    ensures ok && Holding(v) && v.Vol() == old(v.Vol()) && v.bpb == old(v.bpb)
  {
    hide View, Represents, Bpb.Good;
    ok := v.Init();
  }

  // ---------- the prologue of every operation that takes a path ----------

  /** What `path` names, relative to the current directory's path. */
  function KeyOf(currentPath: Str, path: Str): seq<Name> {
    Keys(Resolved(currentPath, path))
  }

  lemma KeySplit(comps: seq<Str>)
    requires comps != []
    ensures Keys(Front(comps)) == Front(Keys(comps)) && Fmt(Last(comps)) == Last(Keys(comps))
    ensures Keys(comps) == Front(Keys(comps)) + [Last(Keys(comps))]
  {
  }

  lemma RootKey(cwd: Str, path: Str)
    ensures Normalized(cwd, path) == ROOT <==> KeyOf(cwd, path) == []
  {
    var comps := Resolved(cwd, path);
    SplitRender(comps);
    assert !Splits(ROOT);
  }

  /** split_path and resolve_absolute on a normalised path: the directory to work in, and the name there. */
  method SplitAndResolve(v: Volume, abs: Str, ghost comps: seq<Str>) returns (ok: bool, cluster: nat, name: Str)
    requires Holding(v) && IsNormal(comps) && abs == Render(comps)
    ensures ok <==> comps != [] && DirIn(v.tree, Front(Keys(comps)))
    ensures ok ==> IsDirAt(v.tree, Front(Keys(comps)), cluster) && name == Last(comps)
  {
    hide View, Holding, Splits, ParentPart, NamePart, DirIn, Render, Keys;
    SplitNormal(comps);
    var parent;
    ok, parent, name := SplitPath(abs);
    cluster := 0;
    if ok {
      ok, cluster := ResolveAbsolute(v, parent);
    }
  }

  lemma SplitNormal(comps: seq<Str>)
    requires IsNormal(comps)
    ensures Splits(Render(comps)) <==> comps != []
    ensures comps != [] ==>
              && NamePart(Render(comps)) == Last(comps)
              && IsAbsolute(ParentPart(Render(comps))) && Keys(Parts(ParentPart(Render(comps)))) == Front(Keys(comps))
  {
    SplitRender(comps);
    if comps != [] {
      KeySplit(comps);
      PartsRender(Front(comps));
      RenderAbsolute(Front(comps));
    }
  }

  /** normalize_path, split_path and resolve_absolute in turn. */
  method ResolveParent(v: Volume, path: Str) returns (ok: bool, cluster: nat, name: Str)
    requires Holding(v) && FitsBuffers(v.currentPath, path)
    ensures var key := KeyOf(v.currentPath, path);
            && (ok <==> key != [] && DirIn(v.tree, Front(key)))
            && (ok ==> IsDirAt(v.tree, Front(key), cluster) && key == Front(key) + [Fmt(name)])
    ensures ok ==> Resolved(v.currentPath, path) != [] && name == Last(Resolved(v.currentPath, path))
  {
    hide View, Resolved, Holding, FitsBuffers, DirIn, Render;
    ghost var comps := Resolved(v.currentPath, path);
    if comps != [] {
      KeySplit(comps);
    }
    var abs := NormalizePath(v.currentPath, path);
    ok, cluster, name := SplitAndResolve(v, abs, comps);
  }

  // ---------- what an operation does to every path ----------

  /** t' looks up like t, but that `key` names e. */
  ghost predicate SetTo(t: Node, t': Node, key: seq<Name>, e: Entry) {
    forall q :: Stat(t', q) == if q == key then e else Stat(t, q)
  }

  /** t' looks up like t, but that `key` and everything below it is gone. */
  ghost predicate Removed(t: Node, t': Node, key: seq<Name>) {
    forall q :: Stat(t', q) == if key <= q then Absent else Stat(t, q)
  }

  /** Nothing lies below a file or below a missing name. */
  lemma NothingBelow(t: Node, key: seq<Name>, q: seq<Name>)
    requires !Stat(t, key).IsDir? && key <= q && q != key
    ensures Stat(t, q).Absent?
  {
    var rest := q[|key|..];
    assert q == key + rest;
    GetAppend(t, key, rest);
  }

  lemma StatBelow(t: Node, q: seq<Name>)
    requires q != [] && (t.File? || forall k :: 0 <= k < |t.kids| ==> t.kids[k].Hole?)
    ensures Stat(t, q).Absent?
  {
  }

  /** A slot that was vacant or held the file `name` now names a file or an empty directory of that name. */
  lemma StatSet(vol: Vol, t: Node, at: seq<Name>, k: nat, name: Name, node: Node)
    requires vol.WellFormed() && Represents(vol, t) && DirIn(t, at) && k < |DirNode(t, at).kids|
    requires var kid := DirNode(t, at).kids[k]; kid.Item? ==> kid.name == name && kid.node.File?
    requires DirNode(t, at).kids[k].Hole? ==> Get(t, at + [name]).None?
    requires DistinctKids(DirNode(t, at).kids[k := Item(name, node)])
    requires node.File? || forall i :: 0 <= i < |node.kids| ==> node.kids[i].Hole?
    ensures SetTo(t, PutKid(t, at, k, Item(name, node)), at + [name], Stat(node, []))
  {
    var key := at + [name];
    var d := DirNode(t, at);
    GetRep(vol, t, at);
    if d.kids[k].Item? {
      GetAppend(t, at, [name]);
      IndexOfIs(d.kids, name, k);
    }
    assert !Stat(t, key).IsDir?;
    forall q ensures Stat(PutKid(t, at, k, Item(name, node)), q) == if q == key then Stat(node, []) else Stat(t, q) {
      StatPutKid(vol, t, at, k, Item(name, node), q);
      if key <= q && q != key {
        NothingBelow(t, key, q);
        StatBelow(node, q[|at| + 1..]);
      }
    }
  }

  /** A slot that named something is now a hole. */
  lemma StatRemove(vol: Vol, t: Node, at: seq<Name>, k: nat)
    requires vol.WellFormed() && Represents(vol, t) && DirIn(t, at)
    requires k < |DirNode(t, at).kids| && DirNode(t, at).kids[k].Item?
    ensures Removed(t, PutKid(t, at, k, Hole), at + [DirNode(t, at).kids[k].name])
  {
    GetRep(vol, t, at);
    forall q
      ensures Stat(PutKid(t, at, k, Hole), q) ==
              if at + [DirNode(t, at).kids[k].name] <= q then Absent else Stat(t, q)
    {
      StatPutKid(vol, t, at, k, Hole, q);
    }
  }

  lemma {:induction false} PutSame(t: Node, path: seq<Name>)
    requires Get(t, path).Some?
    ensures Put(t, path, Get(t, path).value) == t
    decreases |path|
  {
    if path != [] {
      var i := IndexOf(t.kids, path[0]);
      PutSame(t.kids[i].node, path[1..]);
      assert t.kids[i := t.kids[i]] == t.kids;
    }
  }

  lemma PutKidSame(t: Node, path: seq<Name>, k: nat)
    requires DirIn(t, path) && k < |DirNode(t, path).kids|
    ensures PutKid(t, path, k, DirNode(t, path).kids[k]) == t
  {
    var d := DirNode(t, path);
    assert d.kids[k := d.kids[k]] == d.kids;
    PutSame(t, path);
  }
}
