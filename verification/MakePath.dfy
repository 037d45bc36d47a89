/** mkdir_p: every missing directory on a path. */
module MakePath {
  import opened Layout
  import opened Chains
  import opened Slots
  import opened Names
  import opened Paths
  import opened VolumeState
  import opened FileData
  import opened Nodes
  import opened Tree
  import opened TreePaths
  import opened TreeOps
  import opened Resolve
  import opened Accounting
  import opened Entries
  import opened Lookup
  import opened MakeDir

  predicate AllStorable(names: seq<Name>) {
    forall i :: 0 <= i < |names| ==> IsStorable(names[i])
  }

  /** The directories `rest` below the directory at `at` are there or can be made: the first missing one needs a
      slot in a directory that is there; each needs a cluster. */
  ghost predicate CanMake(vol: Vol, t: Node, at: seq<Name>, rest: seq<Name>)
    requires vol.WellFormed()
    decreases |rest|
  {
    rest == [] ||
    match Stat(t, at + [rest[0]])
    case IsDir(_) => CanMake(vol, t, at + [rest[0]], rest[1..])
    case IsFile(_, _) => false
    case Absent =>
      DirIn(t, at) && HasRoom(vol, DirNode(t, at)) && |rest| <= |FreeClusters(vol)| && AllStorable(rest)
  }

  /** A cluster is taken for a directory that is then not there: its parent is full, or its name cannot be stored. */
  ghost predicate LosesCluster(vol: Vol, t: Node, at: seq<Name>, rest: seq<Name>)
    requires vol.WellFormed()
    decreases |rest|
  {
    rest != [] &&
    match Stat(t, at + [rest[0]])
    case IsDir(_) => LosesCluster(vol, t, at + [rest[0]], rest[1..])
    case IsFile(_, _) => false
    case Absent =>
      DirIn(t, at) && FreeClusters(vol) != {} &&
      (!HasRoom(vol, DirNode(t, at)) || exists i :: 0 <= i < |rest| && BadAt(rest, i, |FreeClusters(vol)|))
  }

  /** The clusters last until the i-th name, which cannot be stored. */
  ghost predicate BadAt(names: seq<Name>, i: nat, free: nat)
    requires i < |names|
  {
    i < free && !IsStorable(names[i])
  }

  /** t' is t with some missing directories on the way to `key` made. */
  ghost predicate DirsAdded(t: Node, t': Node, key: seq<Name>) {
    forall q :: Stat(t', q) == Stat(t, q) || (q <= key && Stat(t, q).Absent? && Stat(t', q).IsDir?)
  }

  /** One missing directory made: the rest can be made iff it could before. */
  lemma MadeOne(vol: Vol, vol': Vol, t: Node, t': Node, at: seq<Name>, name: Name, rest: seq<Name>, c: nat)
    requires vol.WellFormed() && DirIn(t, at) && HasRoom(vol, DirNode(t, at)) && Stat(t, at + [name]).Absent?
    requires MadeDir(vol', t, t', at + [name], c) && IsStorable(name)
    requires c in FreeClusters(vol) && FreeClusters(vol') == FreeClusters(vol) - {c}
    ensures CanMake(vol, t, at, [name] + rest) <==> CanMake(vol', t', at + [name], rest)
  {
    var key := at + [name];
    assert ([name] + rest)[0] == name && ([name] + rest)[1..] == rest;
    assert AllStorable([name] + rest) <==> AllStorable(rest) by {
      assert forall i :: 0 <= i < |rest| ==> ([name] + rest)[i + 1] == rest[i];
    }
    if rest != [] {
      NothingBelow(t, key, key + [rest[0]]);
      assert Stat(t', key + [rest[0]]).Absent?;
    }
  }

  /** One missing directory made: the rest loses a cluster iff it would have before. */
  lemma MadeOneLoses(vol: Vol, vol': Vol, t: Node, t': Node, at: seq<Name>, name: Name, rest: seq<Name>, c: nat)
    requires vol.WellFormed() && DirIn(t, at) && HasRoom(vol, DirNode(t, at)) && Stat(t, at + [name]).Absent?
    requires MadeDir(vol', t, t', at + [name], c) && IsStorable(name)
    requires c in FreeClusters(vol) && FreeClusters(vol') == FreeClusters(vol) - {c}
    ensures LosesCluster(vol, t, at, [name] + rest) <==> LosesCluster(vol', t', at + [name], rest)
  {
    hide IsStorable, HasRoom, FreeClusters, DirIn;
    var key, names := at + [name], [name] + rest;
    var free, left := |FreeClusters(vol)|, |FreeClusters(vol')|;
    assert names[0] == name && names[1..] == rest && left == free - 1;
    if rest != [] {
      NothingBelow(t, key, key + [rest[0]]);
      assert Stat(t', key + [rest[0]]).Absent?;
      if i :| 0 <= i < |rest| && BadAt(rest, i, left) {
        assert BadAt(names, i + 1, free);
      }
      if i :| 0 <= i < |names| && BadAt(names, i, free) {
        assert BadAt(rest, i - 1, left);
      }
    }
  }

  /** A cluster in use that the tree does not know. */
  lemma Lost(vol: Vol, vol': Vol, t: Node, c: nat)
    requires vol.WellFormed() && vol'.WellFormed() && |vol'.data| == |vol.data| && Balanced(vol, t)
    requires c in FreeClusters(vol) && FreeClusters(vol') == FreeClusters(vol) - {c}
    ensures !Balanced(vol', t)
  {
    assert Clusters(t)[c] == 0 && InUse(vol', c);
  }

  lemma AddedOne(t0: Node, t: Node, t': Node, key: seq<Name>, at: seq<Name>, name: Name, c: nat)
    requires DirsAdded(t0, t, key) && SetTo(t, t', at + [name], IsDir([c])) && at + [name] <= key
    requires Stat(t, at + [name]).Absent?
    ensures DirsAdded(t0, t', key)
  {
  }

  /** Enters the directory `part`, making it if it is missing. */
  method EnterOrMake(v: Volume, cluster: nat, part: Str, ghost at: seq<Name>, ghost key: seq<Name>,
        ghost rest: seq<Name>)
    returns (ok: bool, sub: nat)
    requires Valid(v) && IsDirAt(v.tree, at, cluster) && part != [] && at + [Fmt(part)] <= key
    modifies v`disk, v`tree, v`currentDirCluster
    ensures v.currentDirCluster == old(v.currentDirCluster)
    ensures Holding(v) && DirsAdded(old(v.tree), v.tree, key)
    ensures ok ==>
              && Valid(v) && IsDirAt(v.tree, at + [Fmt(part)], sub)
              && (CanMake(old(v.Vol()), old(v.tree), at, [Fmt(part)] + rest)
                  <==> CanMake(v.Vol(), v.tree, at + [Fmt(part)], rest))
              && (LosesCluster(old(v.Vol()), old(v.tree), at, [Fmt(part)] + rest)
                  <==> LosesCluster(v.Vol(), v.tree, at + [Fmt(part)], rest))
    ensures !ok ==> !CanMake(old(v.Vol()), old(v.tree), at, [Fmt(part)] + rest)
    ensures !ok ==> (Valid(v) <==> !LosesCluster(old(v.Vol()), old(v.tree), at, [Fmt(part)] + rest))
  {
    ghost var vol, t, name := v.Vol(), v.tree, Fmt(part);
    hide View, Mirrored, Bpb.TotalClusters, Represents, Balanced, Stat, EntryIs, MkdirOutcome, CanMake, DirsAdded, Get,
      LosesCluster;
    CanMakeStep(vol, t, at, name, rest);
    AddedNone(t, key);
    var found, entry := FindIn(v, cluster, part, at);
    if found {
      EnteredDir(t, at, name, entry);
      if !IsDirSlot(entry) {
        return false, 0;
      }
      return true, ClusterOf(entry);
    }
    var old_ := v.currentDirCluster;
    v.currentDirCluster := cluster;
    var made := Mkdir(v, part, at);
    v.currentDirCluster := old_;
    AfterMkdir(vol, v.Vol(), t, v.tree, at, name, key, rest, made);
    if !made {
      return false, 0;
    }
    found, entry := FindIn(v, cluster, part, at);
    if !found {
      return false, 0;
    }
    EnteredDir(v.tree, at, name, entry);
    return true, ClusterOf(entry);
  }

  lemma AddedNone(t: Node, key: seq<Name>)
    ensures DirsAdded(t, t, key)
  {
  }

  lemma CanMakeStep(vol: Vol, t: Node, at: seq<Name>, name: Name, rest: seq<Name>)
    requires vol.WellFormed()
    ensures Stat(t, at + [name]).IsDir? ==> (CanMake(vol, t, at, [name] + rest) <==> CanMake(vol, t, at + [name], rest))
    ensures Stat(t, at + [name]).IsDir? ==>
              (LosesCluster(vol, t, at, [name] + rest) <==> LosesCluster(vol, t, at + [name], rest))
    ensures Stat(t, at + [name]).IsFile? ==>
              !CanMake(vol, t, at, [name] + rest) && !LosesCluster(vol, t, at, [name] + rest)
  {
    assert ([name] + rest)[0] == name && ([name] + rest)[1..] == rest;
  }

  lemma EnteredDir(t: Node, at: seq<Name>, name: Name, s: Slot)
    requires EntryIs(s, Stat(t, at + [name]))
    ensures if IsDirSlot(s) then Stat(t, at + [name]).IsDir? && IsDirAt(t, at + [name], ClusterOf(s))
            else Stat(t, at + [name]).IsFile?
  {
  }

  lemma AfterMkdir(vol: Vol, vol': Vol, t: Node, t': Node, at: seq<Name>, name: Name, key: seq<Name>, rest: seq<Name>,
        made: bool)
    requires vol.WellFormed() && vol'.WellFormed() && Represents(vol, t) && Balanced(vol, t) && DirIn(t, at)
    requires Stat(t, at + [name]).Absent? && at + [name] <= key && name[0] != 0 && name[0] != DOT
    requires MkdirOutcome(vol, vol', t, t', at, name, made)
    ensures Represents(vol', t') && DirsAdded(t, t', key) && DirIn(t', at)
             && Head(DirNode(t', at).chain) == Head(DirNode(t, at).chain)
    ensures !made ==> !CanMake(vol, t, at, [name] + rest)
                      && (Balanced(vol', t') <==> !LosesCluster(vol, t, at, [name] + rest))
    ensures made ==>
              && (Stat(t', at + [name]).Absent? ==>
                    && !CanMake(vol, t, at, [name] + rest)
                    && LosesCluster(vol, t, at, [name] + rest) && !Balanced(vol', t'))
              && (!Stat(t', at + [name]).Absent? ==>
                    && Stat(t', at + [name]).IsDir? && Balanced(vol', t')
                    && (CanMake(vol, t, at, [name] + rest) <==> CanMake(vol', t', at + [name], rest))
                    && (LosesCluster(vol, t, at, [name] + rest) <==> LosesCluster(vol', t', at + [name], rest)))
  {
    hide Represents, Balanced, HasRoom, Get, FreeClusters, IsStorable, SetTo, CanMake, LosesCluster, HasDots;
    StatIsGet(t, at + [name]);
    AddedNone(t, key);
    CannotMake(vol, t, at, name, rest);
    LosesNow(vol, t, at, name, rest);
    if FreeClusters(vol) != {} {
      var c: nat :| IsLowestFree(vol, c) && FreeClusters(vol') == FreeClusters(vol) - {c}
           && if made && IsStorable(name) then MadeDir(vol', t, t', at + [name], c)
                                               && HasDots(vol', c, Head(DirNode(t, at).chain))
              else Represents(vol', t') && t' == t;
      if made && IsStorable(name) {
        MadeOne(vol, vol', t, t', at, name, rest, c);
        MadeOneLoses(vol, vol', t, t', at, name, rest, c);
        AddedOne(t, t, t', key, at, name, c);
        SetElsewhere(t, t', at, name, c);
      } else {
        Lost(vol, vol', t, c);
      }
    }
  }

  lemma SetElsewhere(t: Node, t': Node, at: seq<Name>, name: Name, c: nat)
    requires SetTo(t, t', at + [name], IsDir([c])) && DirIn(t, at)
    ensures DirIn(t', at) && Head(DirNode(t', at).chain) == Head(DirNode(t, at).chain)
    ensures Stat(t', at + [name]) == IsDir([c])
  {
    assert at != at + [name];
    assert Stat(t', at) == Stat(t, at);
  }

  lemma CannotMake(vol: Vol, t: Node, at: seq<Name>, name: Name, rest: seq<Name>)
    requires vol.WellFormed() && Stat(t, at + [name]).Absent?
    ensures FreeClusters(vol) == {} || !IsStorable(name) || !DirIn(t, at) || !HasRoom(vol, DirNode(t, at))
            ==> !CanMake(vol, t, at, [name] + rest)
  {
    assert ([name] + rest)[0] == name;
  }

  lemma LosesNow(vol: Vol, t: Node, at: seq<Name>, name: Name, rest: seq<Name>)
    requires vol.WellFormed() && Stat(t, at + [name]).Absent? && DirIn(t, at)
    ensures FreeClusters(vol) == {} ==> !LosesCluster(vol, t, at, [name] + rest)
    ensures FreeClusters(vol) != {} && (!HasRoom(vol, DirNode(t, at)) || !IsStorable(name)) ==>
              LosesCluster(vol, t, at, [name] + rest)
  {
    hide HasRoom, IsStorable, FreeClusters;
    var names := [name] + rest;
    assert names[0] == name;
    if FreeClusters(vol) != {} && !IsStorable(name) {
      assert BadAt(names, 0, |FreeClusters(vol)|);
    }
  }

  /** Makes every missing directory on the path. */
  method MkdirP(v: Volume, path: Str) returns (r: bool)
    requires Valid(v) && FitsBuffers(v.currentPath, path)
    modifies v`disk, v`tree, v`currentDirCluster
    ensures v.currentDirCluster == old(v.currentDirCluster)
    ensures var key := KeyOf(v.currentPath, path);
            && Holding(v) && DirsAdded(old(v.tree), v.tree, key)
            && (r <==> path != [] && CanMake(old(v.Vol()), old(v.tree), [], key))
            && (r ==> DirIn(v.tree, key))
            && (Valid(v) <==> path == [] || !LosesCluster(old(v.Vol()), old(v.tree), [], key))
  {
    hide View, Mirrored, Bpb.TotalClusters, Represents, Balanced, CanMake, LosesCluster, DirsAdded, PartsFrom, Ended,
      Keys, Get, FitsBuffers, KeyOf, Resolved, Normalized, Parts, IsDirAt;
    ghost var vol0, t0 := v.Vol(), v.tree;
    ghost var key := KeyOf(v.currentPath, path);
    AddedNone(t0, key);
    if path == [] {
      return false;
    }
    var abs := NormalizePath(v.currentPath, path);
    PathFromRoot(v, path, abs);
    var cluster := 0;
    var p := abs[1..];
    var part: Str := [];
    ghost var done: seq<Str> := [];
    var i := 0;
    while true
      invariant i <= |p| && Parts(abs) == done + PartsFrom(part, p[i..])
      invariant part == [] || IsPart(part)
      invariant Valid(v) && IsDirAt(v.tree, Keys(done), cluster) && DirsAdded(t0, v.tree, key)
      invariant v.currentDirCluster == old(v.currentDirCluster)
      invariant CanMake(vol0, t0, [], key) <==> CanMake(v.Vol(), v.tree, Keys(done), Keys(PartsFrom(part, p[i..])))
      invariant LosesCluster(vol0, t0, [], key) <==>
                LosesCluster(v.Vol(), v.tree, Keys(done), Keys(PartsFrom(part, p[i..])))
      decreases |p| - i
    {
      PartsStep(part, p, i);
      if i == |p| || p[i] == SLASH {
        ghost var rest := PartDone(part, p, i, done);
        if part != [] {
          PartBelow(done, part, rest, key);
          ghost var t := v.tree;
          var ok;
          ok, cluster := EnterOrMake(v, cluster, part, Keys(done), key, Keys(rest));
          AddedBoth(t0, t, v.tree, key);
          if !ok {
            return false;
          }
          done := done + [part];
        }
        part := [];
        if i == |p| {
          AllMade(v.Vol(), v.tree, done, abs, cluster);
          return true;
        }
      } else {
        if |part| < NAME_MAX {
          part := part + [p[i]];
        }
      }
      i := i + 1;
    }
  }

  /** At a slash or at the end: the component just read, and the ones still to come. */
  lemma PartDone(part: Str, p: Str, i: nat, done: seq<Str>) returns (rest: seq<Str>)
    requires i <= |p| && (i == |p| || p[i] == SLASH)
    ensures PartsFrom(part, p[i..]) == if part == [] then rest else [part] + rest
    ensures if i == |p| then rest == [] else rest == PartsFrom([], p[i + 1..])
    ensures done + ([part] + rest) == done + [part] + rest
  {
    hide PartsFrom;
    PartsStep(part, p, i);
    rest := if i == |p| then [] else PartsFrom([], p[i + 1..]);
  }

  lemma AllMade(vol: Vol, t: Node, done: seq<Str>, abs: Str, cluster: nat)
    requires vol.WellFormed() && IsDirAt(t, Keys(done), cluster) && Parts(abs) == done + []
    ensures DirIn(t, Keys(Parts(abs))) && CanMake(vol, t, Keys(done), Keys([]))
    ensures !LosesCluster(vol, t, Keys(done), Keys([]))
  {
    assert done + [] == done;
  }

  lemma PathFromRoot(v: Volume, path: Str, abs: Str)
    requires Holding(v) && abs == Normalized(v.currentPath, path)
    ensures IsAbsolute(abs) && Parts(abs) == [] + PartsFrom([], abs[1..][0..]) && IsDirAt(v.tree, Keys([]), 0)
    ensures Keys([]) == [] && Keys(Parts(abs)) == KeyOf(v.currentPath, path)
    ensures Keys(PartsFrom([], abs[1..][0..])) == KeyOf(v.currentPath, path)
  {
    PartsRender(Resolved(v.currentPath, path));
    RenderAbsolute(Resolved(v.currentPath, path));
    FromRoot(v, abs);
  }

  lemma PartBelow(done: seq<Str>, part: Str, rest: seq<Str>, key: seq<Name>)
    requires Keys(done + ([part] + rest)) == key
    ensures Keys(done) + [Fmt(part)] == Keys(done + [part]) <= key
    ensures Keys([part] + rest) == [Fmt(part)] + Keys(rest)
  {
    hide Keys, Fmt;
    KeysAppend(done, [part]);
    KeysAppend(done + [part], rest);
    KeysAppend([part], rest);
    assert done + ([part] + rest) == done + [part] + rest;
  }

  lemma AddedBoth(t0: Node, t: Node, t': Node, key: seq<Name>)
    requires DirsAdded(t0, t, key) && DirsAdded(t, t', key)
    ensures DirsAdded(t0, t', key)
  {
  }
}
