/** The current directory: its path and its first cluster agree. */
module WorkingDir {
  import opened Chains
  import opened Slots
  import opened Names
  import opened Paths
  import opened VolumeState
  import opened Nodes
  import opened TreeOps
  import opened Resolve

  /** Where the shell is. */
  function Home(currentPath: Str): seq<Name> {
    Keys(Parts(currentPath))
  }

  /** current_path is a normalised path whose components lead to the directory current_dir_cluster. */
  ghost predicate AtHome(t: Node, currentPath: Str, cluster: nat) {
    && IsNormal(Parts(currentPath)) && currentPath == Render(Parts(currentPath))
    && IsDirAt(t, Home(currentPath), cluster)
  }

  /** Moves to the directory that `path` names, or stays where it is. */
  method CdPath(v: Volume, path: Str) returns (r: bool)
    requires Holding(v) && FitsBuffers(v.currentPath, path)
    modifies v`currentDirCluster, v`currentPath
    ensures r <==> path != [] && DirIn(v.tree, KeyOf(old(v.currentPath), path))
    ensures !r ==> v.currentPath == old(v.currentPath) && v.currentDirCluster == old(v.currentDirCluster)
    ensures r ==>
              && AtHome(v.tree, v.currentPath, v.currentDirCluster)
              && v.currentPath == Normalized(old(v.currentPath), path)
              && Home(v.currentPath) == KeyOf(old(v.currentPath), path)
    ensures Holding(v) && v.Vol() == old(v.Vol())
  {
    if path == [] {
      return false;
    }
    PartsRender(Resolved(v.currentPath, path));
    RenderAbsolute(Resolved(v.currentPath, path));
    var abs := NormalizePath(v.currentPath, path);
    var ok, newCluster := ResolveAbsolute(v, abs);
    if !ok {
      return false;
    }
    v.currentDirCluster := newCluster;
    v.currentPath := abs;
    return true;
  }

  lemma DirAtStat(t: Node, path: seq<Name>, c: nat)
    ensures IsDirAt(t, path, c) <==> Stat(t, path).IsDir? && Head(Stat(t, path).chain) == c
  {
  }

  /** Creating or changing anything but a directory leaves the current directory where it was. */
  lemma HomeKept(t: Node, t': Node, key: seq<Name>, e: Entry, currentPath: Str, c: nat)
    requires AtHome(t, currentPath, c) && SetTo(t, t', key, e) && !Stat(t, key).IsDir?
    ensures AtHome(t', currentPath, c)
  {
    DirAtStat(t, Home(currentPath), c);
    DirAtStat(t', Home(currentPath), c);
  }

  /** Removing something loses the current directory iff it is what was removed, or below it. */
  lemma HomeLost(t: Node, t': Node, key: seq<Name>, currentPath: Str, c: nat)
    requires AtHome(t, currentPath, c) && Removed(t, t', key)
    ensures AtHome(t', currentPath, c) <==> !(key <= Home(currentPath))
    ensures !Stat(t, key).IsDir? ==> AtHome(t', currentPath, c)
  {
    DirAtStat(t, Home(currentPath), c);
    DirAtStat(t', Home(currentPath), c);
    if key <= Home(currentPath) && !Stat(t, key).IsDir? {
      if key != Home(currentPath) {
        NothingBelow(t, key, Home(currentPath));
      }
      assert false;
    }
  }
}
