/** Runs of operations: what every successful one keeps, and what a program that writes and reads back sees. */
module Runs {
  import opened Bytes
  import opened Layout
  import opened Content
  import opened Slots
  import opened Names
  import opened Paths
  import opened VolumeState
  import opened FileData
  import opened Nodes
  import opened TreePaths
  import opened TreeOps
  import opened Resolve
  import opened Accounting
  import opened Entries
  import opened Removal
  import opened RemoveTree
  import opened MakeDir
  import opened MakePath
  import opened WorkingDir
  import opened FileWrite
  import opened FileAppend
  import opened FileRead
  import opened FileCopy
  import opened FileMove

  /** A write changes the free count by exactly the difference between the old chain and the new one. */
  lemma WriteCount(vol: Vol, vol': Vol, t: Node, t': Node, key: seq<Name>, data: seq<Byte>)
    requires WriteOutcome(vol, vol', t, t', key, data, true) && IsStorable(Last(key)) && |vol'.data| == |vol.data|
    requires Represents(vol, t) && Balanced(vol, t) && vol'.spc == vol.spc
    ensures |FreeClusters(vol')| == |FreeClusters(vol)| + |OldChain(Stat(t, key))| - Need(vol.spc, |data|)
  {
    FreeAfter(vol, vol', t, t', key, data);
    StatChain(vol', t', key);
  }

  // ---------- round trips ----------

  /** What was written is what is read back, whole or in part; no other path has changed. Both succeed exactly if
      there is an entry to write to, the clusters suffice, and the name can be stored. */
  method WriteThenRead(v: Volume, path: Str, data: seq<Byte>, offset: nat, len: nat)
    returns (ok: bool, whole: seq<Byte>, part: seq<Byte>)
    requires Valid(v) && FitsBuffers(v.currentPath, path) && |data| < 0x1_0000_0000
    modifies v`disk, v`tree
    ensures var key := KeyOf(v.currentPath, path);
            && (ok <==> path != [] && key != [] && IsStorable(Last(key))
                        && WriteFits(old(v.Vol()), old(v.tree), Front(key), Last(key), |data|))
            && (ok ==>
                  && whole == data && part == Slice(data, offset, len) && Valid(v)
                  && forall q :: q != key ==> Stat(v.tree, q) == Stat(old(v.tree), q))
  {
    hide View, Represents, Balanced, Bpb.Good, Mirrored, KeyOf, FitsBuffers, WriteOutcome, Stat, WriteFits, IsStorable,
      Slice;
    ghost var vol, t, key := v.Vol(), v.tree, KeyOf(v.currentPath, path);
    ok := WriteFile(v, path, data);
    if path != [] {
      KeyFirst(v.currentPath, path);
      WriteOrNot(vol, v.Vol(), t, v.tree, key, data, ok);
    }
    whole, part := [], [];
    if ok {
      ok, whole := ReadFile(v, path, |data|);
      var there;
      there, part := ReadAt(v, path, offset, len);
    }
  }

  lemma WriteOrNot(vol: Vol, vol': Vol, t: Node, t': Node, key: seq<Name>, data: seq<Byte>, ok: bool)
    requires WriteOutcome(vol, vol', t, t', key, data, ok) && (key != [] ==> Last(key)[0] != DOT && Last(key)[0] != 0)
    ensures ok <==> key != [] && WriteFits(vol, t, Front(key), Last(key), |data|)
    ensures ok ==> vol'.WellFormed() && Represents(vol', t')
    ensures ok ==> (Stat(t', key).IsFile? <==> IsStorable(Last(key)))
    ensures ok && IsStorable(Last(key)) ==>
              && Stat(t', key).bytes == data && Balanced(vol', t')
              && forall q :: q != key ==> Stat(t', q) == Stat(t, q)
  {
    hide Represents, Balanced, CanWrite, DiskFull;
    if ok && !IsStorable(Last(key)) {
      NotAFile(vol', t', key);
    }
  }

  /** No entry of the tree has a name that starts with the deleted mark. */
  lemma NotAFile(vol: Vol, t: Node, key: seq<Name>)
    requires vol.WellFormed() && Represents(vol, t) && key != [] && Last(key)[0] == DELETED
    ensures !Stat(t, key).IsFile?
  {
    assert key == Front(key) + [Last(key)];
    GetAppend(t, Front(key), [Last(key)]);
    if DirIn(t, Front(key)) {
      GetRep(vol, t, Front(key));
      KidNamesLive(vol, DirNode(t, Front(key)));
    }
  }

  // ---------- operations as changes of a map from paths to entries ----------

  datatype Op =
    | NewFile(name: Str) | NewDir(name: Str) | NewPath(path: Str)
    | Write(path: Str, data: seq<Byte>) | Append(path: Str, data: seq<Byte>)
    | Copy(src: Str, dst: Str) | Move(src: Str, dst: Str)
    | DeleteFile(name: Str) | DeleteDir(name: Str) | DeleteAll(path: Str) | Cd(path: Str)

  /** A volume at one moment: what is on it, the tree that stands for, and where the shell is. */
  datatype Moment = Moment(vol: Vol, tree: Node, path: Str)

  ghost function Now(v: Volume): Moment
    requires v.Mounted()
    reads v
  {
    Moment(v.Vol(), v.tree, v.currentPath)
  }

  /** The file `key` has these bytes now; every other path looks up as before. */
  ghost predicate HoldsNow(a: Node, b: Node, key: seq<Name>, bytes: seq<Byte>) {
    Stat(b, key).IsFile? && Stat(b, key).bytes == bytes && SetTo(a, b, key, Stat(b, key))
  }

  /** The meaning of a successful operation. */
  ghost predicate Did(op: Op, a: Moment, b: Moment) {
    && (!op.Cd? ==> b.path == a.path)
    && match op
       case NewFile(name) =>
         var key := Home(a.path) + [Fmt(name)];
         Stat(a.tree, key).Absent? && HoldsNow(a.tree, b.tree, key, [])
       case NewDir(name) =>
         var key := Home(a.path) + [Fmt(name)];
         Stat(a.tree, key).Absent? && Stat(b.tree, key).IsDir? && SetTo(a.tree, b.tree, key, Stat(b.tree, key))
       case NewPath(path) => DirIn(b.tree, KeyOf(a.path, path)) && DirsAdded(a.tree, b.tree, KeyOf(a.path, path))
       case Write(path, data) =>
         var key := KeyOf(a.path, path);
         !Stat(a.tree, key).IsDir? && HoldsNow(a.tree, b.tree, key, data)
       case Append(path, data) =>
         var key := KeyOf(a.path, path);
         !Stat(a.tree, key).IsDir? && HoldsNow(a.tree, b.tree, key, OldBytes(Stat(a.tree, key)) + data)
       case Copy(src, dst) =>
         var sk := KeyOf(a.path, src);
         var tk := TargetKey(a.tree, sk, KeyOf(a.path, dst));
         Stat(a.tree, sk).IsFile? && !Stat(a.tree, tk).IsDir? && HoldsNow(a.tree, b.tree, tk, Stat(a.tree, sk).bytes)
       case Move(src, dst) =>
         var sk := KeyOf(a.path, src);
         var tk := TargetKey(a.tree, sk, KeyOf(a.path, dst));
         Stat(a.tree, sk).IsFile? && Stat(a.tree, tk).Absent? && Moved(a.tree, b.tree, sk, tk)
       case DeleteFile(name) =>
         var key := Home(a.path) + [Fmt(name)];
         Stat(a.tree, key).IsFile? && Removed(a.tree, b.tree, key)
       case DeleteDir(name) =>
         var key := Home(a.path) + [Fmt(name)];
         Stat(a.tree, key).IsDir? && Removed(a.tree, b.tree, key)
       case DeleteAll(path) =>
         var key := KeyOf(a.path, path);
         key != [] && !Stat(a.tree, key).Absent? && Removed(a.tree, b.tree, key)
       case Cd(path) =>
         DirIn(a.tree, KeyOf(a.path, path)) && b.tree == a.tree && b.path == Normalized(a.path, path)
  }

  /** When an operation succeeds. */
  ghost predicate Succeeds(op: Op, m: Moment)
    requires m.vol.WellFormed()
  {
    match op
    case NewFile(name) => CanInsert(m.vol, m.tree, Home(m.path), Fmt(name))
    case NewDir(name) => CanInsert(m.vol, m.tree, Home(m.path), Fmt(name)) && FreeClusters(m.vol) != {}
    case NewPath(path) => path != [] && CanMake(m.vol, m.tree, [], KeyOf(m.path, path))
    case Write(path, data) => path != [] && WriteGoes(m, KeyOf(m.path, path), |data|)
    case Append(path, data) =>
      var key := KeyOf(m.path, path);
      path != [] && key != [] && |OldBytes(Stat(m.tree, key))| + |data| < 0x1_0000_0000
      && AppendFits(m.vol, m.tree, Front(key), Last(key), |data|)
    case Copy(src, dst) =>
      var sk := KeyOf(m.path, src);
      CopyStarts(m, src, dst)
      && WriteGoes(m, TargetKey(m.tree, sk, KeyOf(m.path, dst)), |Stat(m.tree, sk).bytes|)
    case Move(src, dst) =>
      var sk := KeyOf(m.path, src);
      var tk := TargetKey(m.tree, sk, KeyOf(m.path, dst));
      Stat(m.tree, sk).IsFile? && tk != [] && CanInsert(m.vol, m.tree, Front(tk), Last(tk))
    case DeleteFile(name) => name != [] && Stat(m.tree, Home(m.path) + [Fmt(name)]).IsFile?
    case DeleteDir(name) =>
      var e := Get(m.tree, Home(m.path) + [Fmt(name)]);
      name != [] && e.Some? && e.value.Dir? && IsEmptyDir(e.value)
    case DeleteAll(path) =>
      path != [] && KeyOf(m.path, path) != [] && !Stat(m.tree, KeyOf(m.path, path)).Absent?
    case Cd(path) => path != [] && DirIn(m.tree, KeyOf(m.path, path))
  }

  ghost predicate WriteGoes(m: Moment, key: seq<Name>, size: nat)
    requires m.vol.WellFormed()
  {
    key != [] && WriteFits(m.vol, m.tree, Front(key), Last(key), size)
  }

  /** The source of a copy is a file whose buffer size does not wrap around. */
  ghost predicate CopyStarts(m: Moment, src: Str, dst: Str) {
    var e := Stat(m.tree, KeyOf(m.path, src));
    src != [] && dst != [] && e.IsFile? && |e.bytes| + 4 < 0x1_0000_0000
  }

  /** When an operation fails halfway: after a cluster has been taken for a directory that is then not made, or for
      lack of clusters in the middle of a file. All other failures leave the volume valid. */
  ghost predicate FailsHalfway(op: Op, m: Moment)
    requires m.vol.WellFormed()
  {
    !Succeeds(op, m) &&
    match op
    case NewDir(name) => Stat(m.tree, Home(m.path) + [Fmt(name)]).Absent? && FreeClusters(m.vol) != {}
    case NewPath(path) => path != [] && LosesCluster(m.vol, m.tree, [], KeyOf(m.path, path))
    case Write(path, data) => path != [] && WriteStarts(m, KeyOf(m.path, path))
    case Append(path, data) =>
      var key := KeyOf(m.path, path);
      path != [] && |OldBytes(Stat(m.tree, key))| + |data| < 0x1_0000_0000 && WriteStarts(m, key)
    case Copy(src, dst) =>
      CopyStarts(m, src, dst)
      && WriteStarts(m, TargetKey(m.tree, KeyOf(m.path, src), KeyOf(m.path, dst)))
    case _ => false
  }

  ghost predicate WriteStarts(m: Moment, key: seq<Name>) {
    key != [] && CanWrite(m.vol, m.tree, Front(key), Last(key))
  }

  /** What such a failure leaves: everything as it was, but for directories made on the way. */
  ghost predicate Stays(op: Op, a: Moment, b: Moment) {
    if op.NewPath? then b.path == a.path && DirsAdded(a.tree, b.tree, KeyOf(a.path, op.path)) else b == a
  }

  /** The disk holds the tree, and its chains account for every cluster in use. */
  ghost predicate Sound(m: Moment) {
    m.vol.WellFormed() && Represents(m.vol, m.tree) && Balanced(m.vol, m.tree)
  }

  /** The whole contract of an operation, from one moment to the next. */
  ghost predicate Outcome(op: Op, a: Moment, b: Moment, ok: bool)
    requires a.vol.WellFormed()
  {
    && (ok <==> Succeeds(op, a))
    && (ok ==> Sound(b) && Did(op, a, b))
    && (!ok && !FailsHalfway(op, a) ==> Sound(b) && Stays(op, a, b))
  }

  /** The shell's directory and everything above it survive the operation. */
  predicate SparesHome(op: Op, a: Moment) {
    op.DeleteAll? ==> !(KeyOf(a.path, op.path) <= Home(a.path))
  }

  /** The current directory still agrees with its path, unless it was deleted recursively. */
  lemma HomeAfter(op: Op, a: Moment, b: Moment, c: nat)
    requires Did(op, a, b) && AtHome(a.tree, a.path, c) && SparesHome(op, a) && !op.Cd?
    ensures AtHome(b.tree, b.path, c)
  {
    hide Stat, KeyOf, AtHome, DirIn, TargetKey, Fmt, Home;
    match op
    case NewFile(name) => HomeKeptBy(a, b, Home(a.path) + [Fmt(name)], c);
    case NewDir(name) => HomeKeptBy(a, b, Home(a.path) + [Fmt(name)], c);
    case NewPath(path) => HomeAmongMore(a, b, KeyOf(a.path, path), c);
    case Write(path, data) => HomeKeptBy(a, b, KeyOf(a.path, path), c);
    case Append(path, data) => HomeKeptBy(a, b, KeyOf(a.path, path), c);
    case Copy(src, dst) =>
      var tk := TargetKey(a.tree, KeyOf(a.path, src), KeyOf(a.path, dst));
      HomeKeptBy(a, b, tk, c);
    case Move(src, dst) =>
      HomeDespiteMove(a, b, KeyOf(a.path, src), TargetKey(a.tree, KeyOf(a.path, src), KeyOf(a.path, dst)), c);
    case DeleteFile(name) => HomeLost(a.tree, b.tree, Home(a.path) + [Fmt(name)], a.path, c);
    case DeleteDir(name) => HomeLost(a.tree, b.tree, Home(a.path) + [Fmt(name)], a.path, c);
    case DeleteAll(path) => HomeLost(a.tree, b.tree, KeyOf(a.path, path), a.path, c);
  }

  lemma HomeKeptBy(a: Moment, b: Moment, key: seq<Name>, c: nat)
    requires AtHome(a.tree, a.path, c) && SetTo(a.tree, b.tree, key, Stat(b.tree, key)) && !Stat(a.tree, key).IsDir?
    requires b.path == a.path
    ensures AtHome(b.tree, b.path, c)
  {
    HomeKept(a.tree, b.tree, key, Stat(b.tree, key), a.path, c);
  }

  lemma HomeAmongMore(a: Moment, b: Moment, key: seq<Name>, c: nat)
    requires AtHome(a.tree, a.path, c) && DirsAdded(a.tree, b.tree, key) && b.path == a.path
    ensures AtHome(b.tree, b.path, c)
  {
    DirAtStat(a.tree, Home(a.path), c);
    DirAtStat(b.tree, Home(a.path), c);
  }

  lemma HomeDespiteMove(a: Moment, b: Moment, sk: seq<Name>, tk: seq<Name>, c: nat)
    requires AtHome(a.tree, a.path, c) && Moved(a.tree, b.tree, sk, tk) && b.path == a.path
    requires Stat(a.tree, sk).IsFile? && Stat(a.tree, tk).Absent?
    ensures AtHome(b.tree, b.path, c)
  {
    DirAtStat(a.tree, Home(a.path), c);
    DirAtStat(b.tree, Home(a.path), c);
  }

  // ---------- carrying operations out ----------

  /** A name that a slot can hold. */
  predicate IsGoodName(s: Str) {
    s != [] && s[0] != DELETED
  }

  predicate EndsWell(cwd: Str, path: Str) {
    Resolved(cwd, path) != [] ==> IsGoodName(Last(Resolved(cwd, path)))
  }

  lemma EndsStorable(cwd: Str, path: Str)
    requires EndsWell(cwd, path) && KeyOf(cwd, path) != []
    ensures IsStorable(Last(KeyOf(cwd, path)))
  {
    KeySplit(Resolved(cwd, path));
    FmtStorable(Last(Resolved(cwd, path)));
  }

  /** The paths fit the driver's buffers, and new names can be stored. */
  predicate IsAdmissible(cwd: Str, op: Op) {
    match op
    case NewFile(name) => IsGoodName(name)
    case NewDir(name) => IsGoodName(name)
    case NewPath(path) => FitsBuffers(cwd, path)
    case Write(path, data) => FitsBuffers(cwd, path) && EndsWell(cwd, path) && |data| < 0x1_0000_0000
    case Append(path, data) => FitsBuffers(cwd, path) && EndsWell(cwd, path)
    case Copy(src, dst) => FitsBuffers(cwd, src) && FitsBuffers(cwd, dst) && EndsWell(cwd, dst)
                           && FitsBuffers(cwd, Destination(cwd, src, dst, true))
    case Move(src, dst) => FitsBuffers(cwd, src) && FitsBuffers(cwd, dst) && EndsWell(cwd, dst)
                           && FitsBuffers(cwd, Normalized(cwd, dst)) && |Destination(cwd, src, dst, true)| <= PATH_MAX
    case DeleteFile(name) => true
    case DeleteDir(name) => true
    case DeleteAll(path) => FitsBuffers(cwd, path)
    case Cd(path) => FitsBuffers(cwd, path)
  }

  ghost predicate Good(v: Volume)
    reads v
  {
    Valid(v) && AtHome(v.tree, v.currentPath, v.currentDirCluster)
  }

  // ---------- where runs start ----------

  /** A mounted volume whose root directory is zeroed and whose clusters are all free is valid, and empty. */
  lemma FreshVolume(v: Volume)
    requires v.Mounted() && v.tree == Dir([], seq(16 * |v.Vol().root|, _ => Hole))
    requires forall s :: 0 <= s < |v.Vol().root| ==> v.Vol().root[s] == Zeros(512)
    requires forall c :: v.Vol().IsCluster(c) ==> v.Vol().fat[c] == 0
    requires v.currentPath == ROOT && v.currentDirCluster == 0
    ensures Good(v) && forall q :: q != [] ==> Stat(v.tree, q).Absent?
    ensures |v.Vol().root| > 0 ==> HasRoom(v.Vol(), v.tree)
  {
    hide View, Represents, Balanced;
    FreshTree(v.Vol(), v.tree);
    PartsRender([]);
    assert Keys([]) == [];
  }

  lemma FreshTree(vol: Vol, t: Node)
    requires vol.WellFormed() && t == Dir([], seq(16 * |vol.root|, _ => Hole))
    requires forall s :: 0 <= s < |vol.root| ==> vol.root[s] == Zeros(512)
    requires forall c :: vol.IsCluster(c) ==> vol.fat[c] == 0
    ensures Represents(vol, t) && Balanced(vol, t) && forall q :: q != [] ==> Stat(t, q).Absent?
    ensures |vol.root| > 0 ==> HasRoom(vol, t)
  {
    forall k: nat | k < |t.kids| ensures IsEnd(SlotAt(vol.root, k)) {
      assert SlotIn(Zeros(512), k % 16)[0] == 0;
    }
    NoKidsNoClusters(t.kids);
    forall q: seq<Name> | q != [] ensures Stat(t, q).Absent? {
      StatBelow(t, q);
    }
  }

  /** write_file in any of its forms, when the name can be stored. */
  lemma WriteEnds(a: Moment, b: Moment, key: seq<Name>, data: seq<Byte>, ok: bool)
    requires Sound(a) && WriteOutcome(a.vol, b.vol, a.tree, b.tree, key, data, ok) && b.path == a.path
    requires key != [] ==> IsStorable(Last(key))
    ensures ok <==> WriteGoes(a, key, |data|)
    ensures ok ==> Sound(b) && !Stat(a.tree, key).IsDir? && HoldsNow(a.tree, b.tree, key, data)
    ensures !ok && !WriteStarts(a, key) ==> b == a
  {
    hide Represents, Balanced, IsStorable, SetTo;
    assert key != [] ==> Front(key) + [Last(key)] == key;
  }

  lemma AppendEnds(a: Moment, b: Moment, key: seq<Name>, data: seq<Byte>, ok: bool)
    requires Sound(a) && key != [] && b.path == a.path && IsStorable(Last(key))
    requires Appended(a.vol, b.vol, a.tree, b.tree, Front(key), Last(key), data, ok)
    ensures ok <==> AppendFits(a.vol, a.tree, Front(key), Last(key), |data|)
    ensures ok ==>
              && Sound(b) && !Stat(a.tree, key).IsDir?
              && HoldsNow(a.tree, b.tree, key, OldBytes(Stat(a.tree, key)) + data)
    ensures !ok && !WriteStarts(a, key) ==> b == a
  {
    hide Represents, Balanced, IsStorable, SetTo;
    assert Front(key) + [Last(key)] == key;
  }

  method ExecuteWrite(v: Volume, path: Str, data: seq<Byte>) returns (ok: bool)
    requires Valid(v) && IsAdmissible(v.currentPath, Write(path, data))
    modifies v`disk, v`tree
    ensures v.Mounted() && Outcome(Write(path, data), old(Now(v)), Now(v), ok)
  {
    hide View, Represents, Balanced, Bpb.Good, Mirrored, KeyOf, FitsBuffers, EndsWell, WriteOutcome, Stat, HoldsNow,
      WriteGoes, WriteStarts, IsStorable, Resolved;
    ghost var a, key := Now(v), KeyOf(v.currentPath, path);
    if key != [] {
      EndsStorable(v.currentPath, path);
    }
    ok := WriteFile(v, path, data);
    if path != [] {
      WriteEnds(a, Now(v), key, data, ok);
    }
  }

  method ExecuteAppend(v: Volume, path: Str, data: seq<Byte>) returns (ok: bool)
    requires Valid(v) && IsAdmissible(v.currentPath, Append(path, data))
    modifies v`disk, v`tree
    ensures v.Mounted() && Outcome(Append(path, data), old(Now(v)), Now(v), ok)
  {
    hide View, Represents, Balanced, Bpb.Good, Mirrored, KeyOf, FitsBuffers, EndsWell, Appended, Stat, HoldsNow,
      WriteStarts, IsStorable, AppendFits, Resolved;
    ghost var a, key := Now(v), KeyOf(v.currentPath, path);
    if key != [] {
      EndsStorable(v.currentPath, path);
    } else {
      NothingToWrite(a);
    }
    var exists_, size := FileSize(v, path);
    if path == [] || (if exists_ then size as nat else 0) + |data| >= 0x1_0000_0000 {
      return false;
    }
    ok := AppendFile(v, path, data);
    if key != [] {
      AppendEnds(a, Now(v), key, data, ok);
    }
  }

  lemma NothingToWrite(m: Moment)
    ensures !WriteStarts(m, [])
  {
  }

  method ExecuteCopy(v: Volume, src: Str, dst: Str) returns (ok: bool)
    requires Valid(v) && IsAdmissible(v.currentPath, Copy(src, dst))
    modifies v`disk, v`tree
    ensures v.Mounted() && Outcome(Copy(src, dst), old(Now(v)), Now(v), ok)
  {
    hide View, Represents, Balanced, Bpb.Good, Mirrored, KeyOf, FitsBuffers, EndsWell, WriteOutcome, Stat, HoldsNow,
      TargetKey, Resolved, WriteGoes, WriteStarts, IsStorable;
    ghost var a, cwd := Now(v), v.currentPath;
    ghost var sk := KeyOf(cwd, src);
    ghost var tk := TargetKey(a.tree, sk, KeyOf(cwd, dst));
    DestinationFits(cwd, src, dst);
    ok := Cp(v, src, dst);
    if CopyStarts(a, src, dst) {
      if tk != [] {
        TargetStorable(a.vol, a.tree, cwd, src, dst);
      }
      WriteEnds(a, Now(v), tk, Stat(a.tree, sk).bytes, ok);
    }
  }

  lemma DestinationFits(cwd: Str, src: Str, dst: Str)
    ensures forall into :: Destination(cwd, src, dst, into) == dst
                           || Destination(cwd, src, dst, into) == Destination(cwd, src, dst, true)
  {
  }

  /** The copy's name is that of the destination, or that of the source, which is in the tree already. */
  lemma TargetStorable(vol: Vol, t: Node, cwd: Str, src: Str, dst: Str)
    requires vol.WellFormed() && Represents(vol, t) && EndsWell(cwd, dst) && Stat(t, KeyOf(cwd, src)).IsFile?
    requires TargetKey(t, KeyOf(cwd, src), KeyOf(cwd, dst)) != []
    ensures IsStorable(Last(TargetKey(t, KeyOf(cwd, src), KeyOf(cwd, dst))))
  {
    hide IsStorable, KeyOf, EndsWell, Represents, Stat;
    var sk, dk := KeyOf(cwd, src), KeyOf(cwd, dst);
    if Stat(t, dk).IsDir? && sk != [] {
      KeyStorable(vol, t, cwd, src);
      assert Last(dk + [Last(sk)]) == Last(sk);
    } else {
      EndsStorable(cwd, dst);
    }
  }

  method ExecuteMove(v: Volume, src: Str, dst: Str) returns (ok: bool)
    requires Valid(v) && IsAdmissible(v.currentPath, Move(src, dst))
    modifies v`disk, v`tree
    ensures v.Mounted() && Outcome(Move(src, dst), old(Now(v)), Now(v), ok)
  {
    hide View, Represents, Balanced, Bpb.Good, Mirrored, KeyOf, FitsBuffers, EndsWell, MoveOutcome, Stat, TargetKey,
      Resolved, Normalized, Moved, CanInsert, IsStorable;
    ghost var a, cwd := Now(v), v.currentPath;
    ghost var sk := KeyOf(cwd, src);
    ghost var tk := TargetKey(a.tree, sk, KeyOf(cwd, dst));
    DestinationFits(cwd, src, dst);
    DestinationShort(cwd, dst);
    ok := Mv(v, src, dst);
    MoveTarget(a, Now(v), sk, tk, ok);
    if ok {
      TargetStorable(a.vol, a.tree, cwd, src, dst);
      MoveDid(a.vol, v.Vol(), a.tree, v.tree, sk, tk);
    }
  }

  lemma DestinationShort(cwd: Str, dst: Str)
    requires FitsBuffers(cwd, dst)
    ensures |dst| <= PATH_MAX
  {
  }

  lemma MoveTarget(a: Moment, b: Moment, sk: seq<Name>, tk: seq<Name>, ok: bool)
    requires MoveOutcome(a.vol, b.vol, a.tree, b.tree, sk, tk, ok) && b.path == a.path
    ensures ok <==> Stat(a.tree, sk).IsFile? && tk != [] && CanInsert(a.vol, a.tree, Front(tk), Last(tk))
    ensures !ok ==> b == a
  {
  }

  lemma MoveDid(vol: Vol, vol': Vol, t: Node, t': Node, sk: seq<Name>, tk: seq<Name>)
    requires MoveOutcome(vol, vol', t, t', sk, tk, true) && tk != [] && IsStorable(Last(tk))
    ensures vol'.WellFormed() && Represents(vol', t') && Balanced(vol', t')
    ensures Stat(t, sk).IsFile? && Stat(t, tk).Absent? && Moved(t, t', sk, tk)
  {
    hide Represents, Balanced, IsStorable, Moved;
    InsertParent(vol, t, tk);
  }

  /** The operations on the current directory. */
  method ExecuteHere(v: Volume, op: Op) returns (ok: bool)
    requires Good(v) && IsAdmissible(v.currentPath, op)
             && (op.NewFile? || op.NewDir? || op.DeleteFile? || op.DeleteDir?)
    modifies v`disk, v`tree
    ensures v.Mounted() && Outcome(op, old(Now(v)), Now(v), ok)
  {
    hide View, Represents, Balanced, Bpb.Good, Mirrored, Stat, SetTo, Removed, Home, Fmt, CanInsert, MkdirOutcome,
      IsStorable, Get, DirIn, IsEmptyDir, HoldsNow;
    ghost var a, at := Now(v), Home(v.currentPath);
    FmtStorable(op.name);
    StatKinds(a.tree, at + [Fmt(op.name)]);
    match op
    case NewFile(name) =>
      ok := Touch(v, name, at);
      if ok {
        InsertedHere(a.vol, a.tree, at, Fmt(name));
        EmptyNow(a.tree, v.tree, at + [Fmt(name)]);
      }
    case NewDir(name) =>
      ok := Mkdir(v, name, at);
      MkdirEnded(a, Now(v), at, Fmt(name), ok);
    case DeleteFile(name) =>
      var r := Rm(v, name, at);
      ok := r == 1;
    case DeleteDir(name) =>
      var r := Rmdir(v, name, at);
      ok := r == 1;
  }

  lemma InsertedHere(vol: Vol, t: Node, at: seq<Name>, name: Name)
    requires CanInsert(vol, t, at, name)
    ensures Stat(t, at + [name]).Absent?
  {
  }

  lemma EmptyNow(t: Node, t': Node, key: seq<Name>)
    requires SetTo(t, t', key, IsFile([], []))
    ensures HoldsNow(t, t', key, [])
  {
  }

  lemma MkdirEnded(a: Moment, b: Moment, at: seq<Name>, name: Name, ok: bool)
    requires MkdirOutcome(a.vol, b.vol, a.tree, b.tree, at, name, ok) && IsStorable(name) && b.path == a.path
    ensures ok <==> CanInsert(a.vol, a.tree, at, name) && FreeClusters(a.vol) != {}
    ensures var key := at + [name];
            && (ok ==>
                  && Sound(b) && Stat(a.tree, key).Absent? && Stat(b.tree, key).IsDir?
                  && SetTo(a.tree, b.tree, key, Stat(b.tree, key)))
            && (!ok && !(Stat(a.tree, key).Absent? && FreeClusters(a.vol) != {}) ==> b == a)
  {
    hide Represents, Balanced, IsStorable, FreeClusters, HasRoom;
  }

  lemma StatKinds(t: Node, key: seq<Name>)
    ensures Stat(t, key).IsDir? <==> Get(t, key).Some? && Get(t, key).value.Dir?
    ensures Stat(t, key).IsFile? <==> Get(t, key).Some? && Get(t, key).value.File?
  {
  }

  method ExecutePath(v: Volume, path: Str) returns (ok: bool)
    requires Valid(v) && FitsBuffers(v.currentPath, path)
    modifies v`disk, v`tree, v`currentDirCluster
    ensures v.currentDirCluster == old(v.currentDirCluster)
    ensures v.Mounted() && Outcome(NewPath(path), old(Now(v)), Now(v), ok)
  {
    hide View, Represents, Balanced, Bpb.Good, Mirrored, KeyOf, FitsBuffers, CanMake, LosesCluster, DirsAdded, DirIn;
    ghost var vol, t := v.Vol(), v.tree;
    ok := MkdirP(v, path);
    if ok {
      MakesOrLoses(vol, t, [], KeyOf(v.currentPath, path));
    }
  }

  /** What can be made loses no cluster. */
  lemma {:induction false} MakesOrLoses(vol: Vol, t: Node, at: seq<Name>, rest: seq<Name>)
    requires vol.WellFormed() && CanMake(vol, t, at, rest)
    ensures !LosesCluster(vol, t, at, rest)
    decreases |rest|
  {
    if rest != [] && Stat(t, at + [rest[0]]).IsDir? {
      MakesOrLoses(vol, t, at + [rest[0]], rest[1..]);
    }
  }

  method ExecuteDeleteAll(v: Volume, path: Str) returns (ok: bool)
    requires Valid(v) && FitsBuffers(v.currentPath, path)
    modifies v`disk, v`tree
    ensures v.Mounted() && Outcome(DeleteAll(path), old(Now(v)), Now(v), ok)
  {
    hide View, Represents, Balanced, Bpb.Good, Mirrored, KeyOf, FitsBuffers, Removed, Get, Stat;
    StatKinds(v.tree, KeyOf(v.currentPath, path));
    ok := RmRf(v, path);
  }

  method ExecuteCd(v: Volume, path: Str) returns (ok: bool)
    requires Valid(v) && FitsBuffers(v.currentPath, path)
    modifies v`currentDirCluster, v`currentPath
    ensures v.Mounted() && Outcome(Cd(path), old(Now(v)), Now(v), ok)
    ensures if ok then AtHome(v.tree, v.currentPath, v.currentDirCluster)
            else v.currentDirCluster == old(v.currentDirCluster)
  {
    hide View, Represents, Balanced, Bpb.Good, Mirrored, Stat, KeyOf, FitsBuffers, Normalized, AtHome, DirIn;
    ok := CdPath(v, path);
  }

  /** Carries out one operation: it succeeds exactly under its condition. Then the disk again holds a tree whose chains
      account for every cluster in use, and the paths look up as the operation says. If it fails, but not halfway,
      everything is as before. */
  method Execute(v: Volume, op: Op) returns (ok: bool)
    requires Good(v)
    modifies v`disk, v`tree, v`currentDirCluster, v`currentPath
    ensures ok <==> IsAdmissible(old(v.currentPath), op) && Succeeds(op, old(Now(v)))
    ensures ok ==> Valid(v) && Did(op, old(Now(v)), Now(v)) && (SparesHome(op, old(Now(v))) ==> Good(v))
    ensures !ok && !(IsAdmissible(old(v.currentPath), op) && FailsHalfway(op, old(Now(v)))) ==>
              Good(v) && Stays(op, old(Now(v)), Now(v))
  {
    hide View, Represents, Balanced, Bpb.Good, Mirrored, Stat, AtHome, Did, Stays, Succeeds, FailsHalfway, IsAdmissible,
      SparesHome, FitsBuffers;
    ghost var a, c := Now(v), v.currentDirCluster;
    NothingDone(op, a);
    if !IsAdmissible(v.currentPath, op) {
      return false;
    }
    AdmissiblePath(v.currentPath, op);
    match op {
      case NewFile(_) => ok := ExecuteHere(v, op);
      case NewDir(_) => ok := ExecuteHere(v, op);
      case DeleteFile(_) => ok := ExecuteHere(v, op);
      case DeleteDir(_) => ok := ExecuteHere(v, op);
      case NewPath(path) => ok := ExecutePath(v, path);
      case Write(path, data) => ok := ExecuteWrite(v, path, data);
      case Append(path, data) => ok := ExecuteAppend(v, path, data);
      case Copy(src, dst) => ok := ExecuteCopy(v, src, dst);
      case Move(src, dst) => ok := ExecuteMove(v, src, dst);
      case DeleteAll(path) => ok := ExecuteDeleteAll(v, path);
      case Cd(path) => ok := ExecuteCd(v, path);
    }
    if op.Cd? {
      CdSpares(op, a, Now(v), ok, c, v.currentDirCluster);
    } else {
      HomeEnds(op, a, Now(v), ok, c);
    }
  }

  lemma NothingDone(op: Op, m: Moment)
    ensures Stays(op, m, m)
  {
    if op.NewPath? {
      AddedNone(m.tree, KeyOf(m.path, op.path));
    }
  }

  lemma AdmissiblePath(cwd: Str, op: Op)
    requires IsAdmissible(cwd, op)
    ensures op.NewPath? || op.DeleteAll? || op.Cd? ==> FitsBuffers(cwd, op.path)
  {
  }

  lemma CdSpares(op: Op, a: Moment, b: Moment, ok: bool, c: nat, c': nat)
    requires op.Cd? && a.vol.WellFormed() && Outcome(op, a, b, ok) && AtHome(a.tree, a.path, c)
    requires if ok then AtHome(b.tree, b.path, c') else c' == c
    ensures SparesHome(op, a) && !FailsHalfway(op, a) && AtHome(b.tree, b.path, c')
  {
    hide AtHome, Represents, Balanced, DirIn, KeyOf, Normalized;
  }

  lemma HomeEnds(op: Op, a: Moment, b: Moment, ok: bool, c: nat)
    requires !op.Cd? && a.vol.WellFormed() && Outcome(op, a, b, ok) && AtHome(a.tree, a.path, c)
    ensures ok && SparesHome(op, a) ==> AtHome(b.tree, b.path, c)
    ensures !ok && !FailsHalfway(op, a) ==> AtHome(b.tree, b.path, c)
  {
    hide AtHome, Represents, Balanced, Did, SparesHome, Succeeds, FailsHalfway, DirsAdded, KeyOf;
    if ok && SparesHome(op, a) {
      HomeAfter(op, a, b, c);
    }
    if !ok && !FailsHalfway(op, a) && op.NewPath? {
      HomeAmongMore(a, b, KeyOf(a.path, op.path), c);
    }
  }

  /** The moments of a run of successful operations, each the result of the one before. */
  ghost predicate IsRun(ops: seq<Op>, trace: seq<Moment>) {
    |trace| == |ops| + 1 && forall i :: 0 <= i < |ops| ==> IsStep(ops[i], trace[i], trace[i + 1])
  }

  ghost predicate IsStep(op: Op, a: Moment, b: Moment) {
    a.vol.WellFormed() && IsAdmissible(a.path, op) && Succeeds(op, a) && Did(op, a, b)
  }

  /** Why a run ends before an operation: it would delete the current directory, or it does not succeed. */
  ghost predicate Stops(v: Volume, op: Op, a: Moment)
    reads v
  {
    && a.vol.WellFormed()
    && if !SparesHome(op, a) then Good(v) && Now(v) == a
       else
         && !(IsAdmissible(a.path, op) && Succeeds(op, a))
         && (!(IsAdmissible(a.path, op) && FailsHalfway(op, a)) ==> Good(v) && Stays(op, a, Now(v)))
  }

  /** Carries out operations one after the other until one does not succeed or would delete the current directory.
      Whatever they are, the volume stays valid and the current directory agrees with its path; unless the run ended
      halfway through an operation, it can go on from there. */
  method Run(v: Volume, ops: seq<Op>) returns (n: nat, ghost trace: seq<Moment>)
    requires Good(v)
    modifies v`disk, v`tree, v`currentDirCluster, v`currentPath
    ensures n <= |ops| && IsRun(ops[..n], trace) && trace[0] == old(Now(v))
    ensures n == |ops| ==> Good(v) && trace[n] == Now(v)
    ensures n < |ops| ==> Stops(v, ops[n], trace[n])
  {
    hide View, Volume.Mounted, Good, Valid, Did, SparesHome, Succeeds, FailsHalfway, IsAdmissible, Stays;
    GoodNow(v);
    n, trace := 0, [Now(v)];
    while n < |ops|
      invariant n <= |ops| && IsRun(ops[..n], trace) && trace[0] == old(Now(v))
      invariant Good(v) && v.Mounted() && trace[n] == Now(v)
    {
      GoodNow(v);
      var lost := WouldLoseHome(v, ops[n]);
      if lost {
        return;
      }
      var ok := Execute(v, ops[n]);
      if !ok {
        return;
      }
      GoodNow(v);
      trace := trace + [Now(v)];
      n := n + 1;
    }
    assert ops[..n] == ops;
  }

  lemma GoodNow(v: Volume)
    requires Good(v)
    ensures v.Mounted() && Now(v).vol.WellFormed()
  {
  }

  method WouldLoseHome(v: Volume, op: Op) returns (r: bool)
    requires v.Mounted()
    ensures r <==> !SparesHome(op, Now(v))
  {
    r := op.DeleteAll? && KeyOf(v.currentPath, op.path) <= Home(v.currentPath);
  }
}
