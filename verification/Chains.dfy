/** Cluster chains in the FAT, read as a linked structure of 16-bit words. */
module Chains {
  import opened Bytes
  import opened Layout

  const END_OF_CHAIN: Word := 0xFFFF
  const FIRST_END_MARK := 0xFFF8

  /** The first cluster of a chain as a directory slot stores it: 0 for no chain. */
  function Head(ch: seq<nat>): nat {
    if ch == [] then 0 else ch[0]
  }

  /** ch lists the clusters of a chain: in range, each linked to the next, the last holding an end mark. */
  ghost predicate IsChain(vol: Vol, ch: seq<nat>)
    requires vol.WellFormed()
  {
    && |ch| > 0
    && (forall i :: 0 <= i < |ch| ==> vol.IsCluster(ch[i]))
    && (forall i :: 0 <= i < |ch| - 1 ==> vol.fat[ch[i]] == ch[i + 1])
    && vol.fat[ch[|ch| - 1]] >= FIRST_END_MARK
  }

  lemma ChainWord(vol: Vol, ch: seq<nat>, i: nat)
    requires vol.WellFormed() && IsChain(vol, ch) && i < |ch|
    ensures i + 1 < |ch| <==> vol.fat[ch[i]] < FIRST_END_MARK
    ensures i + 1 < |ch| ==> vol.fat[ch[i]] == ch[i + 1]
  {
    if i + 1 < |ch| {
      assert vol.IsCluster(ch[i + 1]);
    }
  }

  lemma {:induction false} SameSuffix(vol: Vol, ch1: seq<nat>, i: nat, ch2: seq<nat>, j: nat)
    requires vol.WellFormed() && IsChain(vol, ch1) && IsChain(vol, ch2)
    requires i < |ch1| && j < |ch2| && ch1[i] == ch2[j]
    ensures ch1[i..] == ch2[j..]
    decreases |ch1| - i
  {
    if i + 1 < |ch1| && j + 1 < |ch2| {
      SameSuffix(vol, ch1, i + 1, ch2, j + 1);
      assert ch1[i..] == [ch1[i]] + ch1[i + 1..];
      assert ch2[j..] == [ch2[j]] + ch2[j + 1..];
    } else {
      ChainWord(vol, ch1, i);
      ChainWord(vol, ch2, j);
    }
  }

  /** A chain never visits a cluster twice, and its first cluster determines it. */
  lemma ChainAcyclic(vol: Vol, ch: seq<nat>)
    requires vol.WellFormed() && IsChain(vol, ch)
    ensures forall i, j :: 0 <= i < j < |ch| ==> ch[i] != ch[j]
  {
    forall i, j | 0 <= i < j < |ch| ensures ch[i] != ch[j] {
      if ch[i] == ch[j] {
        SameSuffix(vol, ch, i, ch, j);
        assert false;
      }
    }
  }

  lemma ChainUnique(vol: Vol, ch1: seq<nat>, ch2: seq<nat>)
    requires vol.WellFormed() && IsChain(vol, ch1) && IsChain(vol, ch2) && ch1[0] == ch2[0]
    ensures ch1 == ch2
  {
    SameSuffix(vol, ch1, 0, ch2, 0);
    assert ch1[0..] == ch1 && ch2[0..] == ch2;
  }

  lemma ChainFrame(vol: Vol, vol': Vol, ch: seq<nat>)
    requires vol.WellFormed() && vol'.WellFormed() && IsChain(vol, ch) && |vol'.data| == |vol.data|
    requires forall c :: c in ch ==> vol'.fat[c] == vol.fat[c]
    ensures IsChain(vol', ch)
  {
  }

  // ---------- chains of any FAT, even a cyclic one ----------

  /** A word that the driver follows: neither free, reserved nor an end mark. */
  predicate IsLink(w: nat) {
    2 <= w < FIRST_END_MARK
  }

  /** Every word that would be followed from `start` stays inside the FAT. */
  ghost predicate LinksInside(fat: seq<Word>, start: nat) {
    && (IsLink(start) ==> start < |fat|)
    && forall c :: 0 <= c < |fat| && Reaches(fat, start, c) && IsLink(fat[c]) ==> fat[c] < |fat|
  }

  ghost predicate IsPath(fat: seq<Word>, p: seq<nat>) {
    && |p| > 0
    && (forall i :: 0 <= i < |p| ==> p[i] < |fat| && IsLink(p[i]))
    && (forall i :: 0 <= i < |p| - 1 ==> fat[p[i]] == p[i + 1])
  }

  /** c can be reached from start by following links. */
  ghost predicate Reaches(fat: seq<Word>, start: nat, c: nat) {
    exists p :: IsPath(fat, p) && p[0] == start && p[|p| - 1] == c
  }

  /** The FAT with every word in cs zeroed. */
  function Zeroed(fat: seq<Word>, cs: set<nat>): (r: seq<Word>)
    ensures |r| == |fat|
  {
    seq(|fat|, c requires 0 <= c < |fat| => if c in cs then 0 else fat[c])
  }

  lemma NothingZeroed(fat: seq<Word>)
    ensures Zeroed(fat, {}) == fat
  {
  }

  lemma ZeroedWord(fat: seq<Word>, z: set<nat>, c: nat)
    requires c < |fat|
    ensures Zeroed(fat, z)[c] == if c in z then 0 else fat[c]
    ensures Zeroed(fat, z)[c := 0] == Zeroed(fat, z + {c})
  {
  }

  /** The clusters that freeing from `start` zeroes: those reachable from it. */
  ghost function Reachable(fat: seq<Word>, start: nat): set<nat> {
    set c | 0 <= c < |fat| && Reaches(fat, start, c)
  }

  function Elems(ch: seq<nat>): set<nat> {
    set c | c in ch
  }

  /** A chain is exactly what its first cluster reaches. */
  lemma ChainReachable(vol: Vol, ch: seq<nat>)
    requires vol.WellFormed() && IsChain(vol, ch)
    ensures Reachable(vol.fat, ch[0]) == Elems(ch)
  {
    forall c | c in ch ensures Reaches(vol.fat, ch[0], c) {
      var i :| 0 <= i < |ch| && ch[i] == c;
      assert IsPath(vol.fat, ch[..i + 1]);
    }
    forall c | c in Reachable(vol.fat, ch[0]) ensures c in ch {
      var p :| IsPath(vol.fat, p) && p[0] == ch[0] && p[|p| - 1] == c;
      PathInChain(vol, ch, p, |p| - 1);
    }
  }

  lemma ChainLinksInside(vol: Vol, ch: seq<nat>)
    requires vol.WellFormed() && IsChain(vol, ch)
    ensures LinksInside(vol.fat, ch[0])
  {
    assert vol.IsCluster(ch[0]);
    forall c | 0 <= c < |vol.fat| && Reaches(vol.fat, ch[0], c) && IsLink(vol.fat[c])
      ensures vol.fat[c] < |vol.fat|
    {
      var p :| IsPath(vol.fat, p) && p[0] == ch[0] && p[|p| - 1] == c;
      PathInChain(vol, ch, p, |p| - 1);
      ChainWord(vol, ch, |p| - 1);
      assert |p| < |ch| ==> vol.IsCluster(ch[|p|]);
    }
  }

  lemma {:induction false} PathInChain(vol: Vol, ch: seq<nat>, p: seq<nat>, i: nat)
    requires vol.WellFormed() && IsChain(vol, ch) && IsPath(vol.fat, p) && p[0] == ch[0] && i < |p|
    ensures i < |ch| && p[i] == ch[i]
  {
    if i > 0 {
      PathInChain(vol, ch, p, i - 1);
      assert vol.fat[p[i - 1]] == p[i];
    }
  }

  lemma ReachableHas(fat: seq<Word>, start: nat, c: nat)
    requires c < |fat| && Reaches(fat, start, c)
    ensures c in Reachable(fat, start)
  {
  }

  lemma ReachesStart(fat: seq<Word>, start: nat)
    requires start < |fat| && IsLink(start)
    ensures Reaches(fat, start, start)
  {
    assert IsPath(fat, [start]);
  }

  lemma ReachesNext(fat: seq<Word>, start: nat, c: nat)
    requires c < |fat| && Reaches(fat, start, c) && fat[c] < |fat| && IsLink(fat[c])
    ensures Reaches(fat, start, fat[c])
  {
    var p :| IsPath(fat, p) && p[0] == start && p[|p| - 1] == c;
    assert IsPath(fat, p + [fat[c] as nat]);
  }

  /** A set that holds the start and is closed under links holds everything reachable. */
  lemma ReachableLeast(fat: seq<Word>, start: nat, z: set<nat>)
    requires IsLink(start) ==> start in z
    requires forall c :: c in z && c < |fat| && IsLink(fat[c]) ==> fat[c] in z
    ensures Reachable(fat, start) <= z
  {
    forall c | c in Reachable(fat, start) ensures c in z {
      var p :| IsPath(fat, p) && p[0] == start && p[|p| - 1] == c;
      PathInClosed(fat, p, z, |p| - 1);
    }
  }

  lemma {:induction false} PathInClosed(fat: seq<Word>, p: seq<nat>, z: set<nat>, i: nat)
    requires IsPath(fat, p) && i < |p| && p[0] in z
    requires forall c :: c in z && c < |fat| && IsLink(fat[c]) ==> fat[c] in z
    ensures p[i] in z
  {
    if i > 0 {
      PathInClosed(fat, p, z, i - 1);
      assert fat[p[i - 1]] == p[i];
    }
  }
}
