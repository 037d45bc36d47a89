/** The sectors of a cluster chain laid end to end, and the bytes of a file they hold. */
module Content {
  import opened Bytes
  import opened Layout

  function Last<T>(s: seq<T>): T
    requires |s| > 0
  {
    s[|s| - 1]
  }

  function Front<T>(s: seq<T>): seq<T>
    requires |s| > 0
  {
    s[..|s| - 1]
  }

  predicate InData(data: seq<seq<Sector>>, ch: seq<nat>) {
    forall i :: 0 <= i < |ch| ==> ch[i] < |data|
  }

  /** The sectors of the clusters of ch, in order. */
  function Cat(data: seq<seq<Sector>>, ch: seq<nat>): (r: seq<Sector>)
    requires InData(data, ch)
    ensures ch == [] ==> r == []
  {
    if ch == [] then [] else Cat(data, Front(ch)) + data[Last(ch)]
  }

  lemma {:induction false} CatPrefix(data: seq<seq<Sector>>, ch: seq<nat>, i: nat)
    requires InData(data, ch) && i <= |ch|
    ensures Cat(data, ch[..i]) <= Cat(data, ch)
  {
    if i < |ch| {
      CatPrefix(data, Front(ch), i);
      assert Front(ch)[..i] == ch[..i];
    } else {
      assert ch[..i] == ch;
    }
  }

  /** The sectors of the i-th cluster start where those of the clusters before it end. */
  lemma CatCluster(data: seq<seq<Sector>>, ch: seq<nat>, i: nat)
    requires InData(data, ch) && i < |ch|
    ensures var at := |Cat(data, ch[..i])|;
            && at + |data[ch[i]]| <= |Cat(data, ch)|
            && |Cat(data, ch[..i + 1])| == at + |data[ch[i]]|
            && forall s :: 0 <= s < |data[ch[i]]| ==> Cat(data, ch)[at + s] == data[ch[i]][s]
  {
    CatPrefix(data, ch, i + 1);
    assert Front(ch[..i + 1]) == ch[..i];
  }

  lemma {:induction false} CatFrame(data: seq<seq<Sector>>, data': seq<seq<Sector>>, ch: seq<nat>)
    requires InData(data, ch) && |data'| == |data| && forall i :: 0 <= i < |ch| ==> data'[ch[i]] == data[ch[i]]
    ensures Cat(data', ch) == Cat(data, ch)
  {
    if ch != [] {
      CatFrame(data, data', Front(ch));
    }
  }

  lemma {:induction false} CatLength(vol: Vol, ch: seq<nat>)
    requires vol.WellFormed() && forall i :: 0 <= i < |ch| ==> vol.IsCluster(ch[i])
    ensures |Cat(vol.data, ch)| == |ch| * vol.spc
  {
    if ch != [] {
      CatLength(vol, Front(ch));
      assert vol.IsCluster(Last(ch));
      assert |ch| * vol.spc == (|ch| - 1) * vol.spc + vol.spc;
    }
  }

  /** Writing sector s of the last cluster. */
  lemma CatUpdateLast(data: seq<seq<Sector>>, ch: seq<nat>, s: nat, x: Sector)
    requires InData(data, ch) && ch != [] && s < |data[Last(ch)]| && Last(ch) !in Front(ch)
    ensures var at := |Cat(data, Front(ch))|;
            && at + s < |Cat(data, ch)|
            && Cat(SetSector(data, Last(ch), s, x), ch) == Cat(data, ch)[at + s := x]
  {
    CatFrame(data, SetSector(data, Last(ch), s, x), Front(ch));
    var front, last := Cat(data, Front(ch)), data[Last(ch)];
    assert SetSector(data, Last(ch), s, x)[Last(ch)] == last[s := x];
    hide SetSector;
    UpdateTail(front, last, s, x);
  }

  lemma UpdateTail(a: seq<Sector>, b: seq<Sector>, s: nat, x: Sector)
    requires s < |b|
    ensures a + b[s := x] == (a + b)[|a| + s := x]
  {
  }

  /** Writing sector s of the i-th cluster of a chain changes that sector of the chain and no other. */
  lemma {:induction false} CatUpdate(data: seq<seq<Sector>>, ch: seq<nat>, i: nat, s: nat, x: Sector)
    requires InData(data, ch) && i < |ch| && s < |data[ch[i]]|
    requires forall j, k :: 0 <= j < k < |ch| ==> ch[j] != ch[k]
    ensures var at := |Cat(data, ch[..i])|;
            && at + s < |Cat(data, ch)|
            && Cat(SetSector(data, ch[i], s, x), ch) == Cat(data, ch)[at + s := x]
  {
    if i == |ch| - 1 {
      assert Front(ch) == ch[..i];
      CatUpdateLast(data, ch, s, x);
    } else {
      var data' := SetSector(data, ch[i], s, x);
      assert data'[Last(ch)] == data[Last(ch)];
      assert Front(ch)[..i] == ch[..i];
      hide SetSector;
      CatUpdate(data, Front(ch), i, s, x);
    }
  }

  /** The bytes start at the beginning of the sectors. */
  ghost predicate Holds(secs: seq<Sector>, bytes: seq<Byte>) {
    && |bytes| <= 512 * |secs|
    && forall i :: 0 <= i < |bytes| ==> bytes[i] == secs[i / 512][i % 512]
  }

  /** The number of bytes that n clusters hold. */
  function Capacity(spc: nat, n: nat): nat {
    n * spc * 512
  }

  lemma CapacityStep(spc: nat, n: nat)
    ensures Capacity(spc, n + 1) == Capacity(spc, n) + spc * 512
    ensures Capacity(spc, 0) == 0
  {
    assert (n + 1) * spc == n * spc + spc;
  }

  lemma {:induction false} CapacityMono(spc: nat, m: nat, n: nat)
    requires m <= n
    ensures Capacity(spc, m) <= Capacity(spc, n)
  {
    MulMono(m, n, spc);
  }

  /** ceil(size / cluster size): the number of clusters that a file of `size` bytes needs. */
  function Need(spc: nat, size: nat): (n: nat)
    requires spc > 0
    ensures size <= Capacity(spc, n)
    ensures size == 0 <==> n == 0
    ensures n > 0 ==> Capacity(spc, n - 1) < size
  {
    var k := spc * 512;
    DivBound(size + k - 1, k);
    var n := (size + k - 1) / k;
    NeedBounds(spc, size, n);
    n
  }

  lemma NeedBounds(spc: nat, size: nat, n: nat)
    requires spc > 0
    requires var k := spc * 512; n * k <= size + k - 1 < n * k + k
    ensures size <= Capacity(spc, n)
    ensures size == 0 <==> n == 0
    ensures n > 0 ==> Capacity(spc, n - 1) < size
  {
    var k := spc * 512;
    assert Capacity(spc, n) == n * k;
    if n > 0 {
      CapacityStep(spc, n - 1);
      MulMono(1, n, k);
    }
  }

  lemma NeedIs(spc: nat, size: nat, n: nat)
    requires spc > 0 && size <= Capacity(spc, n) && (n > 0 ==> Capacity(spc, n - 1) < size)
    ensures Need(spc, size) == n
  {
    var m := Need(spc, size);
    if m < n {
      CapacityMono(spc, m, n - 1);
    } else if n < m {
      CapacityMono(spc, n, m - 1);
    }
  }

  lemma NeedMono(spc: nat, m: nat, n: nat)
    requires spc > 0 && m <= n
    ensures Need(spc, m) <= Need(spc, n)
  {
    var a, b := Need(spc, m), Need(spc, n);
    if b < a {
      CapacityMono(spc, b, a - 1);
    }
  }
}
