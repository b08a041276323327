/** File contents: copying bytes into a fresh chain and gathering them back. */
module FatData {
  import opened Basics
  import opened FatBytes
  import opened FatVolume
  import opened FatDevice
  import opened FatChains

  ghost predicate AllValid(g: Geometry, ch: seq<nat>) {
    forall c :: c in ch ==> ValidCluster(g, c)
  }

  /** The sectors of the clusters of `ch`, in order. */
  ghost function Flat(g: Geometry, l: Logical, ch: seq<nat>): (r: seq<Sector>)
    requires Shaped(g, l) && AllValid(g, ch)
  {
    if ch == [] then [] else assert ch[0] in ch; l.data[ch[0]] + Flat(g, l, ch[1..])
  }

  lemma {:induction false} FlatFrame(g: Geometry, l: Logical, l': Logical, ch: seq<nat>)
    requires Shaped(g, l) && Shaped(g, l') && AllValid(g, ch)
    requires forall c :: c in ch ==> l.data[c] == l'.data[c]
    ensures Flat(g, l, ch) == Flat(g, l', ch)
  {
    if ch != [] { FlatFrame(g, l, l', ch[1..]); }
  }

  lemma {:induction false} FlatSplit(g: Geometry, l: Logical, ch: seq<nat>, i: nat)
    requires Shaped(g, l) && AllValid(g, ch)
    requires i <= |ch|
    ensures Flat(g, l, ch) == Flat(g, l, ch[..i]) + Flat(g, l, ch[i..])
  {
    if i == 0 {
      assert ch[..0] == [] && ch[0..] == ch;
    } else {
      FlatSplit(g, l, ch[1..], i - 1);
      assert ch[1..][..i - 1] == ch[..i][1..] && ch[1..][i - 1..] == ch[i..];
    }
  }

  lemma {:induction false} FlatSize(g: Geometry, l: Logical, ch: seq<nat>)
    requires Shaped(g, l) && AllValid(g, ch)
    ensures |Flat(g, l, ch)| == |ch| * g.spc
  {
    if ch != [] {
      assert ch[0] in ch;
      FlatSize(g, l, ch[1..]);
      assert |ch| * g.spc == (|ch| - 1) * g.spc + g.spc;
    }
  }

  /** Extending the walked part of a chain by one whole cluster. */
  lemma FlatSnoc(g: Geometry, l: Logical, ch: seq<nat>, i: nat)
    requires Shaped(g, l) && AllValid(g, ch)
    requires i < |ch| && ValidCluster(g, ch[i])
    ensures Flat(g, l, ch[..i + 1]) == Flat(g, l, ch[..i]) + l.data[ch[i]]
  {
    FlatSplit(g, l, ch[..i + 1], i);
    assert ch[..i + 1][..i] == ch[..i] && ch[..i + 1][i..] == [ch[i]];
    assert Flat(g, l, [ch[i]]) == l.data[ch[i]] + Flat(g, l, []);
  }

  /** Only contents of clusters in `cs` may differ. */
  ghost predicate OnlyContents(g: Geometry, l0: Logical, l: Logical, cs: seq<nat>) {
    && Shaped(g, l0) && Shaped(g, l) && l.fat == l0.fat
    && forall c :: 0 <= c < |l.data| && c !in cs ==> l.data[c] == l0.data[c]
  }

  ghost predicate TrailContents(g: Geometry, l0: Logical, t0: seq<Logical>, t: seq<Logical>, cs: seq<nat>) {
    && |t0| <= |t| && t[..|t0|] == t0
    && forall i :: |t0| <= i < |t| ==> OnlyContents(g, l0, t[i], cs)
  }

  lemma TrailFreeContents(
    g: Geometry, l0: Logical, l1: Logical, t0: seq<Logical>, t1: seq<Logical>, t: seq<Logical>, cs: seq<nat>)
    requires TrailFree(g, l0, t0, t1) && OnlyFree(g, l0, l1) && TrailContents(g, l1, t1, t, cs)
    requires forall c :: c in cs ==> ValidCluster(g, c) && l0.fat[c] == 0
    ensures TrailFree(g, l0, t0, t)
  {
    assert t[..|t0|] == t[..|t1|][..|t0|];
    forall i | |t0| <= i < |t| ensures OnlyFree(g, l0, t[i]) {
      if i < |t1| { assert t[i] == t[..|t1|][i]; }
    }
  }

  /** Fills one cluster with the bytes of `data` from `written` on, sector by sector. */
  method WriteCluster(v: Volume, c: nat, data: seq<byte>, written: nat) returns (r: Result<nat>, ghost s: nat)
    requires v.Valid() && ValidCluster(v.g, c) && written < |data| && written % 512 == 0
    modifies v`disk, v`log, v`trail, v`faults, v`accesses
    ensures v.Valid() && v.faults >= old(v.faults)
    ensures r.Ok? <==> v.faults == old(v.faults)
    ensures r.Err? ==> r.error == Block
    ensures s <= v.g.spc
    ensures r.Ok? ==>
              && written < r.value <= |data|
              && (r.value < |data| ==> s == v.g.spc && r.value % 512 == 0)
              && Padded(data[..r.value]) == Padded(data[..written]) + v.log.data[c][..s]
    ensures OnlyContents(v.g, old(v.log), v.log, [c])
    ensures TrailContents(v.g, old(v.log), old(v.trail), v.trail, [c])
    ensures DiskStep(v.g, old(v.disk), v.disk, true)
  {
    hide LogOf, FatEnd, DataEnd, FirstSector, RawEntry, Kept, Mirrored, Padded;
    var g := v.g;
    ghost var l0, d0, t0 := v.log, v.disk, v.trail;
    DiskStepRefl(g, d0);
    s := 0;
    var i, done := 0, written;
    while i < g.spc && done < |data|
      invariant 0 <= i <= g.spc && s == i && v.Valid() && v.faults == old(v.faults)
      invariant OnlyContents(g, l0, v.log, [c]) && TrailContents(g, l0, t0, v.trail, [c])
      invariant DiskStep(g, d0, v.disk, true)
      invariant written <= done <= |data| && (done < |data| ==> done % 512 == 0) && (0 < i ==> written < done)
      invariant Padded(data[..done]) == Padded(data[..written]) + v.log.data[c][..i]
    {
      var take := Min(|data| - done, 512);
      var buf: Sector := data[done..done + take] + seq(512 - take, _ => 0);
      ghost var l1, d1 := v.log, v.disk;
      var w := v.WriteData(c, i, buf);
      DiskStepTrans(g, d0, d1, v.disk, true, true);
      if w.Err? {
        r := Err(Block);
        return;
      }
      PaddedStep(data, done);
      assert v.log.data[c][..i + 1] == l1.data[c][..i] + [buf];
      done, i, s := done + take, i + 1, s + 1;
    }
    r := Ok(done);
  }

  /** Copies `data` into the chain from `first`, zero-padding the last sector. */
  method WriteChain(v: Volume, first: nat, data: seq<byte>, ghost ch: seq<nat>) returns (r: Result<()>)
    requires v.Valid() && IsChain(v.g, v.log, ch) && ch[0] == first
    requires |data| <= |ch| * v.g.spc * 512
    modifies v`disk, v`log, v`trail, v`faults, v`accesses
    ensures v.Valid() && v.faults >= old(v.faults)
    ensures r.Ok? <==> v.faults == old(v.faults)
    ensures r.Err? ==> r.error == Block
    ensures OnlyContents(v.g, old(v.log), v.log, ch)
    ensures r.Ok? ==> TakeBytes(Flat(v.g, v.log, ch), |data|) == data
    ensures TrailContents(v.g, old(v.log), old(v.trail), v.trail, ch)
    ensures DiskStep(v.g, old(v.disk), v.disk, true)
  {
    hide LogOf, FatEnd, DataEnd, FirstSector, RawEntry, Kept, Mirrored, Padded, TakeBytes, Flat, DiskStep;
    var g := v.g;
    ghost var l0, d0, t0 := v.log, v.disk, v.trail;
    DiskStepRefl(g, d0);
    FlatNone(g, l0, ch);
    DistinctBound(ch, 2, 2 + g.count);
    var cluster: nat, written: nat, stepsLeft := first, 0, g.count;
    ghost var i := 0;
    PaddedLength(data[..0]);
    while written < |data| && ValidCluster(g, cluster) && stepsLeft > 0
      invariant 0 <= i <= |ch| && stepsLeft == g.count - i && v.Valid() && v.faults == old(v.faults)
      invariant if i < |ch| then cluster == ch[i] else cluster >= EOC_MIN
      invariant OnlyContents(g, l0, v.log, ch) && TrailContents(g, l0, t0, v.trail, ch)
      invariant DiskStep(g, d0, v.disk, true)
      invariant written <= |data|
      invariant written < |data| ==> written % 512 == 0 && Flat(g, v.log, ch[..i]) == Padded(data[..written])
      invariant written == |data| ==> Padded(data) <= Flat(g, v.log, ch)
      decreases stepsLeft
    {
      stepsLeft := stepsLeft - 1;
      ghost var l1, d1, t1 := v.log, v.disk, v.trail;
      var w, s := WriteCluster(v, cluster, data, written);
      DiskStepTrans(g, d0, d1, v.disk, true, true);
      TrailContentsOne(g, l0, l1, t0, t1, v.trail, ch, i);
      if w.Err? {
        return Err(Block);
      }
      written := w.value;
      FlatFrame(g, l1, v.log, ch[..i]);
      if written == |data| {
        ChainPrefix(g, v.log, ch, i, s, data);
      } else {
        assert v.log.data[cluster][..s] == v.log.data[cluster];
        FlatSnoc(g, v.log, ch, i);
      }
      var next :- v.NextCluster(cluster);
      cluster, i := next, i + 1;
    }
    if written < |data| { FullChain(g, v.log, ch, data, written, i); }
    ghost var flat := Flat(g, v.log, ch);
    assert flat == Padded(data) + flat[|Padded(data)|..];
    PaddedRoundTrip(data, flat[|Padded(data)|..]);
    r := Ok(());
  }

  lemma FlatNone(g: Geometry, l: Logical, ch: seq<nat>)
    requires Shaped(g, l)
    ensures Flat(g, l, ch[..0]) == []
  {
  }

  lemma TrailContentsOne(
    g: Geometry, l0: Logical, l1: Logical, t0: seq<Logical>, t1: seq<Logical>, t: seq<Logical>, cs: seq<nat>, i: nat)
    requires i < |cs|
    requires TrailContents(g, l0, t0, t1, cs) && OnlyContents(g, l0, l1, cs) && TrailContents(g, l1, t1, t, [cs[i]])
    ensures TrailContents(g, l0, t0, t, cs)
  {
    assert t[..|t0|] == t[..|t1|][..|t0|];
    forall k | |t0| <= k < |t| ensures OnlyContents(g, l0, t[k], cs) {
      if k < |t1| { assert t[k] == t[..|t1|][k]; }
    }
  }

  /** A chain long enough for `data` does not run out before the data does. */
  lemma FullChain(g: Geometry, l: Logical, ch: seq<nat>, data: seq<byte>, written: nat, i: nat)
    requires Shaped(g, l) && AllValid(g, ch) && i == |ch|
    requires |data| <= |ch| * g.spc * 512 && written <= |data| && written % 512 == 0
    requires Flat(g, l, ch[..i]) == Padded(data[..written])
    ensures |data| <= written
  {
    assert ch[..i] == ch;
    FlatSize(g, l, ch);
    PaddedLength(data[..written]);
  }

  lemma ChainPrefix(g: Geometry, l: Logical, ch: seq<nat>, i: nat, s: nat, data: seq<byte>)
    requires IsChain(g, l, ch) && Shaped(g, l) && i < |ch| && s <= g.spc
    requires Flat(g, l, ch[..i]) + l.data[ch[i]][..s] == Padded(data[..|data|])
    ensures Padded(data) <= Flat(g, l, ch)
  {
    assert data[..|data|] == data;
    FlatSplit(g, l, ch, i);
    assert Flat(g, l, ch[i..]) == l.data[ch[i]] + Flat(g, l, ch[i..][1..]);
  }

  /** The bytes a reader gathers from cluster `c` on when it still wants `n` of them. */
  ghost function ReadFrom(g: Geometry, l: Logical, c: nat, n: nat): (r: seq<byte>)
    requires Shaped(g, l) && 1 <= g.spc
    decreases n
  {
    if n == 0 || !ValidCluster(g, c) then []
    else TakeBytes(l.data[c], n) + ReadFrom(g, l, l.fat[c], if n <= g.spc * 512 then 0 else n - g.spc * 512)
  }

  /** Reads what a directory entry describes: the chain from `first`, cut at `size` bytes. */
  method ReadEntry(v: Volume, first: nat, size: nat) returns (r: Result<seq<byte>>)
    requires v.Valid()
    modifies v`faults, v`accesses
    ensures v.Valid() && v.faults >= old(v.faults)
    ensures r.Ok? ==> r.value == ReadFrom(v.g, v.log, first, size) && v.faults == old(v.faults)
    ensures r.Err? ==> r.error == Block && v.faults > old(v.faults)
  {
    hide LogOf, FatEnd, DataEnd, FirstSector;
    var g := v.g;
    var data: seq<byte>, remaining: nat, cluster: nat := [], size, first;
    while remaining > 0 && ValidCluster(g, cluster)
      invariant v.Valid() && v.faults == old(v.faults)
      invariant data + ReadFrom(g, v.log, cluster, remaining) == ReadFrom(g, v.log, first, size)
      decreases remaining
    {
      ghost var row, want := v.log.data[cluster], remaining;
      ghost var later := ReadFrom(g, v.log, v.log.fat[cluster], if want <= g.spc * 512 then 0 else want - g.spc * 512);
      assert row[0..] == row;
      assert data + (TakeBytes(row, want) + later) == data + TakeBytes(row, want) + later;
      var s := 0;
      while s < g.spc && remaining > 0
        invariant 0 <= s <= g.spc && v.Valid() && v.faults == old(v.faults)
        invariant remaining == if want <= s * 512 then 0 else want - s * 512
        invariant data + TakeBytes(row[s..], remaining) + later == ReadFrom(g, v.log, first, size)
      {
        var buf :- v.ReadData(cluster, s);
        var take := Min(remaining, 512);
        assert row[s..][1..] == row[s + 1..];
        assert data + (buf[..take] + TakeBytes(row[s + 1..], remaining - take))
            == data + buf[..take] + TakeBytes(row[s + 1..], remaining - take);
        data, remaining, s := data + buf[..take], remaining - take, s + 1;
      }
      assert TakeBytes(row[s..], remaining) == [];
      assert data + [] == data;
      cluster :- v.NextCluster(cluster);
    }
    assert data + [] == data;
    r := Ok(data);
  }

  lemma {:induction false} TakeSplit(a: seq<Sector>, b: seq<Sector>, n: nat)
    ensures TakeBytes(a + b, n)
         == TakeBytes(a, n) + TakeBytes(b, if n <= |a| * 512 then 0 else n - |a| * 512)
  {
    if n == 0 || a == [] {
      assert a == [] ==> a + b == b;
    } else {
      var t := Min(n, 512);
      TakeSplit(a[1..], b, n - t);
      assert (a + b)[1..] == a[1..] + b;
    }
  }

  /** Along a real chain the reader gathers a prefix of the chain's sectors. */
  lemma {:induction false} ReadFollowsChain(g: Geometry, l: Logical, ch: seq<nat>, i: nat, n: nat)
    requires Shaped(g, l) && 1 <= g.spc && IsChain(g, l, ch) && g.count + 2 <= EOC_MIN && i < |ch|
    ensures ReadFrom(g, l, ch[i], n) == TakeBytes(Flat(g, l, ch[i..]), n)
    decreases |ch| - i
  {
    if n > 0 {
      var rest := if n <= g.spc * 512 then 0 else n - g.spc * 512;
      assert ch[i..][1..] == ch[i + 1..];
      TakeSplit(l.data[ch[i]], Flat(g, l, ch[i + 1..]), n);
      if i + 1 < |ch| {
        ReadFollowsChain(g, l, ch, i + 1, rest);
      } else {
        assert Flat(g, l, ch[i + 1..]) == [];
      }
    }
  }
}
