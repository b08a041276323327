/** Cluster chains: what the table says about them, and the three loops that build and undo them. */
module FatChains {
  import opened FatBytes
  import opened FatVolume
  import opened FatDevice

  ghost predicate Distinct(s: seq<nat>) {
    forall i, j :: 0 <= i < j < |s| ==> s[i] != s[j]
  }

  /** `ch` is linked by the table from its head to an end-of-chain mark, and never meets itself. */
  ghost predicate IsChain(g: Geometry, l: Logical, ch: seq<nat>) {
    && |l.fat| == g.count + 2
    && ch != []
    && (forall i :: 0 <= i < |ch| ==> ValidCluster(g, ch[i]))
    && Distinct(ch)
    && (forall i :: 0 <= i < |ch| - 1 ==> l.fat[ch[i]] == ch[i + 1])
    && l.fat[ch[|ch| - 1]] >= EOC_MIN
  }

  /** The clusters a bounded walk visits from `c`: it stops at anything that is no data cluster. */
  ghost function ChainFrom(g: Geometry, l: Logical, c: nat, steps: nat): (ch: seq<nat>)
    requires |l.fat| == g.count + 2
    ensures forall i :: 0 <= i < |ch| ==> ValidCluster(g, ch[i])
    decreases steps
  {
    if steps == 0 || !ValidCluster(g, c) then [] else [c] + ChainFrom(g, l, l.fat[c], steps - 1)
  }

  lemma {:induction false} WalkFollowsChain(g: Geometry, l: Logical, ch: seq<nat>, i: nat, steps: nat)
    requires IsChain(g, l, ch) && g.count + 2 <= EOC_MIN && i < |ch| && |ch| - i <= steps
    ensures ChainFrom(g, l, ch[i], steps) == ch[i..]
    decreases |ch| - i
  {
    if i + 1 < |ch| {
      WalkFollowsChain(g, l, ch, i + 1, steps - 1);
    } else {
      assert ChainFrom(g, l, l.fat[ch[i]], steps - 1) == [];
    }
    assert ch[i..] == [ch[i]] + ch[i + 1..];
  }

  ghost function Elems(s: seq<nat>): set<nat> { set c | c in s }

  ghost function Span(lo: nat, hi: nat): (r: set<nat>)
    ensures forall c :: c in r <==> lo <= c < hi
    ensures lo <= hi ==> |r| == hi - lo
    decreases hi
  {
    if hi <= lo then {} else Span(lo, hi - 1) + {hi - 1}
  }

  lemma SubsetSize(a: set<nat>, b: set<nat>)
    requires a <= b
    ensures |a| <= |b|
  {
    assert b == a + (b - a);
  }

  lemma {:induction false} DistinctSize(s: seq<nat>)
    requires Distinct(s)
    ensures |Elems(s)| == |s|
  {
    if s != [] {
      var t := s[..|s| - 1];
      DistinctSize(t);
      assert s == t + [s[|s| - 1]];
      assert Elems(s) == Elems(t) + {s[|s| - 1]};
    }
  }

  lemma DistinctBound(s: seq<nat>, lo: nat, hi: nat)
    requires Distinct(s) && lo <= hi && forall i :: 0 <= i < |s| ==> lo <= s[i] < hi
    ensures |s| <= hi - lo
  {
    DistinctSize(s);
    SubsetSize(Elems(s), Span(lo, hi));
  }

  /** A whole-volume step budget is always enough to walk a real chain. */
  lemma WalkIsChain(g: Geometry, l: Logical, ch: seq<nat>)
    requires IsChain(g, l, ch) && g.count + 2 <= EOC_MIN
    ensures |ch| <= g.count && ChainFrom(g, l, ch[0], g.count) == ch
  {
    DistinctBound(ch, 2, 2 + g.count);
    WalkFollowsChain(g, l, ch, 0, g.count);
    assert ch[0..] == ch;
  }

  // --- how two logical views differ ---

  /** The free clusters, those a table entry of zero marks. */
  ghost function FreeSet(g: Geometry, l: Logical): set<nat>
    requires |l.fat| == g.count + 2
  {
    set c | 2 <= c < g.count + 2 && l.fat[c] == 0
  }

  /** Only entries and contents of clusters that were free in `l0` may differ in `l`. */
  ghost predicate OnlyFree(g: Geometry, l0: Logical, l: Logical) {
    && Shaped(g, l0) && Shaped(g, l)
    && forall c :: 0 <= c < g.count + 2 && (c < 2 || l0.fat[c] != 0) ==>
         l.fat[c] == l0.fat[c] && l.data[c] == l0.data[c]
  }

  /** Only table entries of clusters in `cs` may differ. */
  ghost predicate OnlyEntries(l0: Logical, l: Logical, cs: seq<nat>) {
    && l.data == l0.data && |l.fat| == |l0.fat|
    && forall c :: 0 <= c < |l.fat| && c !in cs ==> l.fat[c] == l0.fat[c]
  }

  ghost function Cleared(l: Logical, cs: seq<nat>): Logical {
    l.(fat := seq(|l.fat|, c requires 0 <= c < |l.fat| => if c in cs then 0 else l.fat[c]))
  }

  lemma ChainSurvives(g: Geometry, l0: Logical, l: Logical, ch: seq<nat>)
    requires IsChain(g, l0, ch) && OnlyFree(g, l0, l)
    ensures IsChain(g, l, ch)
  {
    forall i | 0 <= i < |ch|
      ensures l.fat[ch[i]] == l0.fat[ch[i]]
    {
      assert i < |ch| - 1 ==> l0.fat[ch[i]] == ch[i + 1];
    }
  }

  lemma OnlyFreeTrans(g: Geometry, l0: Logical, l1: Logical, l2: Logical)
    requires OnlyFree(g, l0, l1) && OnlyFree(g, l1, l2)
    ensures OnlyFree(g, l0, l2)
  {
  }

  lemma EntriesOfFree(g: Geometry, l0: Logical, l1: Logical, l2: Logical, cs: seq<nat>)
    requires OnlyFree(g, l0, l1) && OnlyEntries(l1, l2, cs) && Shaped(g, l2)
    requires forall c :: c in cs ==> ValidCluster(g, c) && l0.fat[c] == 0
    ensures OnlyFree(g, l0, l2)
  {
  }

  // --- how the disk and the trail moved during a call ---

  /** The trail grew from `t0` to `t`, and every new image kept what was in use in `l0`. */
  ghost predicate TrailFree(g: Geometry, l0: Logical, t0: seq<Logical>, t: seq<Logical>) {
    && |t0| <= |t| && t[..|t0|] == t0
    && forall i :: |t0| <= i < |t| ==> OnlyFree(g, l0, t[i])
  }

  /** The trail grew from `t0` to `t`, and every new image differs from `l0` only in entries of `cs`. */
  ghost predicate TrailEntries(g: Geometry, l0: Logical, t0: seq<Logical>, t: seq<Logical>, cs: seq<nat>) {
    && |t0| <= |t| && t[..|t0|] == t0
    && forall i :: |t0| <= i < |t| ==> OnlyEntries(l0, t[i], cs) && Shaped(g, t[i])
  }

  lemma TrailFreeTrans(g: Geometry, l0: Logical, l1: Logical, t0: seq<Logical>, t1: seq<Logical>, t: seq<Logical>)
    requires TrailFree(g, l0, t0, t1) && OnlyFree(g, l0, l1) && TrailFree(g, l1, t1, t)
    ensures TrailFree(g, l0, t0, t)
  {
    assert t[..|t0|] == t[..|t1|][..|t0|];
    forall i | |t0| <= i < |t| ensures OnlyFree(g, l0, t[i]) {
      if i < |t1| { assert t[i] == t[..|t1|][i]; }
    }
  }

  lemma TrailFreeEntries(
    g: Geometry, l0: Logical, l1: Logical, t0: seq<Logical>, t1: seq<Logical>, t: seq<Logical>, cs: seq<nat>)
    requires TrailFree(g, l0, t0, t1) && OnlyFree(g, l0, l1) && TrailEntries(g, l1, t1, t, cs)
    requires forall c :: c in cs ==> ValidCluster(g, c) && l0.fat[c] == 0
    ensures TrailFree(g, l0, t0, t)
  {
    assert t[..|t0|] == t[..|t1|][..|t0|];
    forall i | |t0| <= i < |t| ensures OnlyFree(g, l0, t[i]) {
      if i < |t1| { assert t[i] == t[..|t1|][i]; } else { EntriesOfFree(g, l0, l1, t[i], cs); }
    }
  }

  /** What a call may do to the sectors; `clean` when the device refused nothing. */
  ghost predicate DiskStep(g: Geometry, d0: Disk, d: Disk, clean: bool)
    requires Sane(g) && Holds(g, d0) && Holds(g, d)
  {
    Kept(g, d0, d) && (clean && Mirrored(g, d0) ==> Mirrored(g, d))
  }

  lemma DiskStepRefl(g: Geometry, d: Disk)
    requires Sane(g) && Holds(g, d)
    ensures DiskStep(g, d, d, true)
  {
    hide RawEntry;
  }

  lemma DiskStepTrans(g: Geometry, d0: Disk, d1: Disk, d: Disk, b0: bool, b1: bool)
    requires Sane(g) && Holds(g, d0) && Holds(g, d1) && Holds(g, d)
    requires DiskStep(g, d0, d1, b0) && DiskStep(g, d1, d, b1)
    ensures DiskStep(g, d0, d, b0 && b1)
  {
    hide RawEntry, DataEnd, FatEnd, Mirrored;
    assert forall n :: 0 <= n < |d| && (n < g.fatStart || DataEnd(g) <= n) ==> d[n] == d1[n] == d0[n];
  }

  // --- the loops ---

  /** Scans the table, a sector at a time, for the first zero entry. */
  method FirstZero(v: Volume) returns (r: Result<nat>)
    requires v.Valid()
    modifies v`faults, v`accesses
    ensures v.Valid() && (r.Err? ==> r.error == NoSpace || r.error == Block)
    ensures r.Ok? ==>
              && ValidCluster(v.g, r.value) && v.log.fat[r.value] == 0
              && (forall c :: 2 <= c < r.value ==> v.log.fat[c] != 0)
              && v.accesses == old(v.accesses) + r.value / 128 + 1
    ensures v.faults == old(v.faults) + if r == Err(Block) then 1 else 0
    ensures r == Err(NoSpace) ==> FreeSet(v.g, v.log) == {}
    ensures r == Err(Block) ==> old(v.accesses) < v.accesses && v.accesses - 1 in v.refused
    ensures forall c :: ValidCluster(v.g, c) && v.log.fat[c] == 0 ==> v.accesses <= old(v.accesses) + c / 128 + 1
  {
    hide LogOf, FatEnd, DataEnd, FirstSector, RawEntry;
    var g := v.g;
    var last := 2 + g.count;
    var cluster := 2;
    while cluster < last
      invariant 2 <= cluster <= last && v.faults == old(v.faults)
      invariant cluster == 2 || cluster == last || cluster % 128 == 0
      invariant v.accesses == old(v.accesses) + if cluster == 2 then 0 else (cluster + 127) / 128
      invariant forall c :: 2 <= c < cluster ==> v.log.fat[c] != 0
      decreases last - cluster
    {
      EntryOfLog(g, v.disk, cluster);
      var sector := g.fatStart + cluster / 128;
      var buf :- v.ReadSector(sector);
      ghost var entered := cluster;
      while cluster < last && cluster / 128 == sector - g.fatStart
        invariant entered <= cluster <= last && v.faults == old(v.faults)
        invariant v.accesses == old(v.accesses) + (sector - g.fatStart) + 1 && entered / 128 == sector - g.fatStart
        invariant cluster <= 128 * (sector - g.fatStart + 1)
        invariant forall c :: 2 <= c < cluster ==> v.log.fat[c] != 0
        invariant cluster == entered ==> cluster / 128 == sector - g.fatStart
        decreases last - cluster
      {
        EntryOfLog(g, v.disk, cluster);
        if ReadU32(buf, cluster % 128 * 4) % ENTRY_SPACE == 0 { return Ok(cluster); }
        cluster := cluster + 1;
      }
    }
    r := Err(NoSpace);
  }

  /** Finds the first zero entry, marks it end-of-chain and returns its cluster. */
  method AllocCluster(v: Volume) returns (r: Result<nat>)
    requires v.Valid()
    modifies v
    ensures v.Valid() && v.faults >= old(v.faults)
    ensures r.Ok? ==>
              && ValidCluster(v.g, r.value) && old(v.log).fat[r.value] == 0
              && (forall c :: 2 <= c < r.value ==> old(v.log).fat[c] != 0)
              && v.log == SetFat(old(v.log), r.value, EOC)
              && v.accesses == old(v.accesses) + r.value / 128 + 1 + 2 * v.g.numFats
    ensures r.Ok? || r.error == NoSpace <==> v.faults == old(v.faults)
    ensures v.slips >= old(v.slips) && (r.Err? && v.slips == old(v.slips) ==> v.log == old(v.log))
    ensures r.Err? ==> r.error == NoSpace || r.error == Block
    ensures r == Err(Block) ==> old(v.accesses) < v.accesses && v.accesses - 1 in v.refused
    ensures forall c :: ValidCluster(v.g, c) && old(v.log).fat[c] == 0 ==>
              r != Err(NoSpace) && v.accesses <= old(v.accesses) + c / 128 + 1 + 2 * v.g.numFats
    ensures r.Err? && r.error == NoSpace ==>
              FreeSet(v.g, v.log) == {} && v.disk == old(v.disk) && v.log == old(v.log) && v.trail == old(v.trail)
    ensures OnlyFree(v.g, old(v.log), v.log) && v.log.data == old(v.log).data
    ensures TrailFree(v.g, old(v.log), old(v.trail), v.trail)
    ensures DiskStep(v.g, old(v.disk), v.disk, v.faults == old(v.faults))
  {
    hide LogOf, FatEnd, DataEnd, FirstSector, RawEntry, Kept, Mirrored;
    ghost var l0 := v.log;
    DiskStepRefl(v.g, v.disk);
    r := FirstZero(v);
    if r.Err? {
      if r.error == NoSpace { NoneZero(v.g, l0); }
      return;
    }
    var w := v.WriteFatEntry(r.value, EOC);
    FirstIsLeast(v.g, l0, r.value);
    if w.Err? { r := Err(Block); }
  }

  lemma NoneZero(g: Geometry, l: Logical)
    requires Shaped(g, l) && FreeSet(g, l) == {}
    ensures forall c :: ValidCluster(g, c) ==> l.fat[c] != 0
  {
    forall c | ValidCluster(g, c) ensures l.fat[c] != 0 {
      assert c !in FreeSet(g, l);
    }
  }

  lemma FirstIsLeast(g: Geometry, l: Logical, first: nat)
    requires Shaped(g, l) && ValidCluster(g, first) && forall c :: 2 <= c < first ==> l.fat[c] != 0
    ensures forall c :: ValidCluster(g, c) && l.fat[c] == 0 ==> first <= c && first / 128 <= c / 128
  {
  }

  /** Zeroes every entry of the chain from `first`. */
  method FreeChain(v: Volume, first: nat, ghost ch: seq<nat>) returns (r: Result<()>)
    requires v.Valid() && IsChain(v.g, v.log, ch) && ch[0] == first
    modifies v
    ensures v.Valid() && v.faults >= old(v.faults)
    ensures r.Ok? <==> v.faults == old(v.faults)
    ensures r.Err? ==> r.error == Block
    ensures old(v.accesses) in v.refused ==> r.Err?
    ensures v.slips >= old(v.slips)
    ensures r.Ok? ==> v.log == Cleared(old(v.log), ch)
    ensures OnlyEntries(old(v.log), v.log, ch)
    ensures TrailEntries(v.g, old(v.log), old(v.trail), v.trail, ch)
    ensures DiskStep(v.g, old(v.disk), v.disk, v.faults == old(v.faults))
  {
    hide LogOf, FatEnd, DataEnd, FirstSector, RawEntry, Kept, Mirrored, Cleared, OnlyEntries;
    var g := v.g;
    ghost var l0, d0, t0 := v.log, v.disk, v.trail;
    DistinctBound(ch, 2, 2 + g.count);
    DiskStepRefl(g, d0);
    ClearedNone(l0, ch);
    var cluster := first;
    var stepsLeft := g.count;
    ghost var i := 0;
    while ValidCluster(g, cluster) && stepsLeft > 0
      invariant 0 <= i <= |ch| && stepsLeft == g.count - i && v.Valid()
      invariant v.faults == old(v.faults) && v.slips == old(v.slips)
      invariant if i == 0 then v.accesses == old(v.accesses) else old(v.accesses) !in v.refused
      invariant if i < |ch| then cluster == ch[i] else cluster >= EOC_MIN
      invariant v.log == Cleared(l0, ch[..i]) && OnlyEntries(l0, v.log, ch)
      invariant i < |ch| ==> v.log.fat[cluster] == l0.fat[cluster]
      invariant TrailEntries(g, l0, t0, v.trail, ch)
      invariant DiskStep(g, d0, v.disk, true)
      decreases stepsLeft
    {
      stepsLeft := stepsLeft - 1;
      var next :- v.NextCluster(cluster);
      ghost var d1, t1 := v.disk, v.trail;
      ClearedStep(g, l0, ch, i);
      var w := v.WriteFatEntry(cluster, 0);
      DiskStepTrans(g, d0, d1, v.disk, true, w.Ok?);
      TrailEntriesStep(g, l0, t0, t1, v.trail, ch, Cleared(l0, ch[..i + 1]));
      if w.Err? {
        return Err(Block);
      }
      cluster, i := next, i + 1;
    }
    assert ch[..|ch|] == ch;
    r := Ok(());
  }

  lemma ClearedNone(l: Logical, ch: seq<nat>)
    ensures Cleared(l, ch[..0]) == l && OnlyEntries(l, l, ch)
  {
    assert Cleared(l, ch[..0]).fat == l.fat;
  }

  lemma ClearedStep(g: Geometry, l: Logical, ch: seq<nat>, i: nat)
    requires Shaped(g, l) && IsChain(g, l, ch) && i < |ch|
    ensures var l1 := Cleared(l, ch[..i + 1]);
            && SetFat(Cleared(l, ch[..i]), ch[i], 0) == l1
            && OnlyEntries(l, l1, ch) && Shaped(g, l1)
            && (i + 1 < |ch| ==> l1.fat[ch[i + 1]] == l.fat[ch[i + 1]])
  {
    assert ch[..i + 1] == ch[..i] + [ch[i]];
    assert SetFat(Cleared(l, ch[..i]), ch[i], 0).fat == Cleared(l, ch[..i + 1]).fat;
  }

  lemma TrailEntriesStep(
    g: Geometry, l0: Logical, t0: seq<Logical>, t1: seq<Logical>, t: seq<Logical>, cs: seq<nat>, l: Logical)
    requires TrailEntries(g, l0, t0, t1, cs) && OnlyEntries(l0, l, cs) && Shaped(g, l)
    requires |t1| <= |t| && t[..|t1|] == t1 && forall i :: |t1| <= i < |t| ==> t[i] == l
    ensures TrailEntries(g, l0, t0, t, cs)
  {
    assert t[..|t0|] == t[..|t1|][..|t0|];
    forall i | |t0| <= i < |t| ensures OnlyEntries(l0, t[i], cs) && Shaped(g, t[i]) {
      if i < |t1| { assert t[i] == t[..|t1|][i]; }
    }
  }

  /** The first two clusters are free, and the device refuses the access, and none before it, with which the
      first would be linked to the second: after one read of the table and one update of it for each. */
  ghost predicate LinkRefused(g: Geometry, l: Logical, refused: set<nat>, accesses: nat)
    requires Shaped(g, l)
  {
    && g.count >= 2 && l.fat[2] == 0 && l.fat[3] == 0 && accesses + 2 + 4 * g.numFats in refused
    && forall k :: accesses <= k < accesses + 2 + 4 * g.numFats ==> k !in refused
  }

  /** So far one cluster, or none, was taken. */
  ghost predicate OnWay(g: Geometry, l0: Logical, accesses0: nat, i: nat, l: Logical, accesses: nat)
    requires Shaped(g, l0)
  {
    g.count >= 2 && if i == 0 then l == l0 && accesses == accesses0
    else i == 1 && l == SetFat(l0, 2, EOC) && accesses == accesses0 + 1 + 2 * g.numFats
  }

  lemma NextOnWay(
    g: Geometry, l0: Logical, refused: set<nat>, accesses0: nat, i: nat, l1: Logical, accesses1: nat,
    a: Result<nat>, l: Logical, accesses: nat)
    requires Sane(g) && Shaped(g, l0) && Shaped(g, l1) && LinkRefused(g, l0, refused, accesses0)
    requires OnWay(g, l0, accesses0, i, l1, accesses1)
    requires a.Err? ==> a.error == NoSpace || a.error == Block
    requires a == Err(Block) ==> accesses1 < accesses && accesses - 1 in refused
    requires forall c :: ValidCluster(g, c) && l1.fat[c] == 0 ==>
               a != Err(NoSpace) && accesses <= accesses1 + c / 128 + 1 + 2 * g.numFats
    requires a.Ok? ==>
               && ValidCluster(g, a.value) && l1.fat[a.value] == 0 && (forall c :: 2 <= c < a.value ==> l1.fat[c] != 0)
               && l == SetFat(l1, a.value, EOC) && accesses == accesses1 + a.value / 128 + 1 + 2 * g.numFats
    ensures a == Ok(2 + i) && accesses == accesses0 + (1 + i) * (1 + 2 * g.numFats) && i < 2
    ensures l == if i == 0 then SetFat(l0, 2, EOC) else SetFat(SetFat(l0, 2, EOC), 3, EOC)
  {
    assert ValidCluster(g, 2 + i) && l1.fat[2 + i] == 0;
    assert a.Ok?;
    assert a.value <= 2 + i;
  }

  /** Allocates and links `n` clusters; gives back what it took when the volume runs out. */
  method AllocChain(v: Volume, n: nat) returns (r: Result<nat>, ghost ch: seq<nat>)
    requires v.Valid() && 1 <= n
    modifies v
    ensures v.Valid() && v.faults >= old(v.faults)
    ensures r.Err? ==> r.error == NoSpace || r.error == Block
    ensures r.Ok? ==> v.faults == old(v.faults)
    ensures r.Ok? ==>
              && |ch| == n && ch[0] == r.value && IsChain(v.g, v.log, ch)
              && (forall c :: c in ch ==> old(v.log).fat[c] == 0)
              && OnlyEntries(old(v.log), v.log, ch)
              && (forall i, j :: 0 <= i < j < |ch| ==> ch[i] < ch[j])
              && (forall c :: c in FreeSet(v.g, v.log) ==> ch[n - 1] < c)
    ensures r.Err? && r.error == NoSpace ==> |FreeSet(v.g, old(v.log))| < n
    ensures r.Err? && v.faults == old(v.faults) ==> r.error == NoSpace && v.log == old(v.log)
    ensures r.Err? && v.faults == old(v.faults) && Mirrored(v.g, old(v.disk)) ==> v.disk == old(v.disk)
    ensures v.slips >= old(v.slips)
    ensures r == Err(Block) && v.faults == old(v.faults) + 1 && v.slips == old(v.slips) ==> v.log == old(v.log)
    ensures 2 <= n && LinkRefused(v.g, old(v.log), v.refused, old(v.accesses)) ==>
              && r == Err(Block) && v.faults == old(v.faults) + 1
              && v.log == SetFat(SetFat(old(v.log), 2, EOC), 3, EOC)
    ensures OnlyFree(v.g, old(v.log), v.log) && v.log.data == old(v.log).data
    ensures TrailFree(v.g, old(v.log), old(v.trail), v.trail)
    ensures DiskStep(v.g, old(v.disk), v.disk, v.faults == old(v.faults))
  {
    hide LogOf, FatEnd, DataEnd, FirstSector, RawEntry, Kept, Mirrored, Growing, OnlyFree, TrailFree, IsChain, DiskStep,
      OnlyEntries, FreeSet, SetFat, LinkRefused, OnWay;
    var g := v.g;
    ghost var l0, d0, t0 := v.log, v.disk, v.trail;
    DiskStepRefl(g, d0);
    NoneTaken(g, l0, t0);
    if LinkRefused(g, l0, v.refused, v.accesses) { StartOnWay(g, l0, v.refused, v.accesses); }
    ch := [];
    var first, prev := 0, 0;
    var i := 0;
    while i < n
      invariant 0 <= i <= n && |ch| == i && v.Valid() && v.faults == old(v.faults) && v.slips >= old(v.slips)
      invariant first == 0 <==> i == 0
      invariant LinkRefused(g, l0, v.refused, old(v.accesses)) ==> OnWay(g, l0, old(v.accesses), i, v.log, v.accesses)
      invariant LinkRefused(g, l0, v.refused, old(v.accesses)) ==> i == 0 || (i == 1 && prev == 2)
      invariant i > 0 ==> first == ch[0] && prev == ch[i - 1] && IsChain(g, v.log, ch)
      invariant Growing(g, l0, v.log, ch) && v.log.data == l0.data
      invariant OnlyFree(g, l0, v.log)
      invariant TrailFree(g, l0, t0, v.trail)
      invariant DiskStep(g, d0, v.disk, true)
    {
      ghost var l1, d1, t1, a1 := v.log, v.disk, v.trail, v.accesses;
      var a := AllocCluster(v);
      DiskStepTrans(g, d0, d1, v.disk, true, v.faults == old(v.faults));
      OnlyFreeTrans(g, l0, l1, v.log);
      TrailFreeTrans(g, l0, l1, t0, t1, v.trail);
      if LinkRefused(g, l0, v.refused, old(v.accesses)) {
        NextOnWay(g, l0, v.refused, old(v.accesses), i, l1, a1, a, v.log, v.accesses);
        RefusedNext(g, l0, v.refused, old(v.accesses), i, v.log, v.accesses);
      }
      if a.Err? {
        if a.error == NoSpace { AllTaken(g, l0, l1, ch); }
        Abandon(v, first, ch, l0, d0, t0, l1, v.faults == old(v.faults));
        if v.faults == old(v.faults) && Mirrored(g, d0) { SameDisk(g, d0, v.disk); }
        r := Err(a.error);
        return;
      }
      var c := a.value;
      if first == 0 {
        first := c;
      } else {
        GrownFacts(g, l0, l1, ch);
        var w := Link(v, prev, c, l0, d0, t0);
        if w.Err? {
          r := Err(Block);
          return;
        }
      }
      LinkedOneMore(g, l0, l1, v.log, ch, c);
      ch := ch + [c];
      prev, i := c, i + 1;
    }
    GrownFacts(g, l0, v.log, ch);
    r := Ok(first);
  }

  /** After the first cluster there is a second one to take, and the access after that is the one refused. */
  lemma RefusedNext(
    g: Geometry, l0: Logical, refused: set<nat>, accesses0: nat, i: nat, l: Logical, accesses: nat)
    requires Shaped(g, l0) && LinkRefused(g, l0, refused, accesses0) && i < 2
    requires accesses == accesses0 + (1 + i) * (1 + 2 * g.numFats) && (i == 0 ==> l == SetFat(l0, 2, EOC))
    ensures i == 0 ==> OnWay(g, l0, accesses0, 1, l, accesses)
    ensures i == 1 ==> accesses in refused
  {
  }

  lemma StartOnWay(g: Geometry, l0: Logical, refused: set<nat>, accesses: nat)
    requires Shaped(g, l0) && LinkRefused(g, l0, refused, accesses)
    ensures g.count >= 2 && OnWay(g, l0, accesses, 0, l0, accesses)
  {
  }

  lemma NoneTaken(g: Geometry, l: Logical, t: seq<Logical>)
    requires Shaped(g, l)
    ensures Growing(g, l, l, []) && OnlyFree(g, l, l) && TrailFree(g, l, t, t)
  {
  }

  lemma GrownFacts(g: Geometry, l0: Logical, l: Logical, ch: seq<nat>)
    requires |l0.fat| == |l.fat| == g.count + 2 && Growing(g, l0, l, ch) && ch != []
    ensures (forall c :: c in ch ==> ValidCluster(g, c) && l0.fat[c] == 0) && OnlyEntries(l0, l, ch)
    ensures forall i, j :: 0 <= i < j < |ch| ==> ch[i] < ch[j]
    ensures forall c :: c in FreeSet(g, l) ==> ch[|ch| - 1] < c
  {
  }

  lemma SameDisk(g: Geometry, d0: Disk, d: Disk)
    requires Sane(g) && Holds(g, d0) && Holds(g, d) && DiskStep(g, d0, d, true)
    requires Mirrored(g, d0) && LogOf(g, d0) == LogOf(g, d)
    ensures d == d0
  {
    hide LogOf, FatEnd, DataEnd, FirstSector, RawEntry, Kept, Mirrored;
    DiskFromLog(g, d0, d);
  }

  /** Points the last cluster of the chain at the next one. */
  method Link(v: Volume, prev: nat, c: nat, ghost l0: Logical, ghost d0: Disk, ghost t0: seq<Logical>)
      returns (r: Result<()>)
    requires v.Valid() && OnlyFree(v.g, l0, v.log) && ValidCluster(v.g, prev) && ValidCluster(v.g, c)
    requires l0.fat[prev] == 0 && c < ENTRY_SPACE
    requires Holds(v.g, d0) && DiskStep(v.g, d0, v.disk, true) && TrailFree(v.g, l0, t0, v.trail)
    modifies v
    ensures v.Valid() && v.faults >= old(v.faults) && (r.Ok? <==> v.faults == old(v.faults))
    ensures v.slips == old(v.slips) + if r.Ok? then 0 else 1
    ensures r.Err? ==> r.error == Block
    ensures r.Ok? ==> v.log == SetFat(old(v.log), prev, c)
    ensures old(v.accesses) in v.refused ==> r.Err? && v.log == old(v.log) && v.faults == old(v.faults) + 1
    ensures OnlyFree(v.g, l0, v.log) && v.log.data == old(v.log).data
    ensures TrailFree(v.g, l0, t0, v.trail)
    ensures DiskStep(v.g, d0, v.disk, r.Ok?)
  {
    hide LogOf, FatEnd, DataEnd, FirstSector, RawEntry, Kept, Mirrored;
    ghost var l1, d1, t1 := v.log, v.disk, v.trail;
    r := v.WriteFatEntry(prev, c);
    DiskStepTrans(v.g, d0, d1, v.disk, true, r.Ok?);
    EntriesOfFree(v.g, l0, l1, v.log, [prev]);
    TrailFreeEntries(v.g, l0, l1, t0, t1, v.trail, [prev]);
  }

  /** Gives the clusters taken so far back, if there are any. */
  method Abandon(
    v: Volume, first: nat, ghost ch: seq<nat>, ghost l0: Logical, ghost d0: Disk, ghost t0: seq<Logical>,
    ghost l1: Logical, ghost clean: bool)
    requires v.Valid() && Shaped(v.g, l0) && Shaped(v.g, l1) && Growing(v.g, l0, l1, ch)
    requires if ch == [] then first == 0 else first == ch[0] && IsChain(v.g, l1, ch)
    requires OnlyFree(v.g, l1, v.log) && OnlyFree(v.g, l0, v.log)
    requires Holds(v.g, d0) && DiskStep(v.g, d0, v.disk, clean) && TrailFree(v.g, l0, t0, v.trail)
    modifies v
    ensures v.Valid() && v.faults >= old(v.faults) && v.slips >= old(v.slips)
    ensures v.faults == old(v.faults) && old(v.log) == l1 ==> v.log == l0
    ensures OnlyFree(v.g, l0, v.log) && v.log.data == old(v.log).data
    ensures TrailFree(v.g, l0, t0, v.trail)
    ensures DiskStep(v.g, d0, v.disk, clean && v.faults == old(v.faults))
  {
    hide LogOf, FatEnd, DataEnd, FirstSector, RawEntry, Kept, Mirrored, DiskStep;
    ClearedBack(v.g, l0, l1, ch);
    if first != 0 {
      ChainSurvives(v.g, l1, v.log, ch);
      GiveBack(v, first, ch, l0, d0, t0, clean);
    } else {
      assert Cleared(l1, ch).fat == l1.fat;
    }
  }

  /** Best-effort return of a fresh chain: whatever happens, only clusters free in `l0` are touched. */
  method GiveBack(
    v: Volume, first: nat, ghost ch: seq<nat>, ghost l0: Logical, ghost d0: Disk, ghost t0: seq<Logical>,
    ghost clean: bool)
    requires v.Valid() && IsChain(v.g, v.log, ch) && ch[0] == first
    requires OnlyFree(v.g, l0, v.log) && forall c :: c in ch ==> l0.fat[c] == 0
    requires Holds(v.g, d0) && DiskStep(v.g, d0, v.disk, clean) && TrailFree(v.g, l0, t0, v.trail)
    modifies v
    ensures v.Valid() && v.faults >= old(v.faults)
    ensures v.slips >= old(v.slips) && (v.faults == old(v.faults) ==> v.log == Cleared(old(v.log), ch))
    ensures OnlyFree(v.g, l0, v.log) && v.log.data == old(v.log).data
    ensures TrailFree(v.g, l0, t0, v.trail)
    ensures DiskStep(v.g, d0, v.disk, clean && v.faults == old(v.faults))
  {
    hide LogOf, FatEnd, DataEnd, FirstSector, RawEntry, Kept, Mirrored;
    ghost var l1, d1, t1 := v.log, v.disk, v.trail;
    var _ := FreeChain(v, first, ch);
    DiskStepTrans(v.g, d0, d1, v.disk, clean, v.faults == old(v.faults));
    EntriesOfFree(v.g, l0, l1, v.log, ch);
    TrailFreeEntries(v.g, l0, l1, t0, t1, v.trail, ch);
  }

  /** The clusters in `ch` were the lowest free ones, and they are the only entries changed. */
  ghost predicate Growing(g: Geometry, l0: Logical, l: Logical, ch: seq<nat>)
    requires |l0.fat| == |l.fat| == g.count + 2
  {
    && OnlyEntries(l0, l, ch)
    && (forall c :: c in ch ==> ValidCluster(g, c) && l0.fat[c] == 0)
    && (forall i, j :: 0 <= i < j < |ch| ==> ch[i] < ch[j])
    && (ch != [] ==> forall c :: c in FreeSet(g, l) ==> ch[|ch| - 1] < c)
  }

  lemma AllTaken(g: Geometry, l0: Logical, l: Logical, ch: seq<nat>)
    requires Shaped(g, l0) && Shaped(g, l) && Growing(g, l0, l, ch) && FreeSet(g, l) == {}
    ensures |FreeSet(g, l0)| == |ch|
  {
    DistinctSize(ch);
    forall c | c in FreeSet(g, l0) ensures c in ch {
      assert c !in FreeSet(g, l);
    }
    assert FreeSet(g, l0) == Elems(ch);
  }

  lemma ClearedBack(g: Geometry, l0: Logical, l: Logical, ch: seq<nat>)
    requires Shaped(g, l0) && Shaped(g, l) && Growing(g, l0, l, ch)
    ensures Cleared(l, ch) == l0
  {
    assert Cleared(l, ch).fat == l0.fat;
  }

  lemma LinkedOneMore(g: Geometry, l0: Logical, l1: Logical, l: Logical, ch: seq<nat>, c: nat)
    requires Shaped(g, l0) && Shaped(g, l1) && Growing(g, l0, l1, ch) && g.count + 2 <= EOC_MIN
    requires ch != [] ==> IsChain(g, l1, ch)
    requires ValidCluster(g, c) && l1.fat[c] == 0 && forall x :: 2 <= x < c ==> l1.fat[x] != 0
    requires l == if ch == [] then SetFat(l1, c, EOC) else SetFat(SetFat(l1, c, EOC), ch[|ch| - 1], c)
    ensures Growing(g, l0, l, ch + [c]) && IsChain(g, l, ch + [c])
  {
    assert c in FreeSet(g, l1);
    forall i | 0 <= i < |ch| ensures ch[i] < c {
      assert i < |ch| - 1 ==> ch[i] < ch[|ch| - 1];
    }
    var cs := ch + [c];
    assert OnlyEntries(l0, l, cs) by {
      assert forall x :: x !in cs ==> x !in ch && x != c;
    }
    forall x | x in FreeSet(g, l) ensures c < x {
      assert x in FreeSet(g, l1);
    }
  }
}
