/** The pieces the four operations are made of: finding a place, preparing new contents, committing a
    slot, letting the old chain go, and the accounting of clusters across all of it. */
module FatSteps {
  import opened Basics
  import opened FatBytes
  import opened FatVolume
  import opened FatDevice
  import opened FatChains
  import opened FatData
  import opened FatDirs
  import opened FatNames
  import opened FatTree
  import opened FatCommit
  import opened FatPrune
  import opened FatOrphans
  import opened FatPaths
  import opened FatCommitPaths
  import opened FatEffects

  // --- finding a place ---

  lemma {:induction false} LocateSame(l: Logical, l': Logical, ps: seq<Pos>, name: Name, free: Option<Pos>)
    requires forall p :: p in ps ==> SlotAt(l', p) == SlotAt(l, p)
    ensures Locate(l', ps, name, free) == Locate(l, ps, name, free)
  {
    hide SlotAt;
    if ps != [] {
      LocateSame(l, l', ps[1..], name, free);
      LocateSame(l, l', ps[1..], name, Some(ps[0]));
    }
  }

  /** A located place is in the directory; it holds the one entry of that name, or none has it. The slot
      to be put there may carry the name, or be no entry at all. */
  lemma LocateFits(g: Geometry, l: Logical, t: Tree, d: nat, name: Name, n: Slot)
    requires WF(g, l, t) && d in t.dirs && name[0] != PERIOD
    requires if Entry(n) then SlotName(n) == name && GoodName(name) else n[0] == 0xE5
    ensures d in t.chains && DirPos(g, l, d) == Slots(g, t, d)
    ensures var r := Locate(l, Slots(g, t, d), name, None);
            && (!r.Full? ==> r.at in Slots(g, t, d) && SlotFits(g, l, t, d, r.at, n))
            && (!r.Full? ==> (r.Existing? <==> Entry(SlotAt(l, r.at))))
            && (r.Existing? ==> SlotName(SlotAt(l, r.at)) == name)
  {
    EndsNames(g, l, t, d);
    var ps := Slots(g, t, d);
    ChainDistinct(g, l, t.chains[d]);
    ChainPosDistinct(g.spc, t.chains[d]);
    assert ps[0..] == ps;
    hide WF, Slots, ChainPos, GoodName, EndsOk, SlotAt, SlotName, Locate, NoEndBefore, PosDistinct;
    LocateSound(l, ps, 0, name, None);
    var r := Locate(l, ps, name, None);
    if r.Existing? {
      MatchesEntry(SlotAt(l, r.at), name);
    }
    forall q | q in ps && Entry(SlotAt(l, q)) && SlotName(SlotAt(l, q)) == name ensures Matches(SlotAt(l, q), name) {}
  }

  /** Preparing contents in free clusters does not move anything in the directory. */
  lemma PlaceSame(g: Geometry, l0: Logical, l: Logical, t: Tree, d: nat, name: Name)
    requires ChainsOk(g, l0, t) && Shaped(g, l) && SameOwned(t, l0, l) && d in t.dirs
    ensures Locate(l, Slots(g, t, d), name, None) == Locate(l0, Slots(g, t, d), name, None)
    ensures forall p :: p in Slots(g, t, d) ==> SlotAt(l, p) == SlotAt(l0, p)
  {
    SlotsSame(g, l0, l, t, d);
    LocateSame(l0, l, Slots(g, t, d), name, None);
  }

  // --- preparing contents ---

  /** How many clusters `size` bytes take. */
  function Clusters(g: Geometry, size: nat): nat {
    if g.spc == 0 then 0 else (size + g.spc * 512 - 1) / (g.spc * 512)
  }

  /** From `l0` to `l` the clusters of `ch`, a chain from `first`, were taken from the free ones, and the
      table has changed nowhere else (0: nothing was taken). */
  ghost predicate Taken(g: Geometry, l0: Logical, l: Logical, first: nat, ch: seq<nat>)
    requires Shaped(g, l0) && Shaped(g, l)
  {
    && (if first == 0 then ch == [] else IsChain(g, l, ch) && ch[0] == first)
    && (forall c :: c in ch ==> ValidCluster(g, c) && l0.fat[c] == 0)
    && (forall c :: 0 <= c < g.count + 2 && c !in ch ==> l.fat[c] == l0.fat[c])
  }

  /** The chain holds the data, and is no longer than it must be. */
  ghost predicate Contains(g: Geometry, l: Logical, ch: seq<nat>, data: seq<byte>)
    requires Shaped(g, l)
  {
    && |ch| == Clusters(g, |data|) && |data| <= |ch| * g.spc * 512
    && AllValid(g, ch) && TakeBytes(Flat(g, l, ch), |data|) == data
  }

  lemma NoClusters(g: Geometry, l: Logical)
    requires Shaped(g, l)
    ensures Contains(g, l, [], [])
  {
    if g.spc > 0 { BelowOne(g.spc * 512 - 1, g.spc * 512); }
  }

  lemma BelowOne(a: nat, b: nat)
    requires a < b
    ensures a / b == 0
  {
  }

  /** Allocates a chain and fills it with `data`; undoes the allocation when the copy fails. */
  method BuildContents(v: Volume, data: seq<byte>) returns (r: Result<nat>, ghost ch: seq<nat>)
    requires v.Valid()
    modifies v
    ensures v.Valid() && v.faults >= old(v.faults)
    ensures r.Err? ==> r.error == NoSpace || r.error == Block
    ensures r.Ok? ==> v.faults == old(v.faults) && (r.value == 0 <==> data == [])
    ensures r.Ok? ==> Taken(v.g, old(v.log), v.log, r.value, ch) && Contains(v.g, v.log, ch, data)
    ensures r.Err? && r.error == NoSpace ==> |FreeSet(v.g, old(v.log))| < Clusters(v.g, |data|)
    ensures r.Err? && v.faults == old(v.faults) ==> r.error == NoSpace && v.log == old(v.log)
    ensures r.Err? && v.faults == old(v.faults) && Mirrored(v.g, old(v.disk)) ==> v.disk == old(v.disk)
    ensures v.slips >= old(v.slips)
    ensures r == Err(Block) && v.faults == old(v.faults) + 1 && v.slips == old(v.slips) ==>
              v.log.fat == old(v.log).fat
    ensures OnlyFree(v.g, old(v.log), v.log)
    ensures TrailFree(v.g, old(v.log), old(v.trail), v.trail)
    ensures DiskStep(v.g, old(v.disk), v.disk, v.faults == old(v.faults))
  {
    hide LogOf, FatEnd, DataEnd, FirstSector, RawEntry, Kept, Mirrored, Flat, TakeBytes;
    var g := v.g;
    ghost var l0, d0, t0 := v.log, v.disk, v.trail;
    ch := [];
    if data == [] {
      DiskStepRefl(g, d0);
      NoClusters(g, l0);
      return Ok(0), [];
    }
    var clusterBytes := g.spc * 512;
    var n := (|data| + clusterBytes - 1) / clusterBytes;
    Enough(|data|, clusterBytes);
    r, ch := AllocChain(v, n);
    if r.Err? { return; }
    ghost var l1, d1, t1 := v.log, v.disk, v.trail;
    FreshChain(g, l0, l1, ch);
    var w := WriteChain(v, r.value, data, ch);
    DiskStepTrans(g, d0, d1, v.disk, true, true);
    FreshContents(g, l0, l1, v.log, ch);
    TrailFreeContents(g, l0, l1, t0, t1, v.trail, ch);
    if w.Err? {
      TakenBack(g, l0, v.log, ch);
      GiveBack(v, r.value, ch, l0, d0, t0, false);
      r := Err(Block);
    }
  }

  /** With its chain cleared again, the table is as it was. */
  lemma TakenBack(g: Geometry, l0: Logical, l: Logical, ch: seq<nat>)
    requires Shaped(g, l0) && Shaped(g, l) && forall c :: c in ch ==> ValidCluster(g, c) && l0.fat[c] == 0
    requires forall c :: 0 <= c < g.count + 2 && c !in ch ==> l.fat[c] == l0.fat[c]
    ensures Cleared(l, ch).fat == l0.fat && (ch == [] ==> l.fat == l0.fat)
  {
  }

  lemma Enough(size: nat, unit: nat)
    requires 0 < size && 0 < unit
    ensures var n := (size + unit - 1) / unit; 1 <= n && size <= n * unit
  {
    var a := size + unit - 1;
    assert a == a / unit * unit + a % unit;
    assert 1 <= a / unit by { MulMono(unit, a, 1); }
  }

  lemma FreshChain(g: Geometry, l0: Logical, l1: Logical, ch: seq<nat>)
    requires IsChain(g, l1, ch)
    ensures AllValid(g, ch) && forall c :: c in ch ==> ValidCluster(g, c)
  {
    ValidChain(g, l1, ch);
  }

  lemma FreshContents(g: Geometry, l0: Logical, l1: Logical, l2: Logical, ch: seq<nat>)
    requires OnlyFree(g, l0, l1) && OnlyContents(g, l1, l2, ch) && IsChain(g, l1, ch)
    requires forall c :: c in ch ==> ValidCluster(g, c) && l0.fat[c] == 0
    ensures OnlyFree(g, l0, l2) && IsChain(g, l2, ch)
  {
  }

  // --- committing a slot ---

  /** Rewrites one slot of a directory sector, leaving the other fifteen. */
  method WriteDirEntry(v: Volume, p: Pos, name: Name, attr: byte, first: u32, size: u32) returns (r: Result<()>)
    requires v.Valid() && InVolume(v.g, p)
    modifies v`disk, v`log, v`trail, v`faults, v`accesses
    ensures v.Valid()
    ensures r.Ok? ==> v.log == SetSlot(v.g, old(v.log), p, MakeSlot(name, attr, first, size))
                      && v.trail == old(v.trail) + [v.log] && v.faults == old(v.faults)
    ensures r.Err? ==>
              r.error == Block && v.log == old(v.log) && v.trail == old(v.trail) && v.faults == old(v.faults) + 1
    ensures DiskStep(v.g, old(v.disk), v.disk, true)
  {
    hide LogOf, FatEnd, DataEnd, FirstSector, RawEntry, Kept, Mirrored, MakeSlot;
    DiskStepRefl(v.g, v.disk);
    var buf :- v.ReadData(p.c, p.s);
    r := v.WriteData(p.c, p.s, PatchSlot(buf, p.e, MakeSlot(name, attr, first, size)));
  }

  /** Marks a slot deleted. */
  method ClearDirEntry(v: Volume, p: Pos) returns (r: Result<()>)
    requires v.Valid() && InVolume(v.g, p)
    modifies v`disk, v`log, v`trail, v`faults, v`accesses
    ensures v.Valid()
    ensures r.Ok? ==> v.log == SetSlot(v.g, old(v.log), p, Deleted(SlotAt(old(v.log), p)))
                      && v.trail == old(v.trail) + [v.log] && v.faults == old(v.faults)
    ensures r.Err? ==>
              r.error == Block && v.log == old(v.log) && v.trail == old(v.trail) && v.faults == old(v.faults) + 1
    ensures r.Ok? <==> old(v.accesses) !in v.refused && old(v.accesses) + 1 !in v.refused
    ensures r.Ok? ==> v.accesses == old(v.accesses) + 2
    ensures DiskStep(v.g, old(v.disk), v.disk, true)
  {
    hide LogOf, FatEnd, DataEnd, FirstSector, RawEntry, Kept, Mirrored;
    DiskStepRefl(v.g, v.disk);
    var buf :- v.ReadData(p.c, p.s);
    r := v.WriteData(p.c, p.s, PatchSlot(buf, p.e, Deleted(SlotIn(buf, p.e))));
  }

  // --- after the commit ---

  /** The chain the commit let go is whole, and nobody in the new tree owns any of it. */
  lemma OldChainLoose(g: Geometry, l: Logical, t: Tree, path: seq<Name>, d: nat, p: Pos, n: Slot, ch: seq<nat>)
    requires Shaped(g, l) && InVolume(g, p) && Commits(g, l, t, path, d, p, n, ch)
    requires Ref(SlotAt(l, p)) in t.chains
    ensures IsChain(g, SetSlot(g, l, p, n), t.chains[Ref(SlotAt(l, p))])
    ensures t.chains[Ref(SlotAt(l, p))][0] == Ref(SlotAt(l, p))
    ensures forall c :: c in t.chains[Ref(SlotAt(l, p))] ==> !Owns(After(t, d, p, SlotAt(l, p), n, ch), c)
  {
    WFChains(g, l, t);
    WFApart(g, l, t);
    hide WF, SetSlot, SlotAt, DirOf, SlotFits, ObjectFits, After, Owns, IsChain, Apart, Prune;
    SetSlotShape(g, l, p, n);
    var f0 := Ref(SlotAt(l, p));
    ChainByFat(g, l, SetSlot(g, l, p, n), t.chains[f0]);
    forall c | c in t.chains[f0] ensures !Owns(After(t, d, p, SlotAt(l, p), n, ch), c) {
      OwnsAfter(g, l, t, path, d, p, n, ch, c);
      PruneOwns(t, f0, c);
      OwnedBy(t, f0, c);
      NewUnowned(g, l, t, n, ch, c);
    }
  }

  lemma WFApart(g: Geometry, l: Logical, t: Tree)
    requires WF(g, l, t)
    ensures Apart(t)
  {
    hide ChainsOk, DirOk, NamedOk, Apart;
  }

  lemma ChainByFat(g: Geometry, l: Logical, l': Logical, ch: seq<nat>)
    requires IsChain(g, l, ch) && l'.fat == l.fat
    ensures IsChain(g, l', ch)
  {
  }

  lemma NewUnowned(g: Geometry, l: Logical, t: Tree, n: Slot, ch: seq<nat>, c: nat)
    requires ObjectFits(g, l, t, n, ch)
    ensures Ref(n) != 0 && c in ch ==> !Owns(t, c)
  {
  }

  lemma OwnedBy(t: Tree, h: nat, c: nat)
    requires h in t.chains && c in t.chains[h]
    ensures Owns(t, c)
  {
  }

  /** Everything after the commit happens outside the new tree. */
  lemma DoneEffect(
    g: Geometry, l0: Logical, t: Tree, trail0: seq<Logical>, trail1: seq<Logical>, l2: Logical, t2: Tree,
    l3: Logical, trail3: seq<Logical>, cs: seq<nat>, path: seq<Name>, res: Result<seq<byte>>)
    requires WF(g, l0, t) && Shaped(g, l0) && 1 <= g.spc && NoDots(path)
    requires TrailFree(g, l0, trail0, trail1) && Switched(g, l0, l2, t2, path, res)
    requires TrailEntries(g, l2, trail1 + [l2], trail3, cs) && OnlyEntries(l2, l3, cs) && Shaped(g, l3)
    requires forall c :: c in cs ==> !Owns(t2, c)
    ensures Effect(g, l0, t, trail0, l3, t2, trail3, path, res, true)
  {
    hide WF, Shaped, OnlyFree, OnlyEntries, Owns, Untouched, Switched;
    var trail2 := trail1 + [l2];
    assert trail3[..|trail0|] == trail3[..|trail2|][..|trail1|][..|trail0|];
    LooseSwitched(g, l0, l2, l3, t2, cs, path, res);
    forall i | |trail0| <= i < |trail3|
      ensures Untouched(g, l0, trail3[i], t) || Switched(g, l0, trail3[i], t2, path, res)
    {
      if i < |trail2| {
        assert trail3[i] == trail3[..|trail2|][i];
        if i < |trail1| { FreeUntouched(g, l0, trail3[i], t); }
      } else {
        LooseSwitched(g, l0, l2, trail3[i], t2, cs, path, res);
      }
    }
  }

  lemma LooseSwitched(
    g: Geometry, l0: Logical, l2: Logical, l: Logical, t2: Tree, cs: seq<nat>, path: seq<Name>, res: Result<seq<byte>>)
    requires Shaped(g, l0) && 1 <= g.spc && NoDots(path) && Switched(g, l0, l2, t2, path, res)
    requires OnlyEntries(l2, l, cs) && Shaped(g, l) && forall c :: c in cs ==> !Owns(t2, c)
    ensures Switched(g, l0, l, t2, path, res)
  {
    OutsideNotOwned(g, l2, l, t2, cs);
    hide WF, SameReads, ReadsAs;
    OwnedUntouched(g, l2, l, t2);
    ReadsTrans(g, l0, l2, l, t2, path, res);
  }

  // --- accounting ---

  /** Clusters that are neither free nor owned: bad ones, and what past device failures leaked. */
  ghost function Lost(g: Geometry, l: Logical, t: Tree): set<nat>
    requires |l.fat| == g.count + 2
  {
    set c | 2 <= c < g.count + 2 && l.fat[c] != 0 && !Owns(t, c)
  }

  lemma OwnsAfter(g: Geometry, l: Logical, t: Tree, path: seq<Name>, d: nat, p: Pos, n: Slot, ch: seq<nat>, c: nat)
    requires Commits(g, l, t, path, d, p, n, ch)
    ensures Owns(After(t, d, p, SlotAt(l, p), n, ch), c)
            <==> Owns(Prune(t, Ref(SlotAt(l, p))), c) || (Ref(n) != 0 && c in ch)
  {
    WFChains(g, l, t);
    NewRef(g, l, t, n, ch);
    hide WF, ChainsOk, SlotAt, DirOf, SlotFits, ObjectFits, Entry, Below, Owns, Graft, Ref;
    GraftOwns(Prune(t, Ref(SlotAt(l, p))), d, p, n, ch, c);
  }

  lemma GraftOwns(t: Tree, d: nat, p: Pos, n: Slot, ch: seq<nat>, c: nat)
    requires Ref(n) !in t.chains
    ensures Owns(Graft(t, d, p, n, ch), c) <==> Owns(t, c) || (Ref(n) != 0 && c in ch)
  {
    hide With, Ref, Entry;
    var t' := Graft(t, d, p, n, ch);
    if Owns(t', c) {
      var h :| h in t'.chains && c in t'.chains[h];
      assert h == Ref(n) || (h in t.chains && t'.chains[h] == t.chains[h]);
    }
    if Owns(t, c) {
      var h :| h in t.chains && c in t.chains[h];
      assert h in t'.chains && t'.chains[h] == t.chains[h];
    }
    if Ref(n) != 0 && c in ch { assert Ref(n) in t'.chains && t'.chains[Ref(n)] == ch; }
  }

  /** From `l0`, `ch` was taken from the free clusters, the slot committed and the old chain cleared: what
      is lost by it is what the slot strands, and no more. */
  lemma LostAfter(
    g: Geometry, l0: Logical, l1: Logical, t: Tree, path: seq<Name>, d: nat, p: Pos, n: Slot, ch: seq<nat>, l3: Logical)
    requires Shaped(g, l0) && Shaped(g, l1) && Shaped(g, l3) && Commits(g, l1, t, path, d, p, n, ch)
    requires forall c :: 0 <= c < g.count + 2 && (Ref(n) == 0 || c !in ch) ==> l1.fat[c] == l0.fat[c]
    requires Ref(n) != 0 ==> forall c :: c in ch ==> c < |l0.fat| && l0.fat[c] == 0
    requires var f0 := Ref(SlotAt(l1, p));
             forall c :: 0 <= c < g.count + 2 ==>
               l3.fat[c] == if f0 in t.chains && c in t.chains[f0] then 0 else l1.fat[c]
    ensures Lost(g, l3, After(t, d, p, SlotAt(l1, p), n, ch)) == Lost(g, l0, t) + Orphans(g, t, Ref(SlotAt(l1, p)))
  {
    hide Commits, SlotAt, After, Owns, Ref, Stranded;
    var t' := After(t, d, p, SlotAt(l1, p), n, ch);
    var f0 := Ref(SlotAt(l1, p));
    forall c: nat | 2 <= c < g.count + 2
      ensures c in Lost(g, l3, t') <==> c in Lost(g, l0, t) || c in Orphans(g, t, f0)
    {
      OwnersAfter(g, l1, t, path, d, p, n, ch, c);
    }
  }

  lemma OwnersAfter(g: Geometry, l: Logical, t: Tree, path: seq<Name>, d: nat, p: Pos, n: Slot, ch: seq<nat>, c: nat)
    requires Commits(g, l, t, path, d, p, n, ch)
    ensures var f0 := Ref(SlotAt(l, p));
            var old0, fresh1 := f0 in t.chains && c in t.chains[f0], Ref(n) != 0 && c in ch;
            && (Owns(After(t, d, p, SlotAt(l, p), n, ch), c)
                <==> (Owns(t, c) && !old0 && !Stranded(t, f0, c)) || fresh1)
            && (old0 || Stranded(t, f0, c) ==> Owns(t, c)) && !(old0 && Stranded(t, f0, c))
            && (Owns(t, c) ==> !fresh1 && ValidCluster(g, c) && c < |l.fat| && l.fat[c] != 0)
  {
    WFChains(g, l, t);
    WFApart(g, l, t);
    hide WF, SlotAt, After, DirOf, SlotFits, ObjectFits, Entry, Owns, Prune, Stranded, ChainsOk, Apart, SlotFirst;
    var f0 := Ref(SlotAt(l, p));
    OwnsAfter(g, l, t, path, d, p, n, ch, c);
    PruneOwns(t, f0, c);
    NewUnowned(g, l, t, n, ch, c);
    if Owns(t, c) { OwnedFat(g, l, t, c); }
  }

  lemma OwnedFat(g: Geometry, l: Logical, t: Tree, c: nat)
    requires ChainsOk(g, l, t) && Owns(t, c)
    ensures ValidCluster(g, c) && c < |l.fat| && l.fat[c] != 0
  {
    var h :| h in t.chains && c in t.chains[h];
    OwnedInUse(g, l, t.chains[h], c);
  }

  /** A slot filled in vain: all the clusters taken for it are lost. */
  lemma LostVain(g: Geometry, l0: Logical, t: Tree, ch: seq<nat>, l3: Logical)
    requires Shaped(g, l0) && Shaped(g, l3) && WF(g, l0, t)
    requires forall c :: 0 <= c < g.count + 2 && c !in ch ==> l3.fat[c] == l0.fat[c]
    requires ch != [] ==> IsChain(g, l3, ch) && forall c :: c in ch ==> c < |l0.fat| && l0.fat[c] == 0
    ensures Lost(g, l3, t) == Lost(g, l0, t) + Elems(ch) && Lost(g, l0, t) !! Elems(ch) && |Elems(ch)| == |ch|
  {
    WFChains(g, l0, t);
    hide WF, ChainsOk, Shaped, Owns;
    forall c | c in ch ensures ValidCluster(g, c) && l3.fat[c] != 0 && !Owns(t, c) {
      OwnedInUse(g, l3, ch, c);
      if Owns(t, c) { OwnedFat(g, l0, t, c); }
    }
    DistinctSize(ch);
  }

  /** What a slot strands was never lost before. */
  lemma OrphansOwned(g: Geometry, l: Logical, t: Tree, f: nat)
    requires |l.fat| == g.count + 2
    ensures Orphans(g, t, f) !! Lost(g, l, t)
  {
    forall c | Stranded(t, f, c) ensures Owns(t, c) {
      var h :| h in t.chains && h != f && Below(t, f, h) && c in t.chains[h];
    }
  }
}
