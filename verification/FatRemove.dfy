/** Making and removing directories, and deleting files. */
module FatRemove {
  import opened Basics
  import opened FatBytes
  import opened FatVolume
  import opened FatDevice
  import opened FatChains
  import opened FatData
  import opened FatDirs
  import opened FatNames
  import opened FatTree
  import opened FatCommit
  import opened FatPrune
  import opened FatOrphans
  import opened FatPaths
  import opened FatCommitPaths
  import opened FatEffects
  import opened FatSteps
  import opened FatOps

  // --- making a directory ---

  function FirstDirSector(self: u32, parent: u32): (r: Sector)
    ensures SlotIn(r, 0) == MakeSlot(DotName(), ATTR_DIRECTORY, self, 0)
    ensures SlotIn(r, 1) == MakeSlot(DotDotName(), ATTR_DIRECTORY, parent, 0)
    ensures forall e :: 2 <= e < 16 ==> SlotIn(r, e)[0] == 0
  {
    PatchSlot(PatchSlot(ZeroSector(), 0, MakeSlot(DotName(), ATTR_DIRECTORY, self, 0)),
              1, MakeSlot(DotDotName(), ATTR_DIRECTORY, parent, 0))
  }

  /** Puts the dot entries in the first sector of a fresh cluster and zeroes the others. */
  method InitDirCluster(v: Volume, c: nat, parent: u32) returns (r: Result<()>)
    requires v.Valid() && ValidCluster(v.g, c) && c < 0x1_0000_0000
    modifies v`disk, v`log, v`trail, v`faults, v`accesses
    ensures v.Valid() && v.faults >= old(v.faults)
    ensures r.Ok? <==> v.faults == old(v.faults)
    ensures r.Err? ==> r.error == Block
    ensures OnlyContents(v.g, old(v.log), v.log, [c])
    ensures TrailContents(v.g, old(v.log), old(v.trail), v.trail, [c])
    ensures r.Ok? ==>
              var dotdot := if parent == v.g.root then 0 else parent;
              forall s :: 0 <= s < v.g.spc ==>
                v.log.data[c][s] == if s == 0 then FirstDirSector(c, dotdot) else ZeroSector()
    ensures DiskStep(v.g, old(v.disk), v.disk, true)
  {
    hide LogOf, FatEnd, DataEnd, FirstSector, RawEntry, Kept, Mirrored, FirstDirSector, ZeroSector;
    var g := v.g;
    ghost var d0 := v.disk;
    DiskStepRefl(g, d0);
    var dotdot := if parent == g.root then 0 else parent;
    var _ :- v.WriteData(c, 0, FirstDirSector(c, dotdot));
    var s := 1;
    while s < g.spc
      invariant 1 <= s <= g.spc && v.Valid() && v.faults == old(v.faults)
      invariant OnlyContents(g, old(v.log), v.log, [c]) && TrailContents(g, old(v.log), old(v.trail), v.trail, [c])
      invariant forall i :: 0 <= i < s ==>
                  v.log.data[c][i] == if i == 0 then FirstDirSector(c, dotdot) else ZeroSector()
      invariant DiskStep(g, d0, v.disk, true)
    {
      ghost var d1 := v.disk;
      var w := v.WriteData(c, s, ZeroSector());
      DiskStepTrans(g, d0, d1, v.disk, true, true);
      if w.Err? { return Err(Block); }
      s := s + 1;
    }
    r := Ok(());
  }

  /** A freshly initialised directory has no entries, and its end mark follows the dot entries. */
  lemma FreshDirVacuous(g: Geometry, l: Logical, c: nat, parent: u32)
    requires Shaped(g, l) && 1 <= g.spc && ValidCluster(g, c) && c < 0x1_0000_0000
    requires forall s :: 0 <= s < g.spc ==> l.data[c][s] == if s == 0 then FirstDirSector(c, parent) else ZeroSector()
    ensures Vacuous(l, ChainPos(g.spc, [c]))
  {
    hide ChainPos, SlotAt, Entry;
    var ps := ChainPos(g.spc, [c]);
    FirstTwo(g.spc, c);
    ChainPosMembers(g.spc, [c]);
    ChainPosDistinct(g.spc, [c]);
    forall q | q in ps ensures !Entry(SlotAt(l, q)) && (SlotAt(l, q)[0] == 0 <==> q != ps[0] && q != ps[1]) {
      FreshDirSlot(g, l, c, parent, q);
    }
    assert forall i :: 0 <= i < |ps| ==> ps[i] in ps;
  }

  lemma FreshDirSlot(g: Geometry, l: Logical, c: nat, parent: u32, q: Pos)
    requires Shaped(g, l) && ValidCluster(g, c) && c < 0x1_0000_0000 && q.c == c && q.s < g.spc && q.e < 16
    requires l.data[c][q.s] == if q.s == 0 then FirstDirSector(c, parent) else ZeroSector()
    ensures !Entry(SlotAt(l, q)) && (SlotAt(l, q)[0] == 0 <==> q != Pos(c, 0, 0) && q != Pos(c, 0, 1))
  {
    hide MakeSlot, FirstDirSector, ZeroSector, SlotIn, SlotName;
    DotsInUse(c, parent);
  }

  lemma DotsInUse(c: u32, parent: u32)
    ensures SlotIn(FirstDirSector(c, parent), 0)[0] != 0 && SlotIn(FirstDirSector(c, parent), 1)[0] != 0
  {
    assert SlotName(MakeSlot(DotName(), ATTR_DIRECTORY, c, 0))[0] == PERIOD;
    assert SlotName(MakeSlot(DotDotName(), ATTR_DIRECTORY, parent, 0))[0] == PERIOD;
  }

  lemma FirstTwo(spc: nat, c: nat)
    requires 1 <= spc
    ensures var ps := ChainPos(spc, [c]); |ps| >= 2 && ps[0] == Pos(c, 0, 0) && ps[1] == Pos(c, 0, 1)
  {
    assert ChainPos(spc, [c]) == ClusterPos(spc, c, 0) + ChainPos(spc, [c][1..]);
    assert ClusterPos(spc, c, 0) == SectorPos(c, 0, 0) + ClusterPos(spc, c, 1);
  }

  /** Everything `CommitSlot` asks for when a directory is made. */
  lemma DirReady(
    g: Geometry, l0: Logical, l1: Logical, t: Tree, path: seq<Name>, d: nat, place: Place, c: u32)
    requires Shaped(g, l0) && Shaped(g, l1) && WF(g, l0, t) && 1 <= g.spc && OnlyFree(g, l0, l1)
    requires NoDots(path) && path != [] && DirOf(g, l0, path[..|path| - 1]) == Ok(d)
    requires GoodName(path[|path| - 1]) || path[|path| - 1][0] == 0xE5
    requires place == Locate(l0, DirPos(g, l0, d), path[|path| - 1], None) && place.Vacant?
    requires c < |l0.fat| && IsChain(g, l1, [c]) && l0.fat[c] == 0 && Vacuous(l1, ChainPos(g.spc, [c])) && c != 0
    ensures var n := MakeSlot(path[|path| - 1], ATTR_DIRECTORY, c, 0);
            && InVolume(g, place.at) && Shaped(g, SetSlot(g, l1, place.at, n)) && (Entry(n) ==> Ref(n) == c)
            && (Entry(n) <==> GoodName(path[|path| - 1]))
            && (if Entry(n)
                then Commits(g, l1, t, path, d, place.at, n, [c])
                     && ReadPath(g, SetSlot(g, l1, place.at, n), path) == Err(IsADirectory)
                else Vain(g, l1, t, path, d, place.at, n))
            && Ref(SlotAt(l1, place.at)) == 0
  {
    hide WF, Scan, SlotAt, Shaped, Locate, DirOf, DirPos, Slots, MakeSlot, IsChain, OnlyFree, Entry, SlotFits,
      ObjectFits, SetSlot, ReadPath, FindPath, Commits, SlotName, SlotIsDir, SlotSize, SlotFirst, Untouched, Vacuous,
      Vain;
    var name := path[|path| - 1];
    var n := MakeSlot(name, ATTR_DIRECTORY, c, 0);
    FreeUntouched(g, l0, l1, t);
    UntouchedWF(g, l0, l1, t);
    FileSlot(name, ATTR_DIRECTORY, c, 0);
    UnusedUnowned(g, l0, t, c);
    ReadyToCommit(g, l0, l1, t, path, d, place, n, [c]);
    if Entry(n) {
      DirFits(g, l1, t, n, c);
      DirReads(g, l1, t, path, d, place.at, n, [c]);
    } else {
      SetSlotShape(g, l1, place.at, n);
    }
  }

  lemma DirFits(g: Geometry, l: Logical, t: Tree, n: Slot, c: nat)
    requires Entry(n) && Ref(n) == c && c != 0 && SlotIsDir(n)
    requires IsChain(g, l, [c]) && Vacuous(l, ChainPos(g.spc, [c])) && !Owns(t, c)
    ensures ObjectFits(g, l, t, n, [c])
  {
    hide IsChain, Vacuous, Owns, Entry, ChainPos;
  }

  lemma DirReads(g: Geometry, l1: Logical, t: Tree, path: seq<Name>, d: nat, p: Pos, n: Slot, ch: seq<nat>)
    requires Shaped(g, l1) && InVolume(g, p) && Commits(g, l1, t, path, d, p, n, ch)
    requires 1 <= g.spc && Entry(n) && SlotIsDir(n)
    ensures Shaped(g, SetSlot(g, l1, p, n)) && ReadPath(g, SetSlot(g, l1, p, n), path) == Err(IsADirectory)
  {
    hide WF, SlotAt, SetSlot, After, Commits, DirOf, Slots, SlotIsDir;
    var l2, t2 := SetSlot(g, l1, p, n), After(t, d, p, SlotAt(l1, p), n, ch);
    CommitsOneSlot(g, l1, t, path, d, p, n, ch);
    CommitTarget(g, l1, t, l2, t2, path, d, p);
  }

  lemma FreshDirChain(g: Geometry, l0: Logical, l1: Logical, l2: Logical, c: nat)
    requires Shaped(g, l0) && ValidCluster(g, c) && l0.fat[c] == 0 && l1 == SetFat(l0, c, EOC)
    requires OnlyContents(g, l1, l2, [c])
    ensures c < |l0.fat| && IsChain(g, l1, [c]) && IsChain(g, l2, [c]) && OnlyFree(g, l0, l2) && OnlyFree(g, l0, l1)
    ensures Taken(g, l0, l2, c, [c])
  {
  }

  lemma ParentMissing(g: Geometry, l: Logical, names: seq<Name>)
    requires Shaped(g, l)
    ensures names == [] || DirOf(g, l, names[..|names| - 1]).Err? ==> FindPath(g, l, names).Err?
    ensures names != [] && DirOf(g, l, names[..|names| - 1]).Err? ==>
              DirOf(g, l, names[..|names| - 1]).error != AlreadyExists
  {
    hide Scan, DirPos;
    if names != [] { DirErrors(g, l, names[..|names| - 1]); }
  }

  /** Takes a cluster and makes an empty directory of it; gives it back when that fails. */
  method BuildDirectory(v: Volume, parent: u32) returns (r: Result<nat>)
    requires v.Valid() && 1 <= v.g.spc
    modifies v
    ensures v.Valid() && v.faults >= old(v.faults) && v.slips >= old(v.slips)
    ensures r.Err? ==> r.error == NoSpace || r.error == Block
    ensures r.Ok? ==>
              && v.faults == old(v.faults) && ValidCluster(v.g, r.value) && 0 < r.value < 0x1_0000_0000
              && r.value < |old(v.log).fat| && old(v.log).fat[r.value] == 0 && IsChain(v.g, v.log, [r.value])
              && Taken(v.g, old(v.log), v.log, r.value, [r.value]) && Vacuous(v.log, ChainPos(v.g.spc, [r.value]))
              && DotsOf(v.g, v.log, r.value, parent)
    ensures r.Err? && v.faults == old(v.faults) ==>
              r.error == NoSpace && v.log == old(v.log) && |FreeSet(v.g, old(v.log))| < 1
    ensures r.Err? && r.error == NoSpace ==> v.faults == old(v.faults)
    ensures r == Err(Block) && v.faults == old(v.faults) + 1 && v.slips == old(v.slips) ==>
              v.log.fat == old(v.log).fat
    ensures OnlyFree(v.g, old(v.log), v.log)
    ensures TrailFree(v.g, old(v.log), old(v.trail), v.trail)
    ensures DiskStep(v.g, old(v.disk), v.disk, v.faults == old(v.faults))
  {
    hide LogOf, FatEnd, DataEnd, FirstSector, RawEntry, Kept, Mirrored, DiskStep, FirstDirSector, ZeroSector, ChainPos,
      Vacuous, DotsOf, TrailContents, TrailFree;
    var g := v.g;
    ghost var l0, d0, t0 := v.log, v.disk, v.trail;
    r := AllocCluster(v);
    if r.Err? { return; }
    var c := r.value;
    ghost var l1, d1, t1 := v.log, v.disk, v.trail;
    SaneCluster(g, c);
    var made := InitDirCluster(v, c, parent);
    FreshDirChain(g, l0, l1, v.log, c);
    DiskStepTrans(g, d0, d1, v.disk, true, true);
    TrailFreeContents(g, l0, l1, t0, t1, v.trail, [c]);
    if made.Err? {
      DiskFalse(g, d0, v.disk);
      TakenBack(g, l0, v.log, [c]);
      GiveBack(v, c, [c], l0, d0, t0, false);
      return Err(Block);
    }
    FreshDirVacuous(g, v.log, c, if parent == g.root then 0 else parent);
    FirstSlots(g, v.log, c, parent);
  }

  /** Once the place is known: the new cluster, and the slot that names it. */
  method PutDirectory(v: Volume, place: Place, target: Name, d: u32, ghost t: Tree, ghost names: seq<Name>)
    returns (r: Result<()>, ghost t': Tree)
    requires Ready(v, t) && NoDots(names) && names != [] && target == names[|names| - 1]
    requires (Storable(names) <==> GoodName(target)) && (GoodName(target) || target[0] == 0xE5)
    requires DirOf(v.g, v.log, names[..|names| - 1]) == Ok(d)
    requires place == Locate(v.log, DirPos(v.g, v.log, d), target, None) && place.Vacant?
    modifies v
    ensures v.Valid() && v.faults >= old(v.faults)
    ensures Effect(v.g, old(v.log), t, old(v.trail), v.log, t', v.trail, names, Err(IsADirectory),
                   r.Ok? && Storable(names))
    ensures DiskStep(v.g, old(v.disk), v.disk, v.faults == old(v.faults))
    ensures v.faults == old(v.faults) && r.Err? ==>
              v.log == old(v.log) && r.error == NoSpace && |FreeSet(v.g, old(v.log))| < 1
    ensures r == Err(Block) && v.faults == old(v.faults) + 1 && v.slips == old(v.slips) ==>
              v.log.fat == old(v.log).fat
    ensures v.faults == old(v.faults) && Storable(names) ==> Lost(v.g, v.log, t') == Lost(v.g, old(v.log), t)
    ensures v.faults == old(v.faults) && r.Ok? && !Storable(names) ==>
              && Lost(v.g, old(v.log), t) <= Lost(v.g, v.log, t')
              && |Lost(v.g, v.log, t')| == |Lost(v.g, old(v.log), t)| + 1
    ensures r.Ok? && Storable(names) ==> DotsOf(v.g, v.log, Target(v.g, v.log, names), d)
  {
    hide LogOf, FatEnd, DataEnd, FirstSector, RawEntry, Kept, Mirrored, WF, Effect, DiskStep, OnlyFree, TrailFree,
      ReadPath, Lost, Scan, SlotAt, GoodName, Locate, DirOf, DirPos, MakeSlot, IsChain, Entry, SetSlot, FindPath,
      Commits, ChainPos, SlotFirst, Vacuous, Vain, Orphans, Elems, Ref, Taken, Storable, DotsOf, Target, FreeSet;
    var g := v.g;
    ghost var l0, d0, t0 := v.log, v.disk, v.trail;
    t' := t;
    var made := BuildDirectory(v, d);
    NoEffect(g, l0, t, t0, v.log, v.trail, names, Err(IsADirectory));
    if made.Err? { r := Err(made.error); return; }
    var c := made.value;
    ghost var l2 := v.log;
    DirReady(g, l0, v.log, t, names, d, place, c);
    ghost var n := MakeSlot(target, ATTR_DIRECTORY, c, 0);
    r, t' := CommitSlot(v, place.at, target, ATTR_DIRECTORY, c, 0, 0,
                        n, l0, d0, t0, t, names, d, [c], Err(IsADirectory));
    if v.faults == old(v.faults) { MadePrice(g, l0, t, v.log, t', n, [c]); }
    if r.Ok? && Entry(n) { DotsStay(g, l0, l2, t, names, d, place.at, n, c); }
  }

  /** Makes a directory: a fresh cluster with dot entries, then the slot that names it. */
  method Mkdir(v: Volume, path: seq<byte>, ghost t: Tree) returns (r: Result<()>, ghost t': Tree)
    requires Ready(v, t) && 0 !in path
    modifies v
    ensures v.Valid() && v.faults >= old(v.faults)
    ensures Effect(v.g, old(v.log), t, old(v.trail), v.log, t', v.trail, ShortNames(path), Err(IsADirectory),
                   r.Ok? && Storable(ShortNames(path)))
    ensures DiskStep(v.g, old(v.disk), v.disk, v.faults == old(v.faults))
    ensures v.faults == old(v.faults) && r.Err? ==> v.log == old(v.log)
    ensures r == Err(Block) && v.faults == old(v.faults) + 1 && v.slips == old(v.slips) ==>
              v.log.fat == old(v.log).fat
    ensures v.faults == old(v.faults) ==>
              (r.Err? && r.error == AlreadyExists <==> FindPath(v.g, old(v.log), ShortNames(path)).Ok?)
    ensures v.faults == old(v.faults) && r.Err? ==>
              r.error == AlreadyExists || Refused(v.g, old(v.log), ShortNames(path), 1, r.error)
    ensures v.faults == old(v.faults) && Storable(ShortNames(path)) ==>
              Lost(v.g, v.log, t') == Lost(v.g, old(v.log), t)
    ensures v.faults == old(v.faults) && r.Ok? && !Storable(ShortNames(path)) ==>
              && Lost(v.g, old(v.log), t) <= Lost(v.g, v.log, t')
              && |Lost(v.g, v.log, t')| == |Lost(v.g, old(v.log), t)| + 1
    ensures r.Ok? ==> ShortNames(path) != [] && DirOf(v.g, old(v.log), ShortNames(path)[..|ShortNames(path)| - 1]).Ok?
    ensures r.Ok? && Storable(ShortNames(path)) ==>
              DotsOf(v.g, v.log, Target(v.g, v.log, ShortNames(path)),
                     DirOf(v.g, old(v.log), ShortNames(path)[..|ShortNames(path)| - 1]).value)
  {
    hide LogOf, FatEnd, DataEnd, FirstSector, RawEntry, Kept, Mirrored, WF, Effect, DiskStep, OnlyFree, TrailFree,
      ReadPath, Lost, Scan, SlotAt, GoodName, Locate, DirOf, DirPos, MakeSlot, IsChain, Entry, SetSlot, FindPath,
      Commits, ChainPos, ShortNames, SlotFirst, Vain, Orphans, Elems, Ref, DotsOf, Target, FreeSet;
    var g := v.g;
    ghost var l0, d0, t0 := v.log, v.disk, v.trail;
    var names := ShortNames(path);
    ShortNoDots(path);
    StorableNames(path);
    t' := t;
    Start(v, t, names, Err(IsADirectory));
    var parent := ResolveParent(v, names);
    ParentMissing(g, l0, names);
    if parent.Err? { r := Err(parent.error); return; }
    var target := names[|names| - 1];
    var slot := LocateOrFreeSlot(v, parent.value, target);
    FoundOrFree(g, l0, t, names, parent.value);
    if slot.Err? { r := Err(slot.error); return; }
    var place := slot.value.0;
    if place.Existing? { r := Err(AlreadyExists); return; }
    SmallParent(g, l0, t, names, parent.value);
    r, t' := PutDirectory(v, place, target, parent.value, t, names);
  }

  /** The first two slots of directory `c`: itself under one period, and what it lies in under two, the root
      as 0. */
  ghost predicate DotsOf(g: Geometry, l: Logical, c: nat, parent: nat) {
    var dot, dots := SlotAt(l, Pos(c, 0, 0)), SlotAt(l, Pos(c, 0, 1));
    && SlotName(dot) == DotName() && SlotIsDir(dot) && SlotFirst(dot) == c
    && SlotName(dots) == DotDotName() && SlotIsDir(dots) && SlotFirst(dots) == if parent == g.root then 0 else parent
  }

  lemma FirstSlots(g: Geometry, l: Logical, c: nat, parent: u32)
    requires Shaped(g, l) && 1 <= g.spc && ValidCluster(g, c) && c < 0x1_0000_0000
    requires l.data[c][0] == FirstDirSector(c, if parent == g.root then 0 else parent)
    ensures DotsOf(g, l, c, parent)
  {
    hide FirstDirSector, SlotIn;
    FileSlot(DotName(), ATTR_DIRECTORY, c, 0);
    FileSlot(DotDotName(), ATTR_DIRECTORY, if parent == g.root then 0 else parent, 0);
    hide MakeSlot;
  }

  /** The commit leaves the new directory's own slots alone, and its path leads to it. */
  lemma DotsStay(g: Geometry, l0: Logical, l: Logical, t: Tree, path: seq<Name>, d: nat, p: Pos, n: Slot, c: nat)
    requires Shaped(g, l0) && Shaped(g, l) && InVolume(g, p) && Commits(g, l, t, path, d, p, n, [c]) && Entry(n)
    requires Ref(n) == c && WF(g, l0, t) && c < |l0.fat| && l0.fat[c] == 0 && DotsOf(g, l, c, d)
    ensures var l' := SetSlot(g, l, p, n);
            Shaped(g, l') && Target(g, l', path) == c && DotsOf(g, l', c, d)
  {
    hide WF, SetSlot, DirOf, After, SlotFits, ObjectFits, Slots, Owns;
    CommitsOneSlot(g, l, t, path, d, p, n, [c]);
    var l', t' := SetSlot(g, l, p, n), After(t, d, p, SlotAt(l, p), n, [c]);
    CommitTarget(g, l, t, l', t', path, d, p);
    UnusedUnowned(g, l0, t, c);
    if p.c == c { OwnedBy(t, d, c); }
    hide SlotAt, Shaped, SlotFirst;
  }

  lemma MadePrice(g: Geometry, l0: Logical, t: Tree, l: Logical, t': Tree, n: Slot, ch: seq<nat>)
    requires Shaped(g, l0) && Shaped(g, l) && WF(g, l0, t)
    requires Lost(g, l, t') == Lost(g, l0, t) + Price(g, t, n, 0, ch)
    requires !Entry(n) ==> Lost(g, l0, t) !! Elems(ch) && |Elems(ch)| == |ch|
    ensures if Entry(n) then Lost(g, l, t') == Lost(g, l0, t)
            else Lost(g, l0, t) <= Lost(g, l, t') && |Lost(g, l, t')| == |Lost(g, l0, t)| + |ch|
  {
    hide WF, Lost, Entry, Elems, Orphans;
    if Entry(n) {
      NothingBelowZero(g, l0, t);
    } else {
      Enlarged(Lost(g, l0, t), Elems(ch), Lost(g, l, t'));
    }
  }

  lemma NothingBelowZero(g: Geometry, l: Logical, t: Tree)
    requires WF(g, l, t)
    ensures Orphans(g, t, 0) == {}
  {
    NoZeroDir(g, l, t);
    StrandsNothing(g, l, t, 0);
  }

  lemma SaneCluster(g: Geometry, c: nat)
    requires Sane(g) && ValidCluster(g, c)
    ensures c < 0x1_0000_0000 && c != 0
  {
  }

  lemma SmallParent(g: Geometry, l: Logical, t: Tree, path: seq<Name>, d: nat)
    requires Shaped(g, l) && WF(g, l, t) && NoDots(path) && path != [] && DirOf(g, l, path[..|path| - 1]) == Ok(d)
    ensures d < 0x1_0000_0000
  {
    DirInTree(g, l, t, path[..|path| - 1]);
    assert ValidCluster(g, t.chains[d][0]);
  }

  // --- deleting ---

  /** The slot a path leads to can be marked deleted. */
  lemma CanDelete(g: Geometry, l: Logical, t: Tree, path: seq<Name>, d: nat, p: Pos)
    requires Shaped(g, l) && WF(g, l, t) && 1 <= g.spc && NoDots(path) && path != []
    requires DirOf(g, l, path[..|path| - 1]) == Ok(d) && Scan(l, DirPos(g, l, d), path[|path| - 1]) == Some(p)
    ensures Commits(g, l, t, path, d, p, Deleted(SlotAt(l, p)), []) && Entry(SlotAt(l, p)) && SlotAt(l, p)[0] != 0xE5
    ensures InVolume(g, p) && Ref(SlotAt(l, p)) == SlotFirst(SlotAt(l, p))
    ensures SlotIsDir(SlotAt(l, p)) <==> SlotFirst(SlotAt(l, p)) in t.dirs
  {
    hide WF, Scan, SlotAt, GoodName, Shaped, DirOf, DirPos, Slots, SlotName, SlotFirst, SlotIsDir, RefOk, Deleted,
      SlotFits, ObjectFits, Entry, Ref;
    DirInTree(g, l, t, path[..|path| - 1]);
    FoundEntry(g, l, t, d, path[|path| - 1]);
    TreeKeys(g, l, t, d);
    OldRef(g, l, t, d, p);
    LiveRef(SlotAt(l, p));
    DeletedFits(g, l, t, d, p);
    RefKind(g, l, t, d, p, SlotAt(l, p));
  }

  lemma LiveRef(s: Slot)
    requires Entry(s)
    ensures s[0] != 0xE5 && Ref(s) == SlotFirst(s)
  {
  }

  lemma DeletedFits(g: Geometry, l: Logical, t: Tree, d: nat, p: Pos)
    requires d in t.chains && p in Slots(g, t, d) && Entry(SlotAt(l, p))
    ensures var n := Deleted(SlotAt(l, p)); !Entry(n) && SlotFits(g, l, t, d, p, n) && ObjectFits(g, l, t, n, [])
  {
    hide SlotAt, Slots;
  }

  lemma RefKind(g: Geometry, l: Logical, t: Tree, d: nat, p: Pos, s: Slot)
    requires WF(g, l, t) && d in t.depth && RefOk(g, t, d, p, s)
    ensures SlotIsDir(s) <==> SlotFirst(s) in t.dirs
  {
    NoZeroDir(g, l, t);
    hide WF, GoodName, SlotName, SlotFirst, SlotIsDir, SlotSize;
  }

  /** Marks the slot first and frees the chain after, so no slot ever names a freed cluster. The mark
      can take effect and the call still fail: that is when the table refuses a later access. */
  method RemoveEntry(v: Volume, p: Pos, first: nat, ghost t: Tree, ghost path: seq<Name>, ghost d: nat)
    returns (r: Result<()>, ghost t': Tree, ghost done: bool)
    requires v.Valid() && Shaped(v.g, v.log) && 1 <= v.g.spc
    requires InVolume(v.g, p) && Commits(v.g, v.log, t, path, d, p, Deleted(SlotAt(v.log, p)), [])
    requires Entry(SlotAt(v.log, p)) && first == Ref(SlotAt(v.log, p))
    modifies v
    ensures v.Valid() && v.faults >= old(v.faults)
    ensures Effect(v.g, old(v.log), t, old(v.trail), v.log, t', v.trail, path, Err(NotFound), done)
    ensures done <==> SlotAt(v.log, p)[0] == 0xE5
    ensures !done ==> v.log == old(v.log)
    ensures r.Ok? <==> v.faults == old(v.faults)
    ensures r.Err? ==> r.error == Block
    ensures r.Ok? ==> done
    ensures first == 0 ==> (r.Ok? <==> done)
    ensures var a := old(v.accesses);
            && (done <==> a !in v.refused && a + 1 !in v.refused)
            && (done && first != 0 && a + 2 in v.refused ==> r.Err?)
    ensures DiskStep(v.g, old(v.disk), v.disk, v.faults == old(v.faults))
    ensures v.faults == old(v.faults) ==>
              Lost(v.g, v.log, t') == Lost(v.g, old(v.log), t) + Orphans(v.g, t, first)
  {
    hide LogOf, FatEnd, DataEnd, FirstSector, RawEntry, Kept, Mirrored, WF, Effect, DiskStep, OnlyFree, ReadPath, Lost,
      SetSlot, SlotAt, Entry, IsChain, Owns, Switched, Commits, Deleted, Shaped, After, Orphans, Ref;
    var g := v.g;
    ghost var l0, d0, t0 := v.log, v.disk, v.trail;
    ghost var n := Deleted(SlotAt(l0, p));
    RemovesFacts(g, l0, t, path, d, p, n);
    ghost var l2, t2 := SetSlot(g, l0, p, n), After(t, d, p, SlotAt(l0, p), n, []);
    t', done := t, false;
    r := ClearDirEntry(v, p);
    OnlyFreeRefl(g, l0, t0);
    if r.Err? {
      NoEffect(g, l0, t, t0, v.log, v.trail, path, Err(NotFound));
      DiskFalse(g, d0, v.disk);
      return;
    }
    t', done := t2, true;
    GoneReads(g, l0, t, path, d, p, n);
    SameReadsRefl(g, l0);
    CommitSwitches(g, l0, l0, t, path, d, p, n, [], Err(NotFound));
    ghost var cs: seq<nat> := [];
    ghost var d2 := v.disk;
    if first != 0 {
      cs := t.chains[first];
      OldChainLoose(g, l0, t, path, d, p, n, []);
      r := FreeChain(v, first, cs);
      DiskStepTrans(g, d0, d2, v.disk, true, v.faults == old(v.faults));
    }
    DoneEffect(g, l0, t, t0, t0, l2, t2, v.log, v.trail, cs, path, Err(NotFound));
    MarkStays(g, l0, v.log, p, n, cs);
    if v.faults == old(v.faults) {
      FinalFat(g, l0, v.log, t, path, d, p, n, [], cs);
      LostAfter(g, l0, l0, t, path, d, p, n, [], v.log);
    }
  }

  lemma RemovesFacts(g: Geometry, l: Logical, t: Tree, path: seq<Name>, d: nat, p: Pos, n: Slot)
    requires Commits(g, l, t, path, d, p, n, []) && Entry(SlotAt(l, p)) && n[0] == 0xE5
    ensures WF(g, l, t) && NoDots(path) && SlotAt(l, p)[0] != 0xE5 && Ref(n) == 0
    ensures var f := Ref(SlotAt(l, p)); 0 !in t.chains && (f != 0 ==> f in t.chains && ValidCluster(g, f))
  {
    OldRef(g, l, t, d, p);
    WFChains(g, l, t);
    NoZeroDir(g, l, t);
    KeyValid(g, l, t, Ref(SlotAt(l, p)));
    hide WF, SlotAt, Slots, DirOf, SlotFits, ObjectFits;
  }

  lemma GoneReads(g: Geometry, l: Logical, t: Tree, path: seq<Name>, d: nat, p: Pos, n: Slot)
    requires Shaped(g, l) && InVolume(g, p) && 1 <= g.spc && Commits(g, l, t, path, d, p, n, [])
    requires n[0] == 0xE5 && Entry(SlotAt(l, p))
    ensures Shaped(g, SetSlot(g, l, p, n)) && ReadPath(g, SetSlot(g, l, p, n), path) == Err(NotFound)
  {
    CommitsOneSlot(g, l, t, path, d, p, n, []);
    var l2, t2 := SetSlot(g, l, p, n), After(t, d, p, SlotAt(l, p), n, []);
    hide WF, SlotAt, SetSlot, After, DirOf, Slots, SlotFits, ObjectFits;
    CommitTarget(g, l, t, l2, t2, path, d, p);
  }

  lemma SameReadsRefl(g: Geometry, l: Logical)
    requires Shaped(g, l) && 1 <= g.spc
    ensures SameReads(g, l, l)
  {
  }

  lemma KeyValid(g: Geometry, l: Logical, t: Tree, f: nat)
    requires ChainsOk(g, l, t)
    ensures f in t.chains ==> ValidCluster(g, f)
  {
    if f in t.chains { assert ValidCluster(g, t.chains[f][0]); }
  }

  /** Clearing table entries does not touch the mark. */
  lemma MarkStays(g: Geometry, l0: Logical, l3: Logical, p: Pos, n: Slot, cs: seq<nat>)
    requires Shaped(g, l0) && InVolume(g, p) && OnlyEntries(SetSlot(g, l0, p, n), l3, cs)
    ensures SlotAt(l3, p) == n
  {
    SetSlotShape(g, l0, p, n);
    hide SetSlot, SlotIn;
  }

  lemma DiskFalse(g: Geometry, d0: Disk, d: Disk)
    requires Sane(g) && Holds(g, d0) && Holds(g, d) && DiskStep(g, d0, d, true)
    ensures DiskStep(g, d0, d, false)
  {
  }

  lemma OnlyFreeRefl(g: Geometry, l: Logical, t: seq<Logical>)
    requires Shaped(g, l)
    ensures TrailFree(g, l, t, t) && OnlyFree(g, l, l)
  {
  }

  /** Whether the mark of the entry `names` led to has reached the disk. */
  ghost predicate Marked(g: Geometry, l0: Logical, l: Logical, names: seq<Name>)
    requires Shaped(g, l0)
  {
    var p := FindPath(g, l0, names);
    p.Ok? && SlotAt(l, p.value)[0] == 0xE5
  }

  /** The entry `names` leads to has no clusters, so there is nothing to do once it is marked. */
  ghost predicate Chainless(g: Geometry, l: Logical, names: seq<Name>)
    requires Shaped(g, l)
  {
    var p := FindPath(g, l, names);
    p.Ok? ==> SlotFirst(SlotAt(l, p.value)) == 0
  }

  lemma NotMarked(g: Geometry, l: Logical, t: Tree, names: seq<Name>)
    requires Shaped(g, l) && WF(g, l, t) && NoDots(names)
    ensures !Marked(g, l, l, names)
  {
    hide WF, GoodName, FindPath, SlotAt, SlotName, Slots, DirOf, RefOk;
    if FindPath(g, l, names).Ok? {
      NamesThere(g, l, names);
      FoundPath(g, l, t, names);
    }
  }

  lemma NamesThere(g: Geometry, l: Logical, names: seq<Name>)
    requires Shaped(g, l) && FindPath(g, l, names).Ok?
    ensures names != []
  {
  }

  /** Both succeed, or both fail with the same error. */
  ghost predicate SameOutcome<T, U>(a: Result<T>, b: Result<U>) {
    match a
    case Ok(_) => b.Ok?
    case Err(e) => b == Err(e)
  }

  /** Deletes a file. Refused by nobody, it answers as reading the file would. */
  method Unlink(v: Volume, path: seq<byte>, ghost t: Tree) returns (r: Result<()>, ghost t': Tree, ghost done: bool)
    requires Ready(v, t)
    modifies v
    ensures v.Valid() && v.faults >= old(v.faults)
    ensures Effect(v.g, old(v.log), t, old(v.trail), v.log, t', v.trail, ShortNames(path), Err(NotFound), done)
    ensures done <==> Marked(v.g, old(v.log), v.log, ShortNames(path))
    ensures !done ==> v.log == old(v.log)
    ensures r.Err? && r.error == Block <==> v.faults > old(v.faults)
    ensures r.Ok? ==> done
    ensures r.Err? && done ==> v.faults > old(v.faults) && !Chainless(v.g, old(v.log), ShortNames(path))
    ensures DiskStep(v.g, old(v.disk), v.disk, v.faults == old(v.faults))
    ensures v.faults == old(v.faults) ==> Lost(v.g, v.log, t') == Lost(v.g, old(v.log), t)
    ensures v.faults == old(v.faults) ==> SameOutcome(r, ReadPath(v.g, old(v.log), ShortNames(path)))
  {
    hide LogOf, FatEnd, DataEnd, FirstSector, RawEntry, Kept, Mirrored, WF, Effect, DiskStep, Lost, Commits, Ref, Scan,
      SlotAt, GoodName, DirOf, DirPos, Entry, Shaped, ShortNames, ReadFrom, Slots, Orphans, SlotFirst, SlotIsDir;
    var g := v.g;
    ghost var l0 := v.log;
    var names := ShortNames(path);
    ShortNoDots(path);
    t', done := t, false;
    Start(v, t, names, Err(NotFound));
    NotMarked(g, l0, t, names);
    var parent := ResolveParent(v, names);
    if parent.Err? { r := Err(parent.error); return; }
    var found := LocateEntry(v, parent.value, names[|names| - 1]);
    if found.Err? { r := Err(found.error); return; }
    if found.value.None? { r := Err(NotFound); return; }
    var (p, slot) := found.value.value;
    if SlotIsDir(slot) { r := Err(IsADirectory); return; }
    CanDelete(g, l0, t, names, parent.value, p);
    StrandsNothing(g, l0, t, SlotFirst(slot));
    r, t', done := RemoveEntry(v, p, SlotFirst(slot), t, names, parent.value);
  }

  // --- removing a directory ---

  /** The verdict on readable names: every live slot is shown as a dot entry. */
  predicate AllDots(items: seq<Slot>) { forall i :: 0 <= i < |items| ==> ShownAsDots(SlotName(items[i])) }

  lemma AllDotsAppend(a: seq<Slot>, b: seq<Slot>)
    ensures AllDots(a + b) <==> AllDots(a) && AllDots(b)
  {
    hide ShownAsDots, SlotName;
    var s := a + b;
    if AllDots(s) {
      assert forall i :: 0 <= i < |a| ==> a[i] == s[i];
      forall i | 0 <= i < |b| ensures ShownAsDots(SlotName(b[i])) {
        assert b[i] == s[|a| + i];
      }
    }
  }

  lemma OneDots(s: Slot, head: seq<Slot>)
    requires head == if SlotLive(s) then [s] else []
    ensures AllDots(head) <==> (SlotLive(s) ==> ShownAsDots(SlotName(s)))
  {
    hide ShownAsDots, SlotName, SlotLive;
    if SlotLive(s) { assert head[0] == s; }
  }

  lemma {:induction false} ListedLive(l: Logical, ps: seq<Pos>)
    requires EndsOk(l, ps)
    ensures AllDots(Listed(l, ps)) <==>
              forall q :: q in ps && SlotLive(SlotAt(l, q)) ==> ShownAsDots(SlotName(SlotAt(l, q)))
  {
    hide SlotAt, ShownAsDots, SlotName, SlotSkipped;
    if ps != [] {
      var rest, s := ps[1..], SlotAt(l, ps[0]);
      assert forall q :: q in ps <==> q == ps[0] || q in rest;
      if s[0] == 0 {
        forall q | q in ps ensures SlotAt(l, q)[0] == 0 {
          var i :| 0 <= i < |ps| && ps[i] == q;
        }
      } else {
        assert EndsOk(l, rest) by { assert forall i :: 0 <= i < |rest| ==> rest[i] == ps[i + 1]; }
        ListedLive(l, rest);
        var tail := Listed(l, rest);
        var head: seq<Slot> := if SlotLive(s) then [s] else [];
        assert Listed(l, ps) == head + tail;
        AllDotsAppend(head, tail);
        OneDots(s, head);
      }
    }
  }

  /** Every entry there is, dot entries apart, has a name that is shown as dots. */
  ghost predicate OnlyDotted(l: Logical, ps: seq<Pos>) {
    forall q :: q in ps && Entry(SlotAt(l, q)) ==> ShownAsDots(SlotName(SlotAt(l, q)))
  }

  ghost predicate HasEntry(l: Logical, ps: seq<Pos>) { exists q :: q in ps && Entry(SlotAt(l, q)) }

  /** The emptiness test passes just when no entry is shown as anything but dots. */
  lemma ListedDotted(l: Logical, ps: seq<Pos>)
    requires EndsOk(l, ps)
    ensures AllDots(Listed(l, ps)) <==> OnlyDotted(l, ps)
  {
    hide SlotAt, ShownAsDots, SlotName, Listed, AllDots, DotName, DotDotName;
    ListedLive(l, ps);
    DotEntriesShown();
  }

  /** A name whose base is shown as nothing, being blank or not UTF-8, and whose extension is shown as `.`. */
  predicate NothingAndDot(n: Name) { Half(n[..8]) == [] && Half(n[8..]) == [PERIOD as nat] }

  /** When the emptiness test is wrong about a directory: exactly when that has an entry, and every
      entry it has shows nothing but a period for an extension. */
  lemma EmptyVerdict(g: Geometry, l: Logical, t: Tree, f: nat)
    requires WF(g, l, t) && f in t.dirs
    ensures f in t.chains && DirPos(g, l, f) == Slots(g, t, f)
    ensures var ps := Slots(g, t, f);
            !(AllDots(Listed(l, ps)) <==> !HasEntry(l, ps))
            <==> HasEntry(l, ps) && forall q :: q in ps && Entry(SlotAt(l, q)) ==> NothingAndDot(SlotName(SlotAt(l, q)))
  {
    hide SlotAt, ShownAsDots, SlotName, Listed, AllDots, IsChain, NamedOk, Apart, NamesOk, Shaped, NothingAndDot,
      Entry, ChainPos;
    EndsNames(g, l, t, f);
    assert DirOk(g, l, t, f);
    hide EndsOk, Slots, ChainsOk;
    var ps := Slots(g, t, f);
    ListedDotted(l, ps);
    forall q | q in ps && Entry(SlotAt(l, q))
      ensures ShownAsDots(SlotName(SlotAt(l, q))) <==> NothingAndDot(SlotName(SlotAt(l, q)))
    {
      DottedByName(SlotName(SlotAt(l, q)));
    }
  }

  lemma DottedByName(n: Name)
    requires GoodName(n)
    ensures ShownAsDots(n) <==> NothingAndDot(n)
  {
    hide ShownAsDots;
    DotsByDisplay(n);
  }

  /** No entry of this directory is shown as dots. */
  ghost predicate Telling(l: Logical, ps: seq<Pos>) {
    forall q :: q in ps && Entry(SlotAt(l, q)) ==> !ShownAsDots(SlotName(SlotAt(l, q)))
  }

  /** In a directory without such names the verdict is right. */
  lemma EmptyIsVacuous(g: Geometry, l: Logical, t: Tree, f: nat)
    requires WF(g, l, t) && f in t.dirs && f in t.chains && Telling(l, Slots(g, t, f))
    ensures AllDots(Listed(l, Slots(g, t, f))) <==> Vacuous(l, Slots(g, t, f))
  {
    hide WF, SlotAt, ShownAsDots, SlotName, Listed, AllDots, Slots, EndsOk, NamesOk, Entry;
    EndsNames(g, l, t, f);
    ListedDotted(l, Slots(g, t, f));
  }

  /** A directory into which one file or directory of such a name has been put: the test takes it for
      empty. */
  lemma Misjudged(g: Geometry, l: Logical, c: nat, parent: u32, name: Name, attr: byte, first: u32, size: u32)
    requires Shaped(g, l) && 1 <= g.spc && ValidCluster(g, c) && c < 0x1_0000_0000
    requires attr in {ATTR_DIRECTORY, ATTR_ARCHIVE} && GoodName(name) && ShownAsDots(name)
    requires l.data[c][0] == PatchSlot(FirstDirSector(c, parent), 2, MakeSlot(name, attr, first, size))
    requires forall s :: 1 <= s < g.spc ==> l.data[c][s] == ZeroSector()
    ensures var ps := ChainPos(g.spc, [c]);
            Pos(c, 0, 2) in ps && Entry(SlotAt(l, Pos(c, 0, 2))) && HasEntry(l, ps) && AllDots(Listed(l, ps))
  {
    hide ChainPos, SlotAt, Entry, Listed, AllDots, ShownAsDots, SlotName, MakeSlot, FirstDirSector;
    var ps, n := ChainPos(g.spc, [c]), MakeSlot(name, attr, first, size);
    ChainPosMembers(g.spc, [c]);
    FirstThree(g.spc, c);
    ChainPosDistinct(g.spc, [c]);
    FileSlot(name, attr, first, size);
    forall q | q in ps
      ensures SlotAt(l, q)[0] == 0 <==> q != ps[0] && q != ps[1] && q != ps[2]
      ensures Entry(SlotAt(l, q)) <==> q == ps[2]
      ensures q == ps[2] ==> SlotAt(l, q) == n
    {
      MisjudgedSlot(g, l, c, parent, n, q);
    }
    ThreeThenEnd(l, ps);
    hide EndsOk;
    ListedDotted(l, ps);
  }

  lemma ThreeThenEnd(l: Logical, ps: seq<Pos>)
    requires |ps| >= 3 && PosDistinct(ps)
    requires forall q :: q in ps ==> (SlotAt(l, q)[0] == 0 <==> q != ps[0] && q != ps[1] && q != ps[2])
    ensures EndsOk(l, ps)
  {
    hide SlotAt;
    assert forall i :: 0 <= i < |ps| ==> ps[i] in ps;
  }

  lemma FirstThree(spc: nat, c: nat)
    requires 1 <= spc
    ensures var ps := ChainPos(spc, [c]);
            |ps| >= 3 && ps[0] == Pos(c, 0, 0) && ps[1] == Pos(c, 0, 1) && ps[2] == Pos(c, 0, 2)
  {
    assert ChainPos(spc, [c]) == ClusterPos(spc, c, 0) + ChainPos(spc, [c][1..]);
    assert ClusterPos(spc, c, 0) == SectorPos(c, 0, 0) + ClusterPos(spc, c, 1);
    assert SectorPos(c, 0, 0) == [Pos(c, 0, 0)] + ([Pos(c, 0, 1)] + ([Pos(c, 0, 2)] + SectorPos(c, 0, 3)));
  }

  lemma MisjudgedSlot(g: Geometry, l: Logical, c: nat, parent: u32, n: Slot, q: Pos)
    requires Shaped(g, l) && ValidCluster(g, c) && c < 0x1_0000_0000 && q.c == c && q.s < g.spc && q.e < 16
    requires l.data[c][q.s] == if q.s == 0 then PatchSlot(FirstDirSector(c, parent), 2, n) else ZeroSector()
    requires Entry(n)
    ensures SlotAt(l, q)[0] == 0 <==> q != Pos(c, 0, 0) && q != Pos(c, 0, 1) && q != Pos(c, 0, 2)
    ensures Entry(SlotAt(l, q)) <==> q == Pos(c, 0, 2)
    ensures q == Pos(c, 0, 2) ==> SlotAt(l, q) == n
  {
    hide MakeSlot, FirstDirSector, ZeroSector, SlotIn, SlotName;
    DotsInUse(c, parent);
  }

  /** What `rmdir` answers when the device refuses nothing. */
  ghost function RmdirVerdict(g: Geometry, l: Logical, names: seq<Name>): Result<()>
    requires Shaped(g, l)
  {
    var p :- FindPath(g, l, names);
    if !SlotIsDir(SlotAt(l, p)) then Err(NotADirectory)
    else if OnlyDotted(l, DirPos(g, l, SlotFirst(SlotAt(l, p)))) then Ok(())
    else Err(NotEmpty)
  }

  /** Removes a directory that is shown to hold nothing but dots. Whatever it did hold goes with it:
      no path leads there any more, and its clusters are the ones that are lost. */
  method Rmdir(v: Volume, path: seq<byte>, ghost t: Tree) returns (r: Result<()>, ghost t': Tree, ghost done: bool)
    requires Ready(v, t)
    modifies v
    ensures v.Valid() && v.faults >= old(v.faults)
    ensures Effect(v.g, old(v.log), t, old(v.trail), v.log, t', v.trail, ShortNames(path), Err(NotFound), done)
    ensures done <==> Marked(v.g, old(v.log), v.log, ShortNames(path))
    ensures !done ==> v.log == old(v.log)
    ensures r.Err? && r.error == Block <==> v.faults > old(v.faults)
    ensures r.Ok? ==> done
    ensures r.Err? && done ==> v.faults > old(v.faults)
    ensures DiskStep(v.g, old(v.disk), v.disk, v.faults == old(v.faults))
    ensures v.faults == old(v.faults) ==> SameOutcome(r, RmdirVerdict(v.g, old(v.log), ShortNames(path)))
    ensures v.faults == old(v.faults) ==>
              Lost(v.g, v.log, t') == Lost(v.g, old(v.log), t)
                + if r.Ok? then Orphans(v.g, t, Target(v.g, old(v.log), ShortNames(path))) else {}
  {
    hide LogOf, FatEnd, DataEnd, FirstSector, RawEntry, Kept, Mirrored, WF, Effect, DiskStep, Lost, Commits, DirOf,
      Ref, Scan, SlotAt, GoodName, DirPos, Entry, Shaped, ShortNames, Slots, Listed, AllDots, Orphans, SlotFirst,
      SlotIsDir, OnlyDotted;
    var g := v.g;
    ghost var l0 := v.log;
    var names := ShortNames(path);
    ShortNoDots(path);
    t', done := t, false;
    Start(v, t, names, Err(NotFound));
    NotMarked(g, l0, t, names);
    var parent := ResolveParent(v, names);
    if parent.Err? { r := Err(parent.error); return; }
    var found := LocateEntry(v, parent.value, names[|names| - 1]);
    if found.Err? { r := Err(found.error); return; }
    if found.value.None? { r := Err(NotFound); return; }
    var (p, slot) := found.value.value;
    if !SlotIsDir(slot) { r := Err(NotADirectory); return; }
    var items := ListDir(v, SlotFirst(slot));
    if items.Err? { r := Err(items.error); return; }
    CanDelete(g, l0, t, names, parent.value, p);
    ListedHere(g, l0, t, SlotFirst(slot));
    if !AllDots(items.value) { r := Err(NotEmpty); return; }
    r, t', done := RemoveEntry(v, p, SlotFirst(slot), t, names, parent.value);
  }

  lemma ListedHere(g: Geometry, l: Logical, t: Tree, f: nat)
    requires Shaped(g, l) && WF(g, l, t) && f in t.dirs
    ensures AllDots(Listed(l, DirPos(g, l, f))) <==> OnlyDotted(l, DirPos(g, l, f))
  {
    EndsNames(g, l, t, f);
    hide WF, Listed, AllDots, OnlyDotted, Slots;
    ListedDotted(l, DirPos(g, l, f));
  }

  /** So an honest directory is removed exactly when it is empty, and then nothing is lost. */
  lemma HonestRmdir(g: Geometry, l: Logical, t: Tree, names: seq<Name>)
    requires Shaped(g, l) && WF(g, l, t) && NoDots(names) && names != [] && DirOf(g, l, names).Ok?
    requires Telling(l, DirPos(g, l, DirOf(g, l, names).value))
    ensures var f := DirOf(g, l, names).value;
            && f in t.dirs && f in t.chains && f == Target(g, l, names)
            && (RmdirVerdict(g, l, names) == if Vacuous(l, Slots(g, t, f)) then Ok(()) else Err(NotEmpty))
            && (RmdirVerdict(g, l, names).Ok? ==> Orphans(g, t, f) == {})
  {
    hide WF, SlotAt, Slots, EndsOk, Entry, SlotFirst, SlotIsDir, Shaped, Scan, DirPos, Orphans, ShownAsDots, SlotName,
      GoodName, NamesOk;
    var f := DirOf(g, l, names).value;
    DirInTree(g, l, t, names);
    EndsNames(g, l, t, f);
    TargetOf(g, l, names);
    StrandsNothing(g, l, t, f);
  }
}
