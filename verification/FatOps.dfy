/** The file operations of the volume: read, create or replace, make a directory, delete. */
module FatOps {
  import opened Basics
  import opened FatBytes
  import opened FatVolume
  import opened FatDevice
  import opened FatChains
  import opened FatData
  import opened FatDirs
  import opened FatNames
  import opened FatTree
  import opened FatCommit
  import opened FatPrune
  import opened FatOrphans
  import opened FatPaths
  import opened FatCommitPaths
  import opened FatEffects
  import opened FatSteps

  /** Walks the leading components of a path; the last one is left to the caller. */
  method ResolveParent(v: Volume, names: seq<Name>) returns (r: Result<nat>)
    requires v.Valid()
    modifies v`faults, v`accesses
    ensures v.Valid() && v.faults >= old(v.faults)
    ensures r.Err? && r.error == Block <==> v.faults > old(v.faults)
    ensures r.Err? ==> r.error in {Block, NotFound, NotADirectory}
    ensures v.faults == old(v.faults) ==>
              r == if names == [] then Err(NotFound) else DirOf(v.g, v.log, names[..|names| - 1])
  {
    hide LogOf, FatEnd, DataEnd, FirstSector, Scan, DirPos, SlotAt;
    if names == [] { return Err(NotFound); }
    var cluster: nat := v.g.root;
    var i := 0;
    while i + 1 < |names|
      invariant 0 <= i < |names| && v.Valid() && v.faults == old(v.faults)
      invariant DirOf(v.g, v.log, names[..i]) == Ok(cluster)
    {
      PrefixFails(v.g, v.log, names, i + 1);
      assert names[..i + 1][..i] == names[..i];
      var found :- LocateEntry(v, cluster, names[i]);
      match found {
        case None => return Err(NotFound);
        case Some((_, slot)) =>
          if !SlotIsDir(slot) { return Err(NotADirectory); }
          cluster := SlotFirst(slot);
      }
      i := i + 1;
    }
    r := Ok(cluster);
  }

  /** A failing prefix decides the whole walk. */
  lemma {:induction false} PrefixFails(g: Geometry, l: Logical, names: seq<Name>, k: nat)
    requires Shaped(g, l) && k < |names|
    ensures DirOf(g, l, names[..k]).Err? ==> DirOf(g, l, names[..|names| - 1]) == DirOf(g, l, names[..k])
    decreases |names|
  {
    hide Scan, SlotAt, DirPos, SlotFirst, SlotIsDir, Shaped;
    var pre := names[..|names| - 1];
    if k < |names| - 1 {
      PrefixFails(g, l, pre, k);
      assert pre[..k] == names[..k];
    }
  }

  /** Reads a whole file. */
  method ReadFile(v: Volume, path: seq<byte>) returns (r: Result<seq<byte>>)
    requires v.Valid()
    modifies v`faults, v`accesses
    ensures v.Valid() && v.faults >= old(v.faults)
    ensures r.Err? && r.error == Block <==> v.faults > old(v.faults)
    ensures v.faults == old(v.faults) ==> r == ReadPath(v.g, v.log, ShortNames(path))
  {
    hide LogOf, FatEnd, DataEnd, FirstSector, Scan, DirPos, SlotAt, ReadFrom, ShortNames, DirOf, SlotFirst, SlotSize,
      SlotIsDir;
    var names := ShortNames(path);
    var dir :- ResolveParent(v, names);
    var found :- LocateEntry(v, dir, names[|names| - 1]);
    match found {
      case None => r := Err(NotFound);
      case Some((_, slot)) =>
        if SlotIsDir(slot) { return Err(IsADirectory); }
        r := ReadEntry(v, SlotFirst(slot), SlotSize(slot));
    }
  }

  /** The last name is one that a live slot can carry. */
  ghost predicate Storable(names: seq<Name>) { names != [] ==> GoodName(names[|names| - 1]) }

  /** Why an entry of `need` clusters cannot be created at `names`. */
  ghost predicate Refused(g: Geometry, l: Logical, names: seq<Name>, need: nat, e: FatError)
    requires Shaped(g, l)
  {
    if names == [] then e == NotFound else
      match DirOf(g, l, names[..|names| - 1])
      case Err(x) => e == x
      case Ok(d) =>
        || (e == DirFull && Locate(l, DirPos(g, l, d), names[|names| - 1], None) == Full)
        || (e == NoSpace && |FreeSet(g, l)| < need)
  }

  lemma WhyRefused(g: Geometry, l: Logical, names: seq<Name>, need: nat)
    requires Shaped(g, l)
    ensures names == [] ==> Refused(g, l, names, need, NotFound)
    ensures names != [] && DirOf(g, l, names[..|names| - 1]).Err? ==>
              Refused(g, l, names, need, DirOf(g, l, names[..|names| - 1]).error)
    ensures names != [] && DirOf(g, l, names[..|names| - 1]).Ok? ==>
              var d := DirOf(g, l, names[..|names| - 1]).value;
              && (Locate(l, DirPos(g, l, d), names[|names| - 1], None) == Full ==> Refused(g, l, names, need, DirFull))
              && (|FreeSet(g, l)| < need ==> Refused(g, l, names, need, NoSpace))
  {
  }

  /** The object `names` leads to; 0 if it leads nowhere, or to something without clusters. */
  ghost function Target(g: Geometry, l: Logical, names: seq<Name>): nat
    requires Shaped(g, l)
  {
    var p := FindPath(g, l, names);
    if p.Ok? then SlotFirst(SlotAt(l, p.value)) else 0
  }

  /** Where the four operations start: a well formed volume. */
  ghost predicate Ready(v: Volume, t: Tree)
    reads v
  {
    v.Valid() && Shaped(v.g, v.log) && 1 <= v.g.spc && WF(v.g, v.log, t)
  }

  /** Short names never begin like a dot entry. */
  lemma ShortNoDots(path: seq<byte>)
    ensures NoDots(ShortNames(path))
  {
    hide Components, ShortName;
  }

  /** Which paths are storable: with no zero byte in them, those whose last component does not begin with
      the byte of the deleted mark. */
  lemma StorableNames(path: seq<byte>)
    requires 0 !in path
    ensures var names, cs := ShortNames(path), Components(path);
            && |cs| == |names| && (names != [] ==> cs[|names| - 1] != [])
            && (Storable(names) <==> names != [] ==> cs[|names| - 1][0] != 0xE5)
            && (!Storable(names) ==> names[|names| - 1][0] == 0xE5)
  {
    hide Components, ShortName;
    var names := ShortNames(path);
    if names != [] { NamesOf(path, |names| - 1); }
  }

  /** What locating gave, restated for the moment of the commit. */
  lemma ReadyToCommit(
    g: Geometry, l0: Logical, l1: Logical, t: Tree, path: seq<Name>, d: nat, place: Place, n: Slot, ch: seq<nat>)
    requires Shaped(g, l0) && Shaped(g, l1) && WF(g, l0, t) && WF(g, l1, t) && SameOwned(t, l0, l1) && 1 <= g.spc
    requires NoDots(path) && path != [] && DirOf(g, l0, path[..|path| - 1]) == Ok(d) && !place.Full?
    requires if Entry(n) then SlotName(n) == path[|path| - 1] && GoodName(SlotName(n)) else n[0] == 0xE5
    requires place == Locate(l0, DirPos(g, l0, d), path[|path| - 1], None)
    ensures d in t.dirs && d in t.chains && d in t.depth && place.at in Slots(g, t, d) && InVolume(g, place.at)
    ensures SlotAt(l1, place.at) == SlotAt(l0, place.at)
    ensures place.Existing? <==> Entry(SlotAt(l1, place.at))
    ensures place.Existing? ==> FindPath(g, l0, path) == Ok(place.at)
    ensures Entry(n) && ObjectFits(g, l1, t, n, ch) ==> Commits(g, l1, t, path, d, place.at, n, ch)
    ensures !Entry(n) && path[|path| - 1][0] == 0xE5 ==> Vain(g, l1, t, path, d, place.at, n)
  {
    hide WF, Scan, SlotAt, GoodName, Shaped, Slots, DirPos, Locate, Entry, SlotFits, ObjectFits, SameOwned, DirOf,
      SlotName;
    var k := |path| - 1;
    DirInTree(g, l0, t, path[..k]);
    WFChains(g, l0, t);
    WFChains(g, l1, t);
    DirSlots(g, l0, t, d);
    PlaceSame(g, l0, l1, t, d, path[k]);
    LocateFits(g, l1, t, d, path[k], n);
    DirOfSame(g, l0, l1, t, path[..k]);
    OldRef(g, l1, t, d, place.at);
    if place.Existing? { ExistingFound(g, l0, t, path, d, place); }
    if path[k][0] == 0xE5 && place.Existing? { LiveName(SlotAt(l1, place.at)); }
  }

  lemma LiveName(s: Slot)
    requires Entry(s)
    ensures SlotName(s)[0] != 0xE5
  {
  }

  /** The contents a fresh file slot reads as. */
  lemma FreshReads(
    g: Geometry, l1: Logical, t: Tree, path: seq<Name>, d: nat, p: Pos, n: Slot, ch: seq<nat>, data: seq<byte>)
    requires Shaped(g, l1) && InVolume(g, p) && d in t.depth && Commits(g, l1, t, path, d, p, n, ch)
    requires Entry(n) && !SlotIsDir(n) && SlotSize(n) == |data| && (Ref(n) == 0 <==> data == [])
    requires Ref(n) != 0 ==> AllValid(g, ch) && TakeBytes(Flat(g, l1, ch), |data|) == data
    ensures Shaped(g, SetSlot(g, l1, p, n)) && ReadPath(g, SetSlot(g, l1, p, n), path) == Ok(data)
  {
    var l2, t2 := SetSlot(g, l1, p, n), After(t, d, p, SlotAt(l1, p), n, ch);
    SetSlotShape(g, l1, p, n);
    CommitsOneSlot(g, l1, t, path, d, p, n, ch);
    CommitTarget(g, l1, t, l2, t2, path, d, p);
    ReadFound(g, l2, t2, path);
    NewContents(g, l1, l2, t, t2, path, d, p, n, ch, data);
  }

  lemma NewContents(
    g: Geometry, l1: Logical, l2: Logical, t: Tree, t2: Tree, path: seq<Name>, d: nat, p: Pos, n: Slot, ch: seq<nat>,
    data: seq<byte>)
    requires Shaped(g, l1) && InVolume(g, p) && d in t.depth && Commits(g, l1, t, path, d, p, n, ch)
    requires t2 == After(t, d, p, SlotAt(l1, p), n, ch) && Shaped(g, l2) && ChainsOk(g, l2, t2)
    requires p.c in t.chains[d]
    requires forall c :: 0 <= c < |l1.data| && c != p.c ==> l2.data[c] == l1.data[c]
    requires Entry(n) && SlotSize(n) == |data| && (Ref(n) == 0 <==> data == [])
    requires Ref(n) != 0 ==> AllValid(g, ch) && TakeBytes(Flat(g, l1, ch), |data|) == data
    ensures Contents(g, l2, t2, n) == data
  {
    hide WF, SlotAt, DirOf, SlotFits, Flat, IsChain, ObjectFits, With, SlotName, TakeBytes, Shaped, Prune;
    WFChains(g, l1, t);
    if Ref(n) != 0 {
      OwnedBy(t, d, p.c);
      NewUnowned(g, l1, t, n, ch, p.c);
      assert t2.chains[SlotFirst(n)] == ch;
      ValidInData(g, l1, ch);
      FlatFrame(g, l1, l2, ch);
    } else {
      NoZeroDir(g, l1, t);
      ZeroNotKept(g, l2, t2);
    }
  }

  lemma ValidInData(g: Geometry, l: Logical, ch: seq<nat>)
    requires Shaped(g, l) && AllValid(g, ch)
    ensures forall c :: c in ch ==> c < |l.data|
  {
  }

  lemma ZeroNotKept(g: Geometry, l: Logical, t: Tree)
    requires ChainsOk(g, l, t)
    ensures 0 !in t.chains
  {
    forall h | h in t.chains ensures h != 0 {
      assert ValidCluster(g, t.chains[h][0]);
    }
  }

  /** What the table holds after a commit and the release of the old chain. */
  lemma FinalFat(
    g: Geometry, l1: Logical, l3: Logical, t: Tree, path: seq<Name>, d: nat, p: Pos, n: Slot, ch: seq<nat>,
    cs: seq<nat>)
    requires Shaped(g, l1) && InVolume(g, p) && Commits(g, l1, t, path, d, p, n, ch)
    requires var f0 := Ref(SlotAt(l1, p));
             if ValidCluster(g, f0) then f0 in t.chains && cs == t.chains[f0] && l3 == Cleared(SetSlot(g, l1, p, n), cs)
             else l3 == SetSlot(g, l1, p, n)
    ensures var f0 := Ref(SlotAt(l1, p));
            forall c :: 0 <= c < g.count + 2 ==>
              l3.fat[c] == if f0 in t.chains && c in t.chains[f0] then 0 else l1.fat[c]
  {
    SetSlotShape(g, l1, p, n);
    hide SetSlot, SlotAt, DirOk, NamedOk, DirOf, SlotFits, ObjectFits, Apart;
    var f0 := Ref(SlotAt(l1, p));
    if f0 in t.chains { assert ValidCluster(g, t.chains[f0][0]); }
  }

  // --- committing with rollback, and releasing what the commit let go ---

  /** Writes the slot; if the device refuses, gives the fresh chain back; otherwise frees the old one. A slot
      that is no entry goes in all the same, and what was made for it is lost. */
  method CommitSlot(
    v: Volume, p: Pos, name: Name, attr: byte, first: u32, size: u32, oldFirst: nat,
    ghost n: Slot, ghost l0: Logical, ghost d0: Disk, ghost t0: seq<Logical>, ghost t: Tree,
    ghost path: seq<Name>, ghost d: nat, ghost ch: seq<nat>, ghost res: Result<seq<byte>>)
    returns (r: Result<()>, ghost t': Tree)
    requires v.Valid() && Shaped(v.g, v.log) && Shaped(v.g, l0) && 1 <= v.g.spc && InVolume(v.g, p)
    requires WF(v.g, l0, t) && OnlyFree(v.g, l0, v.log) && TrailFree(v.g, l0, t0, v.trail) && NoDots(path)
    requires Holds(v.g, d0) && DiskStep(v.g, d0, v.disk, true) && n == MakeSlot(name, attr, first, size)
    requires Shaped(v.g, SetSlot(v.g, v.log, p, n)) && oldFirst == Ref(SlotAt(v.log, p))
    requires if Entry(n)
             then Commits(v.g, v.log, t, path, d, p, n, ch) && ReadPath(v.g, SetSlot(v.g, v.log, p, n), path) == res
             else Vain(v.g, v.log, t, path, d, p, n)
    requires Taken(v.g, l0, v.log, first, ch) && (Entry(n) ==> Ref(n) == first)
    modifies v
    ensures v.Valid() && v.faults >= old(v.faults)
    ensures Effect(v.g, l0, t, t0, v.log, t', v.trail, path, res, r.Ok? && Entry(n))
    ensures DiskStep(v.g, d0, v.disk, v.faults == old(v.faults))
    ensures r.Err? ==> r.error == Block && v.faults > old(v.faults)
    ensures v.slips >= old(v.slips) && (r.Err? && v.faults == old(v.faults) + 1 ==> v.log.fat == l0.fat)
    ensures v.faults == old(v.faults) ==> Lost(v.g, v.log, t') == Lost(v.g, l0, t) + Price(v.g, t, n, oldFirst, ch)
    ensures v.faults == old(v.faults) && !Entry(n) ==> Lost(v.g, l0, t) !! Elems(ch) && |Elems(ch)| == |ch|
    ensures r.Ok? && oldFirst == 0 ==> v.log == SetSlot(v.g, old(v.log), p, n)
  {
    hide LogOf, FatEnd, DataEnd, FirstSector, RawEntry, Kept, Mirrored, WF, Effect, OnlyFree, TrailFree, ReadPath,
      Lost, SetSlot, After, SlotAt, MakeSlot, Entry, DirOf, Commits, IsChain, Owns, Switched, Vain, Elems, Orphans,
      Ref, Untouched, Shaped;
    var g := v.g;
    ghost var l1, d1, t1 := v.log, v.disk, v.trail;
    ghost var l2 := SetSlot(g, l1, p, n);
    t' := t;
    r := WriteDirEntry(v, p, name, attr, first, size);
    DiskStepTrans(g, d0, d1, v.disk, true, true);
    if r.Err? {
      TakenBack(g, l0, v.log, ch);
      if first != 0 { GiveBack(v, first, ch, l0, d0, t0, true); }
      NoEffect(g, l0, t, t0, v.log, v.trail, path, res);
      return;
    }
    FreeUntouched(g, l0, l1, t);
    if Entry(n) {
      t' := After(t, d, p, SlotAt(l1, p), n, ch);
      UntouchedWF(g, l0, l1, t);
      CommitSwitches(g, l0, l1, t, path, d, p, n, ch, res);
      CommitsBasics(g, l1, t, path, d, p, n, ch);
    } else {
      VainUntouched(g, l0, l1, t, path, d, p, n);
      VainEffect(g, l0, t, t0, t1, l2, path, res);
      VainRef(g, l1, t, path, d, p, n);
      SetSlotShape(g, l1, p, n);
      VainChain(g, l1, l2, first, ch);
      LostVain(g, l0, t, ch, l2);
    }
    ghost var cs: seq<nat> := [];
    ghost var d2 := v.disk;
    if ValidCluster(g, oldFirst) {
      cs := t.chains[oldFirst];
      OldChainLoose(g, l1, t, path, d, p, n, ch);
      var _ := FreeChain(v, oldFirst, cs);
      DiskStepTrans(g, d0, d2, v.disk, true, v.faults == old(v.faults));
    }
    if Entry(n) {
      DoneEffect(g, l0, t, t0, t1, l2, t', v.log, v.trail, cs, path, res);
      if v.faults == old(v.faults) {
        FinalFat(g, l1, v.log, t, path, d, p, n, ch, cs);
        LostAfter(g, l0, l1, t, path, d, p, n, ch, v.log);
      }
    }
  }

  /** What a commit costs: what lay below the old object; or all that was made, if the slot is no entry. */
  ghost function Price(g: Geometry, t: Tree, n: Slot, oldFirst: nat, ch: seq<nat>): set<nat> {
    if Entry(n) then Orphans(g, t, oldFirst) else Elems(ch)
  }

  lemma CommitsBasics(g: Geometry, l: Logical, t: Tree, path: seq<Name>, d: nat, p: Pos, n: Slot, ch: seq<nat>)
    requires Commits(g, l, t, path, d, p, n, ch)
    ensures Ref(SlotAt(l, p)) != 0 ==> Ref(SlotAt(l, p)) in t.chains
  {
    OldRef(g, l, t, d, p);
  }

  lemma VainRef(g: Geometry, l: Logical, t: Tree, path: seq<Name>, d: nat, p: Pos, n: Slot)
    requires Vain(g, l, t, path, d, p, n)
    ensures Ref(SlotAt(l, p)) == 0
  {
    hide WF, DirOf, SlotFits, SlotAt;
  }

  lemma VainChain(g: Geometry, l: Logical, l': Logical, first: nat, ch: seq<nat>)
    requires l'.fat == l.fat && if first == 0 then ch == [] else IsChain(g, l, ch)
    ensures ch != [] ==> IsChain(g, l', ch)
  {
    if first != 0 { ChainByFat(g, l, l', ch); }
  }

  /** A slot filled in vain is no effect at all. */
  lemma VainEffect(
    g: Geometry, l0: Logical, t: Tree, trail0: seq<Logical>, trail1: seq<Logical>, l2: Logical,
    path: seq<Name>, res: Result<seq<byte>>)
    requires WF(g, l0, t) && Shaped(g, l0) && 1 <= g.spc && TrailFree(g, l0, trail0, trail1) && Untouched(g, l0, l2, t)
    ensures Effect(g, l0, t, trail0, l2, t, trail1 + [l2], path, res, false)
  {
    hide WF, Shaped, OnlyFree, Untouched;
    var trail2 := trail1 + [l2];
    assert trail2[..|trail0|] == trail1[..|trail0|];
    forall i | |trail0| <= i < |trail2| ensures Untouched(g, l0, trail2[i], t) {
      if i < |trail1| { FreeUntouched(g, l0, trail2[i], t); }
    }
  }

  lemma Start(v: Volume, t: Tree, names: seq<Name>, res: Result<seq<byte>>)
    requires v.Valid() && Shaped(v.g, v.log) && 1 <= v.g.spc && WF(v.g, v.log, t)
    ensures Effect(v.g, v.log, t, v.trail, v.log, t, v.trail, names, res, false)
    ensures DiskStep(v.g, v.disk, v.disk, true) && DiskStep(v.g, v.disk, v.disk, false)
  {
    DiskStepRefl(v.g, v.disk);
    NoEffect(v.g, v.log, t, v.trail, v.log, v.trail, names, res);
  }

  /** A new file slot is an entry, and its fresh chain belongs to nobody. */
  lemma FileFits(g: Geometry, l0: Logical, l1: Logical, t: Tree, name: Name, first: u32, size: u32, ch: seq<nat>)
    requires Shaped(g, l0) && Shaped(g, l1) && WF(g, l0, t) && GoodName(name)
    requires Taken(g, l0, l1, first, ch) && size <= |ch| * g.spc * 512
    ensures var n := MakeSlot(name, ATTR_ARCHIVE, first, size);
            Entry(n) && Ref(n) == first && !SlotIsDir(n) && SlotName(n) == name && ObjectFits(g, l1, t, n, ch)
  {
    FileSlot(name, ATTR_ARCHIVE, first, size);
    hide WF, MakeSlot, IsChain, SlotFirst, SlotSize, SlotName, Shaped, GoodName, Entry, SlotIsDir, Owns;
    if first != 0 {
      forall c | c in ch ensures !Owns(t, c) {
        UnusedUnowned(g, l0, t, c);
      }
    }
  }

  /** A slot made for a good name is an entry, a directory just when its attribute says so; a slot made for
      a name that begins with the deleted mark is a deleted one. */
  lemma FileSlot(name: Name, attr: byte, first: u32, size: u32)
    requires attr == ATTR_ARCHIVE || attr == ATTR_DIRECTORY
    ensures var n := MakeSlot(name, attr, first, size);
            && n[0] == name[0] && (Entry(n) ==> Ref(n) == first) && (SlotIsDir(n) <==> attr == ATTR_DIRECTORY)
            && SlotName(n) == name && SlotSize(n) == size
            && (GoodName(name) ==> Entry(n)) && (name[0] == 0xE5 ==> !Entry(n))
  {
    var n := MakeSlot(name, attr, first, size);
    assert n[0] == SlotName(n)[0] && n[11] == attr;
    assert DotName()[0] == PERIOD && DotDotName()[0] == PERIOD;
    hide MakeSlot, SlotFirst, SlotSize, SlotName;
  }

  lemma UnusedUnowned(g: Geometry, l: Logical, t: Tree, c: nat)
    requires WF(g, l, t) && c < |l.fat| && l.fat[c] == 0
    ensures !Owns(t, c)
  {
    hide DirOk, NamedOk, Apart;
    if Owns(t, c) {
      var h :| h in t.chains && c in t.chains[h];
      OwnedInUse(g, l, t.chains[h], c);
    }
  }

  /** What a refused link costs: the two clusters that were to be linked are in nobody's chain. */
  lemma LinkLoses(g: Geometry, l0: Logical, t: Tree, refused: set<nat>, accesses: nat)
    requires Sane(g) && Shaped(g, l0) && WF(g, l0, t) && LinkRefused(g, l0, refused, accesses)
    ensures var l := SetFat(SetFat(l0, 2, EOC), 3, EOC);
            && |l.fat| == g.count + 2 && Lost(g, l, t) == Lost(g, l0, t) + {2, 3}
            && 2 !in Lost(g, l0, t) && 3 !in Lost(g, l0, t)
  {
    hide WF;
    UnusedUnowned(g, l0, t, 2);
    UnusedUnowned(g, l0, t, 3);
  }

  /** A located existing entry is what the path finds. */
  lemma ExistingFound(g: Geometry, l: Logical, t: Tree, path: seq<Name>, d: nat, place: Place)
    requires Shaped(g, l) && WF(g, l, t) && NoDots(path) && path != [] && DirOf(g, l, path[..|path| - 1]) == Ok(d)
    requires place == Locate(l, DirPos(g, l, d), path[|path| - 1], None) && place.Existing?
    ensures d in t.dirs && FindPath(g, l, path) == Ok(place.at)
  {
    DirInTree(g, l, t, path[..|path| - 1]);
    EndsNames(g, l, t, d);
    ChainDistinct(g, l, t.chains[d]);
    ChainPosDistinct(g.spc, t.chains[d]);
    hide WF, Scan, SlotAt, GoodName, Shaped, Locate, NoEndBefore, DirOf, EndsOk, NamesOk, DirPos, ChainPos;
    var ps := Slots(g, t, d);
    assert ps[0..] == ps;
    LocateSound(l, ps, 0, path[|path| - 1], None);
    ScanUnique(l, ps, path[|path| - 1], place.at);
  }

  /** Everything `CommitSlot` asks for when a file is written. */
  lemma FileReady(
    g: Geometry, l0: Logical, l1: Logical, t: Tree, path: seq<Name>, d: nat, place: Place, first: u32, ch: seq<nat>,
    data: seq<byte>)
    requires Shaped(g, l0) && Shaped(g, l1) && WF(g, l0, t) && 1 <= g.spc && OnlyFree(g, l0, l1)
    requires NoDots(path) && path != [] && DirOf(g, l0, path[..|path| - 1]) == Ok(d)
    requires GoodName(path[|path| - 1]) || path[|path| - 1][0] == 0xE5
    requires place == Locate(l0, DirPos(g, l0, d), path[|path| - 1], None) && !place.Full?
    requires |data| < 0x1_0000_0000 && (first == 0 <==> data == [])
    requires Taken(g, l0, l1, first, ch) && Contains(g, l1, ch, data)
    ensures var n := MakeSlot(path[|path| - 1], ATTR_ARCHIVE, first, |data|);
            && InVolume(g, place.at) && Shaped(g, SetSlot(g, l1, place.at, n)) && (Entry(n) ==> Ref(n) == first)
            && (Entry(n) <==> GoodName(path[|path| - 1]))
            && (if Entry(n)
                then Commits(g, l1, t, path, d, place.at, n, ch)
                     && ReadPath(g, SetSlot(g, l1, place.at, n), path) == Ok(data)
                else Vain(g, l1, t, path, d, place.at, n))
            && SlotAt(l1, place.at) == SlotAt(l0, place.at) && (place.Existing? <==> Entry(SlotAt(l1, place.at)))
            && (place.Existing? ==> FindPath(g, l0, path) == Ok(place.at))
  {
    hide WF, Scan, SlotAt, Shaped, Locate, DirOf, DirPos, Slots, MakeSlot, IsChain, OnlyFree, Entry, SlotFits,
      ObjectFits, SetSlot, ReadPath, FindPath, Commits, Flat, TakeBytes, SlotName, SlotIsDir, SlotSize, SlotFirst,
      Untouched, Vain, Ref;
    var name := path[|path| - 1];
    var n := MakeSlot(name, ATTR_ARCHIVE, first, |data|);
    FreeUntouched(g, l0, l1, t);
    UntouchedWF(g, l0, l1, t);
    FileSlot(name, ATTR_ARCHIVE, first, |data|);
    ReadyToCommit(g, l0, l1, t, path, d, place, n, ch);
    if Entry(n) {
      FileFits(g, l0, l1, t, name, first, |data|, ch);
      FreshReads(g, l1, t, path, d, place.at, n, ch, data);
    } else {
      SetSlotShape(g, l1, place.at, n);
    }
  }

  lemma UntouchedWF(g: Geometry, l0: Logical, l: Logical, t: Tree)
    requires Shaped(g, l0) && 1 <= g.spc && Untouched(g, l0, l, t)
    ensures WF(g, l, t) && SameReads(g, l0, l)
  {
  }

  /** Once the place is known: the contents, the slot, and the release of what was there. */
  method PutFile(
    v: Volume, place: Place, former: Slot, target: Name, data: seq<byte>, ghost t: Tree, ghost names: seq<Name>,
    ghost d: nat)
    returns (r: Result<()>, ghost t': Tree)
    requires Ready(v, t) && NoDots(names) && names != [] && target == names[|names| - 1] && |data| < 0x1_0000_0000
    requires (Storable(names) <==> GoodName(target)) && (GoodName(target) || target[0] == 0xE5)
    requires DirOf(v.g, v.log, names[..|names| - 1]) == Ok(d)
    requires place == Locate(v.log, DirPos(v.g, v.log, d), target, None) && !place.Full?
    requires place.Existing? ==> former == SlotAt(v.log, place.at)
    modifies v
    ensures v.Valid() && v.faults >= old(v.faults)
    ensures Effect(v.g, old(v.log), t, old(v.trail), v.log, t', v.trail, names, Ok(data), r.Ok? && Storable(names))
    ensures DiskStep(v.g, old(v.disk), v.disk, v.faults == old(v.faults))
    ensures v.faults == old(v.faults) && r.Err? ==>
              v.log == old(v.log) && r.error == NoSpace && |FreeSet(v.g, old(v.log))| < Clusters(v.g, |data|)
    ensures r == Err(Block) && v.faults == old(v.faults) + 1 && v.slips == old(v.slips) ==>
              v.log.fat == old(v.log).fat
    ensures v.faults == old(v.faults) && r.Ok? && Storable(names) ==>
              Lost(v.g, v.log, t') == Lost(v.g, old(v.log), t) + Orphans(v.g, t, Target(v.g, old(v.log), names))
    ensures v.faults == old(v.faults) && r.Ok? && !Storable(names) ==>
              && Lost(v.g, old(v.log), t) <= Lost(v.g, v.log, t')
              && |Lost(v.g, v.log, t')| == |Lost(v.g, old(v.log), t)| + Clusters(v.g, |data|)
  {
    hide LogOf, FatEnd, DataEnd, FirstSector, RawEntry, Kept, Mirrored, WF, Effect, DiskStep, OnlyFree, TrailFree,
      ReadPath, Lost, Scan, SlotAt, GoodName, Locate, DirOf, DirPos, MakeSlot, IsChain, Entry, SetSlot, FindPath,
      Commits, SlotIsDir, FreeSet, Clusters, SlotFirst, Vain, Orphans, Elems, Target, Ref, Taken, Contains, Storable;
    var g := v.g;
    ghost var l0, d0, t0 := v.log, v.disk, v.trail;
    t' := t;
    var built, ch := BuildContents(v, data);
    NoEffect(g, l0, t, t0, v.log, v.trail, names, Ok(data));
    if built.Err? { r := Err(built.error); return; }
    SmallCluster(g, l0, v.log, built.value, ch);
    ghost var n := MakeSlot(target, ATTR_ARCHIVE, built.value, |data|);
    ghost var l1 := v.log;
    FileReady(g, l0, l1, t, names, d, place, built.value, ch, data);
    FormerRef(g, l0, t, names, d, place);
    var oldFirst: nat := if place.Existing? then SlotFirst(former) else 0;
    r, t' := CommitSlot(v, place.at, target, ATTR_ARCHIVE, built.value, |data|, oldFirst,
                        n, l0, d0, t0, t, names, d, ch, Ok(data));
    if v.faults == old(v.faults) && !Entry(n) {
      ContainsSize(g, l1, ch, data);
      Enlarged(Lost(g, l0, t), Elems(ch), Lost(g, v.log, t'));
    }
  }

  /** Creates or replaces a file: new contents first, then one slot, and only then the old chain. Nobody
      looks at what the path led to before: a directory is replaced like a file, and what was in it goes. */
  method WriteFile(v: Volume, path: seq<byte>, data: seq<byte>, ghost t: Tree) returns (r: Result<()>, ghost t': Tree)
    requires Ready(v, t) && 0 !in path && |data| < 0x1_0000_0000
    modifies v
    ensures v.Valid() && v.faults >= old(v.faults)
    ensures Effect(v.g, old(v.log), t, old(v.trail), v.log, t', v.trail, ShortNames(path), Ok(data),
                   r.Ok? && Storable(ShortNames(path)))
    ensures DiskStep(v.g, old(v.disk), v.disk, v.faults == old(v.faults))
    ensures v.faults == old(v.faults) && r.Err? ==> v.log == old(v.log)
    ensures r == Err(Block) && v.faults == old(v.faults) + 1 && v.slips == old(v.slips) ==>
              v.log.fat == old(v.log).fat
    ensures v.faults == old(v.faults) && r.Err? ==>
              Refused(v.g, old(v.log), ShortNames(path), Clusters(v.g, |data|), r.error)
    ensures v.faults == old(v.faults) && r.Ok? && Storable(ShortNames(path)) ==>
              Lost(v.g, v.log, t') ==
              Lost(v.g, old(v.log), t) + Orphans(v.g, t, Target(v.g, old(v.log), ShortNames(path)))
    ensures v.faults == old(v.faults) && r.Ok? && !Storable(ShortNames(path)) ==>
              && Lost(v.g, old(v.log), t) <= Lost(v.g, v.log, t')
              && |Lost(v.g, v.log, t')| == |Lost(v.g, old(v.log), t)| + Clusters(v.g, |data|)
  {
    hide LogOf, FatEnd, DataEnd, FirstSector, RawEntry, Kept, Mirrored, WF, Effect, DiskStep, OnlyFree, TrailFree,
      ReadPath, Lost, Scan, SlotAt, GoodName, Locate, DirOf, DirPos, MakeSlot, IsChain, Entry, SetSlot, FindPath,
      Commits, SlotIsDir, FreeSet, Clusters, ShortNames, SlotFirst, Vain, Orphans, Elems, Target, Ref, Taken, Contains,
      Refused, Shaped, NoDots, Sane, Holds;
    var g := v.g;
    var names := ShortNames(path);
    ShortNoDots(path);
    StorableNames(path);
    WhyRefused(g, v.log, names, Clusters(g, |data|));
    t' := t;
    Start(v, t, names, Ok(data));
    var parent := ResolveParent(v, names);
    if parent.Err? { r := Err(parent.error); return; }
    var target := names[|names| - 1];
    var slot := LocateOrFreeSlot(v, parent.value, target);
    if slot.Err? { r := Err(slot.error); return; }
    var (place, former) := slot.value;
    r, t' := PutFile(v, place, former, target, data, t, names, parent.value);
  }

  /** The slot to be replaced refers to what the path led to. */
  lemma FormerRef(g: Geometry, l: Logical, t: Tree, path: seq<Name>, d: nat, place: Place)
    requires Shaped(g, l) && WF(g, l, t) && NoDots(path) && path != [] && DirOf(g, l, path[..|path| - 1]) == Ok(d)
    requires place == Locate(l, DirPos(g, l, d), path[|path| - 1], None) && !place.Full?
    requires place.Existing? <==> Entry(SlotAt(l, place.at))
    requires place.Existing? ==> FindPath(g, l, path) == Ok(place.at)
    ensures Ref(SlotAt(l, place.at)) == Target(g, l, path)
    ensures Ref(SlotAt(l, place.at)) == if place.Existing? then SlotFirst(SlotAt(l, place.at)) else 0
  {
    hide WF, SlotAt, SlotFirst, Scan, DirPos, Locate, Shaped, Entry;
    FoundOrFree(g, l, t, path, d);
  }

  /** Looking for a name or a free slot finds the name exactly when the path leads somewhere. */
  lemma FoundOrFree(g: Geometry, l: Logical, t: Tree, names: seq<Name>, d: nat)
    requires Shaped(g, l) && WF(g, l, t) && NoDots(names) && names != [] && DirOf(g, l, names[..|names| - 1]) == Ok(d)
    ensures FindPath(g, l, names).Ok? <==> Locate(l, DirPos(g, l, d), names[|names| - 1], None).Existing?
  {
    DirInTree(g, l, t, names[..|names| - 1]);
    EndsNames(g, l, t, d);
    WFChains(g, l, t);
    var ps, name := Slots(g, t, d), names[|names| - 1];
    ChainDistinct(g, l, t.chains[d]);
    ChainPosDistinct(g.spc, t.chains[d]);
    assert ps[0..] == ps;
    hide WF, Slots, ChainPos, GoodName, EndsOk, NamesOk, SlotAt, SlotName, Locate, NoEndBefore, PosDistinct, Scan,
      DirPos, Matches, ChainsOk, DirOf;
    LocateSound(l, ps, 0, name, None);
    var r, s := Locate(l, ps, name, None), Scan(l, ps, name);
    if r.Existing? { ScanUnique(l, ps, name, r.at); }
    if s.Some? { ScanUnique(l, ps, name, s.value); }
  }

  lemma Enlarged(a: set<nat>, b: set<nat>, c: set<nat>)
    requires c == a + b && a !! b
    ensures a <= c && |c| == |a| + |b|
  {
  }

  lemma ContainsSize(g: Geometry, l: Logical, ch: seq<nat>, data: seq<byte>)
    requires Shaped(g, l) && Contains(g, l, ch, data)
    ensures |ch| == Clusters(g, |data|)
  {
    hide Clusters, Flat, TakeBytes;
  }

  lemma SmallCluster(g: Geometry, l0: Logical, l: Logical, c: nat, ch: seq<nat>)
    requires Sane(g) && Shaped(g, l0) && Shaped(g, l) && Taken(g, l0, l, c, ch)
    ensures c < 0x1_0000_0000
  {
  }
}
