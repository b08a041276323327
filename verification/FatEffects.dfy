/** What an operation may leave behind: every image the disk passes through reads like the volume
    before it or like the volume after it, and every one of them is well formed. */
module FatEffects {
  import opened Basics
  import opened FatBytes
  import opened FatVolume
  import opened FatChains
  import opened FatDirs
  import opened FatTree
  import opened FatCommit
  import opened FatPrune
  import opened FatPaths
  import opened FatCommitPaths

  /** Every path reads the same in both views. */
  ghost predicate SameReads(g: Geometry, l0: Logical, l: Logical)
    requires Shaped(g, l0) && Shaped(g, l) && 1 <= g.spc
  {
    forall names :: NoDots(names) ==> ReadPath(g, l, names) == ReadPath(g, l0, names)
  }

  /** There is something at this path: a file that reads, or a directory. */
  ghost predicate Exists(g: Geometry, l: Logical, names: seq<Name>)
    requires Shaped(g, l) && 1 <= g.spc
  {
    var r := ReadPath(g, l, names);
    r.Ok? || r.error == IsADirectory
  }

  /** `path` reads as `res`, nothing is below it, and every other path reads as in `l0`. */
  ghost predicate ReadsAs(g: Geometry, l0: Logical, l: Logical, path: seq<Name>, res: Result<seq<byte>>)
    requires Shaped(g, l0) && Shaped(g, l) && 1 <= g.spc
  {
    && ReadPath(g, l, path) == res
    && (forall names :: NoDots(names) && !(path <= names) ==> ReadPath(g, l, names) == ReadPath(g, l0, names))
    && (forall names :: NoDots(names) && path < names ==> !Exists(g, l, names))
  }

  ghost predicate Untouched(g: Geometry, l0: Logical, l: Logical, t: Tree)
    requires Shaped(g, l0) && 1 <= g.spc
  {
    WF(g, l, t) && Shaped(g, l) && SameReads(g, l0, l)
  }

  ghost predicate Switched(g: Geometry, l0: Logical, l: Logical, t: Tree, path: seq<Name>, res: Result<seq<byte>>)
    requires Shaped(g, l0) && 1 <= g.spc
  {
    WF(g, l, t) && Shaped(g, l) && ReadsAs(g, l0, l, path, res)
  }

  /** The effect of an operation on `path` that was `done` or not: the final view and every image
      since `t0` is untouched or, once done, switched; never anything in between. */
  ghost predicate Effect(
    g: Geometry, l0: Logical, t: Tree, trail0: seq<Logical>, l: Logical, t': Tree, trail: seq<Logical>,
    path: seq<Name>, res: Result<seq<byte>>, done: bool)
    requires Shaped(g, l0) && 1 <= g.spc
  {
    && (if done then Switched(g, l0, l, t', path, res) else t' == t && Untouched(g, l0, l, t))
    && |trail0| <= |trail| && trail[..|trail0|] == trail0
    && forall i :: |trail0| <= i < |trail| ==>
         Untouched(g, l0, trail[i], t) || (done && Switched(g, l0, trail[i], t', path, res))
  }

  lemma OwnedUntouched(g: Geometry, l0: Logical, l: Logical, t: Tree)
    requires WF(g, l0, t) && Shaped(g, l0) && Shaped(g, l) && 1 <= g.spc && SameOwned(t, l0, l)
    ensures Untouched(g, l0, l, t)
  {
    WFSame(g, l0, l, t);
    hide WF, Shaped, SameOwned, ReadPath;
    forall names | NoDots(names) ensures ReadPath(g, l, names) == ReadPath(g, l0, names) {
      ReadSame(g, l0, l, t, names);
    }
  }

  /** Before the commit only free clusters change, so nothing readable does. */
  lemma FreeUntouched(g: Geometry, l0: Logical, l: Logical, t: Tree)
    requires WF(g, l0, t) && OnlyFree(g, l0, l) && 1 <= g.spc
    ensures Shaped(g, l0) && Untouched(g, l0, l, t) && SameOwned(t, l0, l)
  {
    FreeNotOwned(g, l0, l, t);
    OwnedUntouched(g, l0, l, t);
  }

  /** An operation that stopped before its commit had no effect. */
  lemma NoEffect(
    g: Geometry, l0: Logical, t: Tree, trail0: seq<Logical>, l: Logical, trail: seq<Logical>,
    path: seq<Name>, res: Result<seq<byte>>)
    requires WF(g, l0, t) && 1 <= g.spc && OnlyFree(g, l0, l) && TrailFree(g, l0, trail0, trail)
    ensures Shaped(g, l0) && Effect(g, l0, t, trail0, l, t, trail, path, res, false)
  {
    hide WF, Untouched, SameOwned, OnlyFree;
    FreeUntouched(g, l0, l, t);
    forall i | |trail0| <= i < |trail| ensures Untouched(g, l0, trail[i], t) {
      FreeUntouched(g, l0, trail[i], t);
    }
  }

  /** Filling a slot in vain leaves everything as it was. */
  lemma VainUntouched(g: Geometry, l0: Logical, l: Logical, t: Tree, path: seq<Name>, d: nat, p: Pos, n: Slot)
    requires Shaped(g, l0) && Shaped(g, l) && 1 <= g.spc && Untouched(g, l0, l, t) && Vain(g, l, t, path, d, p, n)
    ensures InVolume(g, p) && Shaped(g, SetSlot(g, l, p, n)) && Untouched(g, l0, SetSlot(g, l, p, n), t)
  {
    VainOneSlot(g, l, t, path, d, p, n);
    hide WF, Vain, SetSlot, Shaped, ReadPath, SlotOf, NoDots;
    var l' := SetSlot(g, l, p, n);
    forall names | NoDots(names) ensures ReadPath(g, l', names) == ReadPath(g, l0, names) {
      VainReads(g, l, t, path, d, p, n, names);
    }
  }

  /** The commit switches the committed path and nothing else. */
  lemma CommitSwitches(
    g: Geometry, l0: Logical, l1: Logical, t: Tree, path: seq<Name>, d: nat, p: Pos, n: Slot, ch: seq<nat>,
    res: Result<seq<byte>>)
    requires Shaped(g, l0) && Shaped(g, l1) && 1 <= g.spc
    requires Commits(g, l1, t, path, d, p, n, ch) && SameReads(g, l0, l1)
    requires InVolume(g, p) && Shaped(g, SetSlot(g, l1, p, n))
    requires ReadPath(g, SetSlot(g, l1, p, n), path) == res
    ensures Switched(g, l0, SetSlot(g, l1, p, n), After(t, d, p, SlotAt(l1, p), n, ch), path, res)
  {
    hide SetSlot, After, SlotAt, WF, Shaped, ReadPath, SlotOf, Commits, DirOf, Slots, Vacuous, OneSlot;
    CommitsPath(g, l1, t, path, d, p, n, ch);
    CommitsOneSlot(g, l1, t, path, d, p, n, ch);
    NothingBelow(g, l1, t, path, d, p, n, ch);
    var l2, t2 := SetSlot(g, l1, p, n), After(t, d, p, SlotAt(l1, p), n, ch);
    SwitchedOthers(g, l0, l1, t, l2, t2, path, d, p);
    NoneBelow(g, l2, t2, path);
  }

  lemma CommitsPath(g: Geometry, l: Logical, t: Tree, path: seq<Name>, d: nat, p: Pos, n: Slot, ch: seq<nat>)
    requires Commits(g, l, t, path, d, p, n, ch)
    ensures path != [] && NoDots(path)
  {
    hide WF, SlotAt, DirOf, SlotFits, ObjectFits;
  }

  lemma SwitchedOthers(
    g: Geometry, l0: Logical, l1: Logical, t: Tree, l2: Logical, t2: Tree, path: seq<Name>, d: nat, p: Pos)
    requires Shaped(g, l0) && Shaped(g, l1) && Shaped(g, l2) && 1 <= g.spc && SameReads(g, l0, l1)
    requires OneSlot(g, l1, t, l2, t2, d, p) && SlotOf(g, l1, l2, path, d, p)
    ensures forall names :: NoDots(names) && !(path <= names) ==> ReadPath(g, l2, names) == ReadPath(g, l0, names)
  {
    hide Shaped, ReadPath, SlotOf, OneSlot, NoDots;
    forall names | NoDots(names) && !(path <= names) ensures ReadPath(g, l2, names) == ReadPath(g, l0, names) {
      CommitOthers(g, l1, t, l2, t2, path, d, p, names);
    }
  }

  lemma NoneBelow(g: Geometry, l: Logical, t: Tree, path: seq<Name>)
    requires Shaped(g, l) && 1 <= g.spc && WF(g, l, t) && path != []
    requires DirOf(g, l, path).Ok? && DirOf(g, l, path).value in t.chains ==>
               Vacuous(l, Slots(g, t, DirOf(g, l, path).value))
    ensures forall names :: NoDots(names) && path < names ==> !Exists(g, l, names)
  {
    hide Shaped, ReadPath, NoDots, WF, Vacuous, DirOf, Slots;
    forall names | NoDots(names) && path < names ensures !Exists(g, l, names) {
      BelowReadsNothing(g, l, t, path, names);
    }
  }

  /** After a commit the path is not a directory with entries. */
  lemma NothingBelow(g: Geometry, l: Logical, t: Tree, path: seq<Name>, d: nat, p: Pos, n: Slot, ch: seq<nat>)
    requires Commits(g, l, t, path, d, p, n, ch) && InVolume(g, p) && Shaped(g, SetSlot(g, l, p, n))
    ensures var l', t' := SetSlot(g, l, p, n), After(t, d, p, SlotAt(l, p), n, ch);
            WF(g, l', t') && (DirOf(g, l', path).Ok? && DirOf(g, l', path).value in t'.chains ==>
              Vacuous(l', Slots(g, t', DirOf(g, l', path).value)))
  {
    CommitsOneSlot(g, l, t, path, d, p, n, ch);
    var l', t' := SetSlot(g, l, p, n), After(t, d, p, SlotAt(l, p), n, ch);
    CommitTarget(g, l, t, l', t', path, d, p);
    TargetOf(g, l', path);
    if DirOf(g, l', path).Ok? { NewDirVacuous(g, l, t, path, d, p, n, ch); }
  }

  /** A directory is found where its path is found. */
  lemma TargetOf(g: Geometry, l: Logical, path: seq<Name>)
    requires Shaped(g, l) && path != []
    ensures DirOf(g, l, path).Ok? ==>
              && FindPath(g, l, path).Ok? && SlotIsDir(SlotAt(l, FindPath(g, l, path).value))
              && DirOf(g, l, path).value == SlotFirst(SlotAt(l, FindPath(g, l, path).value))
  {
    hide SlotAt, Scan, DirPos;
  }

  lemma VacuousSame(l: Logical, l': Logical, ps: seq<Pos>, p: Pos)
    requires Vacuous(l, ps) && p !in ps && forall q :: q != p ==> SlotAt(l', q) == SlotAt(l, q)
    ensures Vacuous(l', ps)
  {
    hide SlotAt, Entry;
    assert forall i :: 0 <= i < |ps| ==> ps[i] in ps;
  }

  lemma NewDirVacuous(g: Geometry, l: Logical, t: Tree, path: seq<Name>, d: nat, p: Pos, n: Slot, ch: seq<nat>)
    requires Commits(g, l, t, path, d, p, n, ch) && InVolume(g, p) && Entry(n) && SlotIsDir(n)
    ensures var l', t' := SetSlot(g, l, p, n), After(t, d, p, SlotAt(l, p), n, ch);
            SlotFirst(n) in t'.chains && Vacuous(l', Slots(g, t', SlotFirst(n)))
  {
    hide WF, SetSlot, SlotAt, ChainPos, IsChain, DirOf, SlotFits, With, Shaped, Vacuous, SlotName, SlotFirst,
      SlotIsDir;
    CommitsOneSlot(g, l, t, path, d, p, n, ch);
    ChainPosMembers(g.spc, ch);
    assert Owns(t, p.c);
    VacuousSame(l, SetSlot(g, l, p, n), ChainPos(g.spc, ch), p);
  }

  lemma ReadsTrans(g: Geometry, l0: Logical, l1: Logical, l2: Logical, t: Tree, path: seq<Name>, res: Result<seq<byte>>)
    requires Shaped(g, l0) && 1 <= g.spc && Switched(g, l0, l1, t, path, res) && Shaped(g, l1)
    requires Untouched(g, l1, l2, t) && NoDots(path)
    ensures Switched(g, l0, l2, t, path, res)
  {
    hide WF, Shaped, ReadPath;
  }
}
