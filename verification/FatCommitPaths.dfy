/** What a commit does to paths: the committed path changes as its slot says, paths that do not go
    through it do not change at all. */
module FatCommitPaths {
  import opened FatBytes
  import opened FatVolume
  import opened FatChains
  import opened FatData
  import opened FatDirs
  import opened FatNames
  import opened FatTree
  import opened FatCommit
  import opened FatPrune
  import opened FatPaths

  /** Slot `p` of the directory `path` lies in may be changed to `n`, an entry of that name or none. */
  ghost predicate Commits(g: Geometry, l: Logical, t: Tree, path: seq<Name>, d: nat, p: Pos, n: Slot, ch: seq<nat>) {
    && WF(g, l, t) && 1 <= g.spc && NoDots(path) && path != []
    && DirOf(g, l, path[..|path| - 1]) == Ok(d) && d in t.dirs
    && SlotFits(g, l, t, d, p, n) && ObjectFits(g, l, t, n, ch)
    && (Entry(SlotAt(l, p)) ==> SlotName(SlotAt(l, p)) == path[|path| - 1])
    && (Entry(n) ==> SlotName(n) == path[|path| - 1])
    && (Entry(n) || Entry(SlotAt(l, p)))
  }

  /** Two well formed volumes that differ by one slot of directory `d`, and in nothing but what lies at
      or below the object that slot used to name. */
  ghost predicate OneSlot(g: Geometry, l: Logical, t: Tree, l': Logical, t': Tree, d: nat, p: Pos) {
    && WF(g, l, t) && WF(g, l', t') && Shaped(g, l) && Shaped(g, l') && 1 <= g.spc
    && d in t.dirs && d in t.chains && p in Slots(g, t, d) && p.c in t.chains[d]
    && !Below(t, Ref(SlotAt(l, p)), d)
    && (forall q :: q != p ==> SlotAt(l', q) == SlotAt(l, q))
    && (forall c :: 0 <= c < |l.data| && c != p.c ==> l'.data[c] == l.data[c])
    && (forall f :: f in t.chains && !Below(t, Ref(SlotAt(l, p)), f) ==> f in t'.chains && t'.chains[f] == t.chains[f])
    && (forall e :: e in t.dirs && !Below(t, Ref(SlotAt(l, p)), e) ==> e in t.chains && e in t'.dirs)
  }

  /** ... and that slot holds, before and after, an entry called like the end of `path`, or none. */
  ghost predicate SlotOf(g: Geometry, l: Logical, l': Logical, path: seq<Name>, d: nat, p: Pos)
    requires Shaped(g, l)
  {
    && NoDots(path) && path != [] && DirOf(g, l, path[..|path| - 1]) == Ok(d)
    && (Entry(SlotAt(l, p)) ==> SlotName(SlotAt(l, p)) == path[|path| - 1])
    && (Entry(SlotAt(l', p)) ==> SlotName(SlotAt(l', p)) == path[|path| - 1])
  }

  lemma CommitsOneSlot(g: Geometry, l: Logical, t: Tree, path: seq<Name>, d: nat, p: Pos, n: Slot, ch: seq<nat>)
    requires Commits(g, l, t, path, d, p, n, ch)
    ensures InVolume(g, p)
    ensures var l', t' := SetSlot(g, l, p, n), After(t, d, p, SlotAt(l, p), n, ch);
            OneSlot(g, l, t, l', t', d, p) && SlotOf(g, l, l', path, d, p) && SlotAt(l', p) == n
  {
    hide WF, SlotAt, ObjectFits, DirOf, SetSlot, With, NoEndBefore, GoodName, SlotName, Below, Shaped, ChainsOk, Slots,
      Entry, Ref;
    WFChains(g, l, t);
    OldRef(g, l, t, d, p);
    HolderStays(g, l, t, d, p);
    CommitWF(g, l, t, d, p, n, ch);
    ShapedOf(g, l, t);
    SetSlotShape(g, l, p, n);
    NewRef(g, l, t, n, ch);
  }

  lemma ShapedOf(g: Geometry, l: Logical, t: Tree)
    requires ChainsOk(g, l, t)
    ensures Shaped(g, l) && forall e :: e in t.dirs ==> e in t.chains
  {
    hide Shaped, IsChain;
  }

  /** Every name in other directories scans the same. */
  lemma OtherDirScan(g: Geometry, l: Logical, t: Tree, l': Logical, t': Tree, d: nat, p: Pos, e: nat, x: Name)
    requires OneSlot(g, l, t, l', t', d, p) && e in t.dirs && !Below(t, Ref(SlotAt(l, p)), e) && e != d
    ensures var r := Scan(l, DirPos(g, l, e), x);
            && Scan(l', DirPos(g, l', e), x) == r
            && (r.Some? ==> r.value != p && SlotAt(l', r.value) == SlotAt(l, r.value))
  {
    DirSlots(g, l, t, e);
    DirSlots(g, l', t', e);
    var ps := Slots(g, t, e);
    assert Slots(g, t', e) == ps;
    assert p !in ps by {
      if p in ps { SlotsSame(g, l, l, t, e); }
    }
    hide SlotAt, IsChain, Shaped, Scan, WF, Slots, DirPos;
    ScanSame(l, l', ps, x);
    ScanSound(l, ps, x);
  }

  lemma EndsNames(g: Geometry, l: Logical, t: Tree, d: nat)
    requires WF(g, l, t) && d in t.dirs
    ensures d in t.chains && EndsOk(l, Slots(g, t, d)) && NamesOk(l, Slots(g, t, d))
    ensures DirPos(g, l, d) == Slots(g, t, d)
  {
    assert DirOk(g, l, t, d);
    DirSlots(g, l, t, d);
  }

  /** In directory `d` a name that neither the old nor the new slot matches scans the same. */
  lemma SameDirScan(g: Geometry, l: Logical, t: Tree, l': Logical, t': Tree, d: nat, p: Pos, x: Name)
    requires OneSlot(g, l, t, l', t', d, p) && x[0] != PERIOD
    requires !Matches(SlotAt(l, p), x) && !Matches(SlotAt(l', p), x)
    ensures var r := Scan(l, DirPos(g, l, d), x);
            && Scan(l', DirPos(g, l', d), x) == r
            && (r.Some? ==> r.value != p && SlotAt(l', r.value) == SlotAt(l, r.value))
  {
    hide WF, SlotAt, Scan, EndsOk, NamesOk, Shaped, ChainPos, DirPos, Matches, Entry, Ref;
    EndsNames(g, l, t, d);
    EndsNames(g, l', t', d);
    var ps := Slots(g, t, d);
    assert Slots(g, t', d) == ps;
    var r, r' := Scan(l, ps, x), Scan(l', ps, x);
    ScanUnique(l, ps, x, p);
    ScanUnique(l', ps, x, p);
    if r.Some? {
      ScanUnique(l, ps, x, r.value);
      ScanUnique(l', ps, x, r.value);
    } else if r'.Some? {
      ScanUnique(l, ps, x, r'.value);
      ScanUnique(l', ps, x, r'.value);
    }
  }

  /** The old object, when it is a directory, is only reached through the committed path. */
  lemma OldDirPath(
    g: Geometry, l: Logical, t: Tree, l': Logical, t': Tree, path: seq<Name>, d: nat, p: Pos, names: seq<Name>)
    requires OneSlot(g, l, t, l', t', d, p) && SlotOf(g, l, l', path, d, p) && NoDots(names)
    requires Ref(SlotAt(l, p)) != 0 && DirOf(g, l, names) == Ok(Ref(SlotAt(l, p)))
    ensures names == path
  {
    hide WF, SlotAt, Shaped, Scan, Slots, DirPos, EndsOk, NamesOk, SlotName, DirOf, SlotFirst, SlotIsDir;
    DirInTree(g, l, t, names);
    OldIsDir(g, l, t, d, p);
    TargetDir(g, l, t, path, d, p);
    DirUnique(g, l, t, names, path);
  }

  lemma TargetDir(g: Geometry, l: Logical, t: Tree, path: seq<Name>, d: nat, p: Pos)
    requires WF(g, l, t) && path != [] && NoDots(path) && DirOf(g, l, path[..|path| - 1]) == Ok(d) && d in t.dirs
    requires p in Slots(g, t, d) && Matches(SlotAt(l, p), path[|path| - 1]) && SlotIsDir(SlotAt(l, p))
    ensures DirOf(g, l, path) == Ok(SlotFirst(SlotAt(l, p)))
  {
    EndsNames(g, l, t, d);
    hide WF, SlotAt, Shaped, Scan, Slots, DirPos, EndsOk, NamesOk, Matches, SlotFirst, SlotIsDir;
    ScanUnique(l, Slots(g, t, d), path[|path| - 1], p);
  }

  lemma MatchesEntry(s: Slot, name: Name)
    requires Matches(s, name) && name[0] != PERIOD
    ensures Entry(s) && SlotName(s) == name
  {
    assert DotName()[0] == PERIOD && DotDotName()[0] == PERIOD;
  }

  lemma OldIsDir(g: Geometry, l: Logical, t: Tree, d: nat, p: Pos)
    requires WF(g, l, t) && d in t.dirs && p in Slots(g, t, d) && Ref(SlotAt(l, p)) in t.dirs && Ref(SlotAt(l, p)) != 0
    ensures SlotIsDir(SlotAt(l, p)) && Entry(SlotAt(l, p))
  {
    OldRef(g, l, t, d, p);
    assert NamedOk(g, l, t, Ref(SlotAt(l, p)));
    hide SlotAt, DirOk, Apart, IsChain, Shaped, Slots;
  }

  /** One more component, when it is not the committed one, is looked up the same. */
  lemma StepSame(
    g: Geometry, l: Logical, t: Tree, l': Logical, t': Tree, path: seq<Name>, d: nat, p: Pos, names: seq<Name>, e: nat)
    requires OneSlot(g, l, t, l', t', d, p) && SlotOf(g, l, l', path, d, p)
    requires NoDots(names) && names != [] && !(path <= names)
    requires DirOf(g, l, names[..|names| - 1]) == Ok(e) && e in t.dirs && !Below(t, Ref(SlotAt(l, p)), e)
    ensures var x := names[|names| - 1];
            var r := Scan(l, DirPos(g, l, e), x);
            && Scan(l', DirPos(g, l', e), x) == r
            && (r.Some? ==> r.value != p && SlotAt(l', r.value) == SlotAt(l, r.value))
  {
    hide SlotAt, WF, Scan, Shaped, DirPos, Slots, SlotOf;
    if e == d {
      NotTheName(g, l, t, l', path, d, p, names);
      SameDirScan(g, l, t, l', t', d, p, names[|names| - 1]);
    } else {
      OtherDirScan(g, l, t, l', t', d, p, e, names[|names| - 1]);
    }
  }

  lemma NotTheName(g: Geometry, l: Logical, t: Tree, l': Logical, path: seq<Name>, d: nat, p: Pos, names: seq<Name>)
    requires WF(g, l, t) && Shaped(g, l) && SlotOf(g, l, l', path, d, p)
    requires NoDots(names) && names != [] && !(path <= names) && DirOf(g, l, names[..|names| - 1]) == Ok(d)
    ensures !Matches(SlotAt(l, p), names[|names| - 1]) && !Matches(SlotAt(l', p), names[|names| - 1])
  {
    hide SlotAt, WF, Shaped, SlotName, Entry, Matches, DirOf;
    var k := |names| - 1;
    DirUnique(g, l, t, names[..k], path[..|path| - 1]);
    assert names == names[..k] + [names[k]] && path == path[..|path| - 1] + [path[|path| - 1]];
    if Matches(SlotAt(l, p), names[k]) { MatchesEntry(SlotAt(l, p), names[k]); }
    if Matches(SlotAt(l', p), names[k]) { MatchesEntry(SlotAt(l', p), names[k]); }
  }

  /** Directories reached by paths that do not pass through the committed one stay where they are. */
  lemma {:induction false} CommitDir(
    g: Geometry, l: Logical, t: Tree, l': Logical, t': Tree, path: seq<Name>, d: nat, p: Pos, names: seq<Name>)
    requires OneSlot(g, l, t, l', t', d, p) && SlotOf(g, l, l', path, d, p) && NoDots(names) && !(path <= names)
    ensures DirOf(g, l', names) == DirOf(g, l, names)
    ensures DirOf(g, l, names).Ok? ==>
              DirOf(g, l, names).value in t.dirs && !Below(t, Ref(SlotAt(l, p)), DirOf(g, l, names).value)
    decreases |names|
  {
    hide SlotAt, WF, Scan, Shaped, DirPos, SlotOf, Below, Ref, Entry;
    DirInTree(g, l, t, names);
    if names == [] {
      RootStays(g, l, t, d, p);
    } else {
      var pre := names[..|names| - 1];
      CommitDir(g, l, t, l', t', path, d, p, pre);
      if DirOf(g, l, pre).Ok? {
        StepSame(g, l, t, l', t', path, d, p, names, DirOf(g, l, pre).value);
        if DirOf(g, l, names).Ok? { ChildStays(g, l, t, l', t', path, d, p, names); }
      }
    }
  }

  lemma RootStays(g: Geometry, l: Logical, t: Tree, d: nat, p: Pos)
    requires WF(g, l, t) && d in t.dirs && d in t.chains && p in Slots(g, t, d)
    ensures !Below(t, Ref(SlotAt(l, p)), g.root)
  {
    hide WF, SlotAt, Ref;
    OldRef(g, l, t, d, p);
    TreeKeys(g, l, t, g.root);
    TreeKeys(g, l, t, 0);
  }

  /** A directory inside one that stays, reached by a path that is not the committed one, stays. */
  lemma ChildStays(
    g: Geometry, l: Logical, t: Tree, l': Logical, t': Tree, path: seq<Name>, d: nat, p: Pos, names: seq<Name>)
    requires OneSlot(g, l, t, l', t', d, p) && SlotOf(g, l, l', path, d, p) && NoDots(names) && !(path <= names)
    requires names != [] && DirOf(g, l, names).Ok? && DirOf(g, l, names[..|names| - 1]).Ok?
    requires !Below(t, Ref(SlotAt(l, p)), DirOf(g, l, names[..|names| - 1]).value)
    ensures !Below(t, Ref(SlotAt(l, p)), DirOf(g, l, names).value)
  {
    hide SlotAt, WF, Scan, Shaped, DirPos, SlotOf, Below, Ref, Entry, GoodName, SlotName, Slots, SlotFirst;
    var f, h := Ref(SlotAt(l, p)), DirOf(g, l, names).value;
    var e, x := DirOf(g, l, names[..|names| - 1]).value, names[|names| - 1];
    DirInTree(g, l, t, names);
    DirInTree(g, l, t, names[..|names| - 1]);
    TreeKeys(g, l, t, h);
    TreeKeys(g, l, t, e);
    FoundEntry(g, l, t, e, x);
    UpStep(g, l, t, f, h);
    if h == f {
      OldDirPath(g, l, t, l', t', path, d, p, names);
    }
  }

  lemma NoZeroDir(g: Geometry, l: Logical, t: Tree)
    requires WF(g, l, t)
    ensures 0 !in t.chains && 0 !in t.dirs
  {
    forall h | h in t.chains ensures h != 0 {
      assert ValidCluster(g, t.chains[h][0]);
    }
  }

  lemma OtherContents(g: Geometry, l: Logical, t: Tree, l': Logical, t': Tree, d: nat, p: Pos, e: nat, q: Pos, s: Slot)
    requires OneSlot(g, l, t, l', t', d, p) && q != p && e in t.depth && RefOk(g, t, e, q, s) && !SlotIsDir(s)
    requires !Below(t, Ref(SlotAt(l, p)), e)
    ensures Contents(g, l', t', s) == Contents(g, l, t, s)
  {
    hide WF, SlotAt, Shaped, GoodName, Slots, Flat, TakeBytes, Ref, Below;
    OldRef(g, l, t, d, p);
    NoZeroDir(g, l, t);
    NoZeroDir(g, l', t');
    var f := SlotFirst(s);
    WFChains(g, l, t);
    WFChains(g, l', t');
    TreeKeys(g, l, t, f);
    if f in t.chains {
      UpStep(g, l, t, Ref(SlotAt(l, p)), f);
      OtherFile(g, l, t, d, p, f);
      FlatFrame(g, l, l', t.chains[f]);
    }
  }

  lemma WFChains(g: Geometry, l: Logical, t: Tree)
    requires WF(g, l, t)
    ensures ChainsOk(g, l, t)
  {
  }

  lemma OtherFile(g: Geometry, l: Logical, t: Tree, d: nat, p: Pos, f: nat)
    requires WF(g, l, t) && d in t.dirs && p.c in t.chains[d] && f in t.chains && f !in t.dirs
    ensures AllValid(g, t.chains[f]) && forall c :: c in t.chains[f] ==> c < |l.data| && c != p.c
  {
    ValidChain(g, l, t.chains[f]);
  }

  /** Frame: a path that does not pass through the committed one reads the same. */
  lemma CommitOthers(
    g: Geometry, l: Logical, t: Tree, l': Logical, t': Tree, path: seq<Name>, d: nat, p: Pos, names: seq<Name>)
    requires OneSlot(g, l, t, l', t', d, p) && SlotOf(g, l, l', path, d, p) && NoDots(names) && !(path <= names)
    ensures ReadPath(g, l', names) == ReadPath(g, l, names)
  {
    hide SlotAt, WF, Scan, Shaped, DirPos, Contents, ReadFrom, SlotOf, ChainsOk;
    if names != [] {
      var pre := names[..|names| - 1];
      CommitDir(g, l, t, l', t', path, d, p, pre);
      if DirOf(g, l, pre).Ok? {
        StepSame(g, l, t, l', t', path, d, p, names, DirOf(g, l, pre).value);
        if FindPath(g, l, names).Ok? {
          FoundFileSame(g, l, t, l', t', d, p, names);
        }
      }
    }
  }

  lemma FoundFileSame(g: Geometry, l: Logical, t: Tree, l': Logical, t': Tree, d: nat, p: Pos, names: seq<Name>)
    requires OneSlot(g, l, t, l', t', d, p) && NoDots(names) && names != []
    requires FindPath(g, l, names).Ok? && FindPath(g, l', names) == FindPath(g, l, names)
    requires FindPath(g, l, names).value != p && DirOf(g, l, names[..|names| - 1]).Ok?
    requires !Below(t, Ref(SlotAt(l, p)), DirOf(g, l, names[..|names| - 1]).value)
    ensures ReadPath(g, l', names) == ReadPath(g, l, names)
  {
    var q := FindPath(g, l, names).value;
    FoundPath(g, l, t, names);
    ReadFound(g, l, t, names);
    ReadFound(g, l', t', names);
    hide SlotAt, Scan, Shaped, Contents, ReadFrom, FindPath, DirOf, Slots, DirOk, NamedOk, IsChain, Apart, RefOk,
      Below;
    if !SlotIsDir(SlotAt(l, q)) {
      OtherContents(g, l, t, l', t', d, p, DirOf(g, l, names[..|names| - 1]).value, q, SlotAt(l, q));
    }
  }

  /** The committed path itself: found at `p` when the new slot is an entry of it, gone when the
      old one was and the new one is not. */
  lemma CommitTarget(g: Geometry, l: Logical, t: Tree, l': Logical, t': Tree, path: seq<Name>, d: nat, p: Pos)
    requires OneSlot(g, l, t, l', t', d, p) && SlotOf(g, l, l', path, d, p)
    ensures Entry(SlotAt(l', p)) ==> FindPath(g, l', path) == Ok(p)
    ensures !Entry(SlotAt(l', p)) && Entry(SlotAt(l, p)) ==> FindPath(g, l', path) == Err(NotFound)
  {
    hide SlotAt, WF, Scan, Shaped, DirOf, DirPos, EndsOk, SlotName, ChainPos;
    var k := |path| - 1;
    EndsNames(g, l, t, d);
    EndsNames(g, l', t', d);
    var ps := Slots(g, t, d);
    assert Slots(g, t', d) == ps;
    CommitDir(g, l, t, l', t', path, d, p, path[..k]);
    ScanUnique(l', ps, path[k], p);
    var r := Scan(l', ps, path[k]);
    if !Entry(SlotAt(l', p)) && Entry(SlotAt(l, p)) && r.Some? {
      ScanUnique(l', ps, path[k], r.value);
      MatchesEntry(SlotAt(l', r.value), path[k]);
    }
  }

  // --- a slot filled in vain ---

  /** Slot `p`, which holds no entry, is given the name that ends `path`; but that name begins with the
      deleted mark. */
  ghost predicate Vain(g: Geometry, l: Logical, t: Tree, path: seq<Name>, d: nat, p: Pos, n: Slot) {
    && WF(g, l, t) && 1 <= g.spc && NoDots(path) && path != [] && path[|path| - 1][0] == 0xE5
    && DirOf(g, l, path[..|path| - 1]) == Ok(d) && d in t.dirs
    && SlotFits(g, l, t, d, p, n) && !Entry(SlotAt(l, p)) && n[0] == 0xE5
  }

  lemma VainOneSlot(g: Geometry, l: Logical, t: Tree, path: seq<Name>, d: nat, p: Pos, n: Slot)
    requires Vain(g, l, t, path, d, p, n)
    ensures InVolume(g, p)
    ensures var l' := SetSlot(g, l, p, n); OneSlot(g, l, t, l', t, d, p) && SlotOf(g, l, l', path, d, p)
  {
    hide WF, SlotAt, ObjectFits, DirOf, SetSlot, NoEndBefore, GoodName, SlotName, Below, Shaped, ChainsOk, Slots,
      Entry, Graft, Ref;
    DeadSlot(g, l, t, d, p, n);
    WFChains(g, l, t);
    OldRef(g, l, t, d, p);
    HolderStays(g, l, t, d, p);
    GraftWF(g, l, t, d, p, n, []);
    ShapedOf(g, l, t);
    SetSlotShape(g, l, p, n);
  }

  lemma DeadSlot(g: Geometry, l: Logical, t: Tree, d: nat, p: Pos, n: Slot)
    requires n[0] == 0xE5
    ensures !Entry(n) && ObjectFits(g, l, t, n, []) && Graft(t, d, p, n, []) == t
  {
  }

  lemma DeadScan(l: Logical, ps: seq<Pos>, name: Name)
    requires name[0] == 0xE5
    ensures Scan(l, ps, name).None?
  {
    hide SlotAt, Scan;
    ScanSound(l, ps, name);
  }

  /** Nothing is ever found under a name that begins with the deleted mark, nor below it. */
  lemma {:induction false} DeadPath(g: Geometry, l: Logical, path: seq<Name>, names: seq<Name>)
    requires Shaped(g, l) && path != [] && path[|path| - 1][0] == 0xE5 && path <= names
    requires DirOf(g, l, path[..|path| - 1]).Ok?
    ensures FindPath(g, l, names) == Err(NotFound) && DirOf(g, l, names) == Err(NotFound)
    decreases |names|
  {
    hide SlotAt, Scan, DirPos;
    var pre := names[..|names| - 1];
    if names == path {
      DeadScan(l, DirPos(g, l, DirOf(g, l, pre).value), names[|names| - 1]);
    } else {
      assert path <= pre;
      DeadPath(g, l, path, pre);
    }
  }

  /** Filling a slot in vain changes no path, not even the one it was meant for. */
  lemma VainReads(g: Geometry, l: Logical, t: Tree, path: seq<Name>, d: nat, p: Pos, n: Slot, names: seq<Name>)
    requires Vain(g, l, t, path, d, p, n) && NoDots(names) && InVolume(g, p) && Shaped(g, SetSlot(g, l, p, n))
    ensures Shaped(g, l) && ReadPath(g, SetSlot(g, l, p, n), names) == ReadPath(g, l, names)
    ensures path <= names ==> ReadPath(g, l, names) == Err(NotFound)
  {
    hide WF, SlotAt, SetSlot, DirOf, SlotFits, OneSlot, SlotOf, Entry, FindPath, Shaped, ChainsOk, ReadFrom;
    VainOneSlot(g, l, t, path, d, p, n);
    WFChains(g, l, t);
    ShapedOf(g, l, t);
    var l' := SetSlot(g, l, p, n);
    if path <= names {
      CommitDir(g, l, t, l', t, path, d, p, path[..|path| - 1]);
      DeadPath(g, l, path, names);
      DeadPath(g, l', path, names);
    } else {
      CommitOthers(g, l, t, l', t, path, d, p, names);
    }
  }

  /** Nothing can be read below a path that is not a directory with entries. */
  lemma {:induction false} BelowReadsNothing(g: Geometry, l: Logical, t: Tree, path: seq<Name>, names: seq<Name>)
    requires WF(g, l, t) && 1 <= g.spc && NoDots(names) && path != [] && path < names
    requires DirOf(g, l, path).Ok? && DirOf(g, l, path).value in t.chains ==>
               Vacuous(l, Slots(g, t, DirOf(g, l, path).value))
    ensures ReadPath(g, l, names).Err? && ReadPath(g, l, names).error != IsADirectory && DirOf(g, l, names).Err?
    decreases |names|
  {
    hide WF, Shaped, SlotAt, Scan, ReadFrom, EndsOk, Slots, DirPos, RefOk, Entry, SlotFirst, SlotIsDir, SlotSize;
    var k := |names| - 1;
    var pre := names[..k];
    DirInTree(g, l, t, pre);
    WFChains(g, l, t);
    DirErrors(g, l, pre);
    if pre == path {
      if DirOf(g, l, pre).Ok? {
        FoundEntry(g, l, t, DirOf(g, l, pre).value, names[k]);
      }
    } else {
      assert path < pre;
      BelowReadsNothing(g, l, t, path, pre);
    }
  }

  /** Nothing in the tree is out of reach: every object has a path from the root. */
  lemma {:induction false} PathTo(g: Geometry, l: Logical, t: Tree, f: nat) returns (names: seq<Name>)
    requires Shaped(g, l) && WF(g, l, t) && f in t.chains && f in t.depth
    ensures NoDots(names)
    ensures f in t.dirs ==> DirOf(g, l, names) == Ok(f)
    ensures f != g.root ==> FindPath(g, l, names).Ok? && SlotFirst(SlotAt(l, FindPath(g, l, names).value)) == f
    decreases t.depth[f]
  {
    hide WF, SlotAt, Scan, Slots, DirPos, EndsOk, NamesOk, SlotName, SlotFirst, SlotIsDir;
    names := [];
    if f != g.root {
      var d, p := Parent(g, l, t, f);
      var pre := PathTo(g, l, t, d);
      var name := SlotName(SlotAt(l, p));
      names := pre + [name];
      assert names[..|names| - 1] == pre;
      EndsNames(g, l, t, d);
      ScanUnique(l, Slots(g, t, d), name, p);
    }
  }

  lemma Parent(g: Geometry, l: Logical, t: Tree, f: nat) returns (d: nat, p: Pos)
    requires WF(g, l, t) && f in t.chains && f != g.root
    ensures d in t.dirs && d in t.chains && d in t.depth && f in t.depth && t.depth[d] < t.depth[f]
    ensures p in Slots(g, t, d) && SlotFirst(SlotAt(l, p)) == f && (SlotIsDir(SlotAt(l, p)) <==> f in t.dirs)
    ensures Matches(SlotAt(l, p), SlotName(SlotAt(l, p))) && SlotName(SlotAt(l, p))[0] != PERIOD
  {
    assert NamedOk(g, l, t, f);
    d, p := t.par[f], t.at[f];
    assert DirOk(g, l, t, d);
    hide SlotAt, Shaped, IsChain, ChainPos, NamesOk, EndsOk, SlotName, SlotFirst, Slots, ShownAsDots, Apart;
  }
}
