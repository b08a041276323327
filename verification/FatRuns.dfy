/** Whole runs: any sequence of operations, with the device refusing any accesses it likes. */
module FatRuns {
  import opened Basics
  import opened FatBytes
  import opened FatVolume
  import opened FatDevice
  import opened FatChains
  import opened FatData
  import opened FatDirs
  import opened FatNames
  import opened FatTree
  import opened FatCommit
  import opened FatPrune
  import opened FatOrphans
  import opened FatPaths
  import opened FatCommitPaths
  import opened FatEffects
  import opened FatSteps
  import opened FatOps
  import opened FatRemove
  import NormalPaths

  datatype Op = Write(path: seq<byte>, data: seq<byte>) | MakeDir(path: seq<byte>) | Delete(path: seq<byte>)
              | RemoveDir(path: seq<byte>)

  /** Paths come from strings that a zero byte ends. */
  ghost predicate GoodOp(op: Op) {
    0 !in op.path && (op.Write? ==> |op.data| < 0x1_0000_0000)
  }

  // --- names that are shown as dots ---

  /** Nothing on the volume has a name that is shown as dots. */
  ghost predicate Plain(g: Geometry, l: Logical)
    requires Shaped(g, l) && 1 <= g.spc
  {
    forall names :: NoDots(names) && names != [] && Exists(g, l, names) ==> !ShownAsDots(names[|names| - 1])
  }

  /** An operation that makes nothing of such a name. */
  ghost predicate PlainOp(op: Op) {
    var names := ShortNames(op.path);
    (op.Write? || op.MakeDir?) && names != [] ==> !ShownAsDots(names[|names| - 1])
  }

  lemma EffectPlain(
    g: Geometry, l0: Logical, t: Tree, trail0: seq<Logical>, l: Logical, t': Tree, trail: seq<Logical>,
    path: seq<Name>, res: Result<seq<byte>>, done: bool)
    requires Shaped(g, l0) && 1 <= g.spc && Effect(g, l0, t, trail0, l, t', trail, path, res, done) && Plain(g, l0)
    requires (res.Ok? || res.error == IsADirectory) && path != [] ==> !ShownAsDots(path[|path| - 1])
    ensures Shaped(g, l) && Plain(g, l)
  {
    hide WF, ShownAsDots, Shaped, ReadPath;
    forall names | NoDots(names) && names != [] && Exists(g, l, names) ensures !ShownAsDots(names[|names| - 1]) {
      assert !(path < names) || !done;
      if path <= names && done { assert names == path; }
      assert names != path || !done ==> Exists(g, l0, names);
    }
  }

  /** On such a volume the directories are honest about being empty. */
  lemma PlainTelling(g: Geometry, l: Logical, t: Tree, names: seq<Name>)
    requires Shaped(g, l) && WF(g, l, t) && 1 <= g.spc && Plain(g, l) && NoDots(names) && DirOf(g, l, names).Ok?
    ensures Telling(l, DirPos(g, l, DirOf(g, l, names).value))
  {
    hide WF, SlotAt, Slots, EndsOk, NamesOk, SlotName, Shaped, ShownAsDots, DirPos, Entry, Plain, DirOf, NoDots;
    var f := DirOf(g, l, names).value;
    DirInTree(g, l, t, names);
    EndsNames(g, l, t, f);
    forall q | q in Slots(g, t, f) && Entry(SlotAt(l, q)) ensures !ShownAsDots(SlotName(SlotAt(l, q))) {
      var longer := EntryPath(g, l, t, names, f, q);
      PlainAt(g, l, longer);
    }
  }

  lemma PlainAt(g: Geometry, l: Logical, names: seq<Name>)
    requires Shaped(g, l) && 1 <= g.spc && Plain(g, l) && NoDots(names) && names != [] && FindPath(g, l, names).Ok?
    ensures !ShownAsDots(names[|names| - 1])
  {
    hide ShownAsDots, FindPath, SlotAt, ReadFrom, Shaped;
    assert Exists(g, l, names);
  }

  /** The path of an entry of the directory `names` leads to. */
  lemma EntryPath(g: Geometry, l: Logical, t: Tree, names: seq<Name>, f: nat, q: Pos) returns (longer: seq<Name>)
    requires Shaped(g, l) && WF(g, l, t) && NoDots(names) && DirOf(g, l, names) == Ok(f) && f in t.dirs && f in t.chains
    requires q in Slots(g, t, f) && Entry(SlotAt(l, q))
    ensures longer == names + [SlotName(SlotAt(l, q))] && NoDots(longer) && FindPath(g, l, longer) == Ok(q)
  {
    hide WF, SlotAt, Slots, EndsOk, NamesOk, SlotName, Scan, DirPos, Entry, Matches, DirOf;
    EntryName(g, l, t, f, q);
    EndsNames(g, l, t, f);
    var name := SlotName(SlotAt(l, q));
    ScanUnique(l, Slots(g, t, f), name, q);
    longer := names + [name];
    assert longer[..|longer| - 1] == names && longer[|longer| - 1] == name;
    hide NoDots;
    assert NoDots(longer) by { LongerNoDots(names, name); }
  }

  lemma LongerNoDots(names: seq<Name>, name: Name)
    requires NoDots(names) && name[0] != PERIOD
    ensures NoDots(names + [name])
  {
  }

  lemma EntryName(g: Geometry, l: Logical, t: Tree, f: nat, q: Pos)
    requires WF(g, l, t) && f in t.dirs && f in t.chains && q in Slots(g, t, f) && Entry(SlotAt(l, q))
    ensures Matches(SlotAt(l, q), SlotName(SlotAt(l, q))) && SlotName(SlotAt(l, q))[0] != PERIOD
  {
    hide SlotAt, Slots, SlotName, NamedOk, Apart, IsChain, Shaped, NamesOk, EndsOk;
    assert DirOk(g, l, t, f);
  }

  lemma VerdictDir(g: Geometry, l: Logical, names: seq<Name>)
    requires Shaped(g, l) && RmdirVerdict(g, l, names).Ok?
    ensures names != [] && DirOf(g, l, names).Ok?
  {
    hide SlotAt, Scan, DirPos, OnlyDotted, Shaped, SlotFirst;
  }

  /** What `rmdir` strands on such a volume: nothing. */
  lemma PlainRmdir(g: Geometry, l: Logical, t: Tree, names: seq<Name>)
    requires Shaped(g, l) && WF(g, l, t) && 1 <= g.spc && Plain(g, l) && NoDots(names)
    requires RmdirVerdict(g, l, names).Ok?
    ensures Orphans(g, t, Target(g, l, names)) == {}
  {
    VerdictDir(g, l, names);
    hide WF, Shaped, Plain, Telling, Orphans, DirPos, Vacuous, Slots, RmdirVerdict, DirOf, Target;
    PlainTelling(g, l, t, names);
    HonestRmdir(g, l, t, names);
  }

  /** Some tree makes this image a well formed volume. */
  ghost predicate Sound(g: Geometry, l: Logical) { exists t :: WF(g, l, t) }

  /** Every image added to the trail since `t0` is a well formed volume. */
  ghost predicate TrailSound(g: Geometry, t0: seq<Logical>, t: seq<Logical>) {
    |t0| <= |t| && t[..|t0|] == t0 && forall i :: |t0| <= i < |t| ==> Sound(g, t[i])
  }

  lemma EffectSound(
    g: Geometry, l0: Logical, t: Tree, trail0: seq<Logical>, l: Logical, t': Tree, trail: seq<Logical>,
    path: seq<Name>, res: Result<seq<byte>>, done: bool)
    requires Shaped(g, l0) && 1 <= g.spc && Effect(g, l0, t, trail0, l, t', trail, path, res, done)
    ensures WF(g, l, t') && TrailSound(g, trail0, trail)
  {
    hide WF, SameReads, ReadsAs, Shaped;
    forall i | |trail0| <= i < |trail| ensures Sound(g, trail[i]) {
      assert WF(g, trail[i], t) || WF(g, trail[i], t');
    }
  }

  lemma SoundTrans(g: Geometry, t0: seq<Logical>, t1: seq<Logical>, t2: seq<Logical>)
    requires TrailSound(g, t0, t1) && TrailSound(g, t1, t2)
    ensures TrailSound(g, t0, t2)
  {
    hide Sound;
    assert t2[..|t0|] == t2[..|t1|][..|t0|];
    forall i | |t0| <= i < |t2| ensures Sound(g, t2[i]) {
      if i < |t1| { assert t2[i] == t2[..|t1|][i]; }
    }
  }

  // --- writing over a directory ---

  ghost predicate NoDirAt(g: Geometry, l: Logical, names: seq<Name>)
    requires Shaped(g, l) && 1 <= g.spc
  {
    ReadPath(g, l, names) != Err(IsADirectory)
  }

  /** Replacing what a path leads to loses nothing exactly when that is no directory, or one in which
      nothing has clusters. */
  lemma NothingLost(g: Geometry, l: Logical, t: Tree, names: seq<Name>)
    requires Shaped(g, l) && WF(g, l, t) && 1 <= g.spc && NoDots(names)
    ensures Lost(g, l, t) + Orphans(g, t, Target(g, l, names)) == Lost(g, l, t) <==>
            NoDirAt(g, l, names) || Hollow(l, DirPos(g, l, Target(g, l, names)))
  {
    hide WF, Orphans, Hollow, Slots, SlotAt, Scan, ReadFrom, Shaped;
    var f := Target(g, l, names);
    TargetKind(g, l, t, names);
    StrandsNothing(g, l, t, f);
    FatEntries(g, l);
    OrphansOwned(g, l, t, f);
    if f in t.dirs { EndsNames(g, l, t, f); }
    AddsNothing(Lost(g, l, t), Orphans(g, t, f));
  }

  lemma AddsNothing(a: set<nat>, b: set<nat>)
    requires a !! b
    ensures a + b == a <==> b == {}
  {
    assert a + b == a ==> b <= a;
  }

  lemma FatEntries(g: Geometry, l: Logical)
    requires Shaped(g, l)
    ensures |l.fat| == g.count + 2
  {
  }

  lemma TargetKind(g: Geometry, l: Logical, t: Tree, names: seq<Name>)
    requires Shaped(g, l) && WF(g, l, t) && 1 <= g.spc && NoDots(names)
    ensures Target(g, l, names) in t.dirs <==> !NoDirAt(g, l, names)
  {
    NoZeroDir(g, l, t);
    if names != [] { DirErrors(g, l, names[..|names| - 1]); }
    hide WF, SlotAt, Scan, DirPos, ReadFrom, Shaped, DirOf, Slots, GoodName, SlotFirst, SlotIsDir, SlotName, RefOk;
    if FindPath(g, l, names).Ok? {
      NamesThere(g, l, names);
      FoundPath(g, l, t, names);
      TreeKeys(g, l, t, DirOf(g, l, names[..|names| - 1]).value);
      RefKind(g, l, t, DirOf(g, l, names[..|names| - 1]).value, FindPath(g, l, names).value,
              SlotAt(l, FindPath(g, l, names).value));
    }
  }

  /** A directory that holds a directory loses it. */
  lemma SubdirStranded(g: Geometry, l: Logical, t: Tree, names: seq<Name>, name: Name) returns (c: nat)
    requires Shaped(g, l) && WF(g, l, t) && 1 <= g.spc && names != [] && NoDots(names + [name])
    requires ReadPath(g, l, names + [name]) == Err(IsADirectory)
    ensures c in Orphans(g, t, Target(g, l, names)) && c !in Lost(g, l, t)
  {
    var sub := names + [name];
    assert sub[..|sub| - 1] == names;
    NoZeroDir(g, l, t);
    DirErrors(g, l, names);
    hide WF, SlotAt, Scan, DirPos, ReadFrom, Slots, GoodName, SlotFirst, SlotIsDir, SlotName, RefOk, Orphans, Lost,
      Entry;
    FoundPath(g, l, t, sub);
    var f, q := DirOf(g, l, names).value, FindPath(g, l, sub).value;
    TreeKeys(g, l, t, f);
    RefKind(g, l, t, f, q, SlotAt(l, q));
    c := SlotFirst(SlotAt(l, q));
    ChildStranded(g, l, t, f, q);
    TargetOf(g, l, names);
    OrphansOwned(g, l, t, f);
  }

  /** There is a reason why an entry cannot be made at `names`; its being there already is one if `new_`. */
  ghost predicate Barred(g: Geometry, l: Logical, names: seq<Name>, need: nat, new_: bool)
    requires Shaped(g, l)
  {
    (new_ && FindPath(g, l, names).Ok?) || exists e :: Refused(g, l, names, need, e)
  }

  /** The flush of a file whose place a directory has taken in the meantime: it reports success, and the
      directory that was inside is lost. */
  method FlushOverDirectory(v: Volume, path: seq<byte>, sub: seq<byte>, data: seq<byte>, ghost t: Tree)
    returns (ok: bool, ghost t': Tree, ghost c: nat, ghost l1: Logical, ghost l2: Logical)
    requires Ready(v, t) && 0 !in path && 0 !in sub && |data| < 0x1_0000_0000
    requires var names, subs := ShortNames(path), ShortNames(sub);
             && Storable(names) && Storable(subs) && names != [] && |subs| == |names| + 1 && names == subs[..|names|]
    modifies v
    ensures v.Valid() && v.faults >= old(v.faults) && Shaped(v.g, v.log)
    ensures ok && v.faults == old(v.faults) ==>
              && ReadPath(v.g, v.log, ShortNames(path)) == Ok(data)
              && Lost(v.g, old(v.log), t) < Lost(v.g, v.log, t')
              && c in Lost(v.g, v.log, t') && c !in Lost(v.g, old(v.log), t)
    ensures Shaped(v.g, l1) && Shaped(v.g, l2)
    ensures !ok && v.faults == old(v.faults) ==>
              || Barred(v.g, old(v.log), ShortNames(path), 1, true)
              || Barred(v.g, l1, ShortNames(sub), 1, true)
              || Barred(v.g, l2, ShortNames(path), Clusters(v.g, |data|), false)
  {
    hide LogOf, FatEnd, DataEnd, FirstSector, RawEntry, Kept, Mirrored, WF, DiskStep, Lost, ShortNames, SlotAt,
      FindPath, ReadPath, Refused, DirOf, Orphans, Storable, Target, Clusters, Effect, Shaped, DotsOf;
    ghost var names, subs := ShortNames(path), ShortNames(sub);
    c, ok, l1, l2 := 0, false, v.log, v.log;
    var r;
    r, t' := Mkdir(v, path, t);
    EffectResult(v.g, old(v.log), t, old(v.trail), v.log, t', v.trail, names, Err(IsADirectory),
                 r.Ok? && Storable(names));
    if r.Err? { return; }
    l1, l2 := v.log, v.log;
    ghost var t1, trail1 := t', v.trail;
    r, t' := Mkdir(v, sub, t1);
    EffectResult(v.g, l1, t1, trail1, v.log, t', v.trail, subs, Err(IsADirectory), r.Ok? && Storable(subs));
    if r.Err? { return; }
    l2 := v.log;
    ghost var t2, trail2 := t', v.trail;
    ShortNoDots(sub);
    assert subs == names + [subs[|names|]];
    c := SubdirStranded(v.g, l2, t2, names, subs[|names|]);
    r, t' := WriteFile(v, path, data, t2);
    EffectResult(v.g, l2, t2, trail2, v.log, t', v.trail, names, Ok(data), r.Ok? && Storable(names));
    ok := r.Ok?;
  }

  lemma EffectResult(
    g: Geometry, l0: Logical, t: Tree, trail0: seq<Logical>, l: Logical, t': Tree, trail: seq<Logical>,
    path: seq<Name>, res: Result<seq<byte>>, done: bool)
    requires Shaped(g, l0) && 1 <= g.spc && Effect(g, l0, t, trail0, l, t', trail, path, res, done)
    ensures Shaped(g, l) && WF(g, l, t') && (done ==> ReadPath(g, l, path) == res)
    ensures !done ==> t' == t && SameReads(g, l0, l)
  {
    hide WF, Shaped, ReadPath;
  }

  /** There are such paths: `/A` and `/A/B`. */
  lemma FlushPaths()
    ensures var path: seq<byte>, sub: seq<byte> := [SLASH, 0x41], [SLASH, 0x41, SLASH, 0x42];
            var names, subs := ShortNames(path), ShortNames(sub);
            && Storable(names) && Storable(subs) && names != [] && |subs| == |names| + 1 && names == subs[..|names|]
  {
    hide Components, ShortName;
    var a: seq<byte>, b: seq<byte> := [0x41], [0x42];
    TwoComponents(a, b);
    Letter(a);
    Letter(b);
    assert [SLASH] + a == [SLASH, 0x41] && [SLASH] + a + ([SLASH] + b) == [SLASH, 0x41, SLASH, 0x42];
  }

  lemma TwoComponents(a: seq<byte>, b: seq<byte>)
    requires a != [] && b != [] && SLASH !in a && SLASH !in b
    ensures Components([SLASH] + a) == [a] && Components([SLASH] + a + ([SLASH] + b)) == [a, b]
  {
    assert Components([]) == [];
    hide Components;
    NormalPaths.JoinedStep(a, []);
    NormalPaths.JoinedStep(b, []);
    NormalPaths.JoinedStep(a, [SLASH] + b);
    assert [SLASH] + a + [] == [SLASH] + a && [SLASH] + b + [] == [SLASH] + b;
  }

  lemma Letter(c: seq<byte>)
    requires |c| == 1 && 0x41 <= c[0] <= 0x5A
    ensures GoodName(ShortName(c))
  {
    FirstAt(c, PERIOD, 1);
    hide IndexOf;
    assert c[..1] == c;
  }

  /** A file with a perfectly good name: writing it reports success, it cannot be read, and its clusters
      are lost. */
  method WriteZi(v: Volume, data: seq<byte>, ghost t: Tree) returns (r: Result<()>, ghost t': Tree)
    requires Ready(v, t) && |data| < 0x1_0000_0000
    modifies v
    ensures v.Valid() && v.faults >= old(v.faults) && Shaped(v.g, v.log)
    ensures ReadPath(v.g, v.log, ShortNames(Zi())) == Err(NotFound)
    ensures v.faults == old(v.faults) && r.Ok? ==>
              |Lost(v.g, v.log, t')| == |Lost(v.g, old(v.log), t)| + Clusters(v.g, |data|)
  {
    hide LogOf, FatEnd, DataEnd, FirstSector, RawEntry, Kept, Mirrored, WF, DiskStep, Lost, SlotAt, FindPath, ReadPath,
      Refused, DirOf, Orphans, Target, Clusters, Effect, Shaped;
    ghost var names := ShortNames(Zi());
    ZiIsDead();
    hide ShortNames, ShortName;
    DeadAtRoot(v.g, v.log, names);
    r, t' := WriteFile(v, Zi(), data, t);
    EffectResult(v.g, old(v.log), t, old(v.trail), v.log, t', v.trail, names, Ok(data), r.Ok? && Storable(names));
    ShortNoDots(Zi());
  }

  lemma DeadAtRoot(g: Geometry, l: Logical, names: seq<Name>)
    requires Shaped(g, l) && 1 <= g.spc && |names| == 1 && names[0][0] == 0xE5
    ensures ReadPath(g, l, names) == Err(NotFound)
  {
    hide Scan, DirPos, SlotAt, ReadFrom;
    DeadPath(g, l, names, names);
  }

  // --- runs ---

  /** No path becomes a directory but the one an operation makes one. */
  ghost predicate NoNewDirs(g: Geometry, l0: Logical, l: Logical, op: Op)
    requires Shaped(g, l0) && Shaped(g, l) && 1 <= g.spc
  {
    forall names :: NoDots(names) && NoDirAt(g, l0, names) && !(op.MakeDir? && ShortNames(op.path) == names) ==>
      NoDirAt(g, l, names)
  }

  /** An operation that cannot lose a cluster: it makes only what can be kept, writes over no directory, and
      removes only a directory that is honest about being empty. */
  ghost predicate Harmless(g: Geometry, l: Logical, op: Op)
    requires Shaped(g, l) && 1 <= g.spc
  {
    var names := ShortNames(op.path);
    match op
    case Write(_, _) => Storable(names) && NoDirAt(g, l, names)
    case MakeDir(_) => Storable(names)
    case Delete(_) => true
    case RemoveDir(_) => Plain(g, l)
  }

  /** What every effect keeps. */
  lemma EffectKeeps(
    g: Geometry, l0: Logical, t: Tree, trail0: seq<Logical>, l: Logical, t': Tree, trail: seq<Logical>,
    op: Op, res: Result<seq<byte>>, done: bool)
    requires Shaped(g, l0) && 1 <= g.spc && Effect(g, l0, t, trail0, l, t', trail, ShortNames(op.path), res, done)
    requires res.Ok? ==> op.Write?
    requires res == Err(IsADirectory) ==> op.MakeDir?
    ensures WF(g, l, t') && TrailSound(g, trail0, trail) && Shaped(g, l)
    ensures (Plain(g, l0) && PlainOp(op) ==> Plain(g, l)) && NoNewDirs(g, l0, l, op)
  {
    hide WF, Effect, TrailSound, Shaped, Plain, ShortNames, ShownAsDots, NoNewDirs;
    EffectSound(g, l0, t, trail0, l, t', trail, ShortNames(op.path), res, done);
    EffectResult(g, l0, t, trail0, l, t', trail, ShortNames(op.path), res, done);
    EffectDirs(g, l0, t, trail0, l, t', trail, op, res, done);
    if Plain(g, l0) && PlainOp(op) {
      EffectPlain(g, l0, t, trail0, l, t', trail, ShortNames(op.path), res, done);
    }
  }

  lemma EffectDirs(
    g: Geometry, l0: Logical, t: Tree, trail0: seq<Logical>, l: Logical, t': Tree, trail: seq<Logical>,
    op: Op, res: Result<seq<byte>>, done: bool)
    requires Shaped(g, l0) && 1 <= g.spc && Effect(g, l0, t, trail0, l, t', trail, ShortNames(op.path), res, done)
    requires res == Err(IsADirectory) ==> op.MakeDir?
    ensures Shaped(g, l) && NoNewDirs(g, l0, l, op)
  {
    hide WF, Shaped, ReadPath, ShortNames;
    var path := ShortNames(op.path);
    forall names | NoDots(names) && NoDirAt(g, l0, names) && !(op.MakeDir? && path == names)
      ensures NoDirAt(g, l, names)
    {
      if done && path < names { assert !Exists(g, l, names); }
      assert path <= names ==> path == names || path < names;
    }
  }

  /** One operation of a run. A write is the flush of an open file, at `close` or at exit. */
  method Step(v: Volume, op: Op, ghost t: Tree) returns (ghost t': Tree)
    requires Ready(v, t) && GoodOp(op)
    modifies v
    ensures v.Valid() && v.faults >= old(v.faults) && Shaped(v.g, v.log)
    ensures WF(v.g, v.log, t') && TrailSound(v.g, old(v.trail), v.trail)
    ensures DiskStep(v.g, old(v.disk), v.disk, v.faults == old(v.faults))
    ensures v.faults == old(v.faults) ==> Lost(v.g, old(v.log), t) <= Lost(v.g, v.log, t')
    ensures v.faults == old(v.faults) && Harmless(v.g, old(v.log), op) ==>
              Lost(v.g, v.log, t') == Lost(v.g, old(v.log), t)
    ensures Plain(v.g, old(v.log)) && PlainOp(op) ==> Plain(v.g, v.log)
    ensures NoNewDirs(v.g, old(v.log), v.log, op)
  {
    hide LogOf, FatEnd, DataEnd, FirstSector, RawEntry, Kept, Mirrored, WF, Effect, DiskStep, Lost, ShortNames,
      TrailSound, SlotAt, FindPath, ReadPath, Refused, DirOf, Shaped, Plain, Orphans, RmdirVerdict, ShownAsDots,
      Marked, Chainless, Target, NoNewDirs, Storable, PlainOp, Clusters, Hollow, NoDirAt;
    ghost var l0, t0 := v.log, v.trail;
    ghost var names := ShortNames(op.path);
    ShortNoDots(op.path);
    var r: Result<()>;
    ghost var done: bool;
    match op {
      case Write(path, data) =>
        r, t' := WriteFile(v, path, data, t);
        EffectKeeps(v.g, l0, t, t0, v.log, t', v.trail, op, Ok(data), r.Ok? && Storable(names));
        Unchanged(v.g, l0, t, t0, v.log, t', v.trail, names, Ok(data), r.Ok? && Storable(names));
        if NoDirAt(v.g, l0, names) { NothingLost(v.g, l0, t, names); }
      case MakeDir(path) =>
        r, t' := Mkdir(v, path, t);
        EffectKeeps(v.g, l0, t, t0, v.log, t', v.trail, op, Err(IsADirectory), r.Ok? && Storable(names));
        Unchanged(v.g, l0, t, t0, v.log, t', v.trail, names, Err(IsADirectory), r.Ok? && Storable(names));
      case Delete(path) =>
        r, t', done := Unlink(v, path, t);
        EffectKeeps(v.g, l0, t, t0, v.log, t', v.trail, op, Err(NotFound), done);
      case RemoveDir(path) =>
        r, t', done := Rmdir(v, path, t);
        EffectKeeps(v.g, l0, t, t0, v.log, t', v.trail, op, Err(NotFound), done);
        if v.faults == old(v.faults) && r.Ok? && Plain(v.g, l0) {
          PlainRmdir(v.g, l0, t, names);
        }
    }
  }

  /** Whatever is not done leaves the tree. */
  lemma Unchanged(
    g: Geometry, l0: Logical, t: Tree, trail0: seq<Logical>, l: Logical, t': Tree, trail: seq<Logical>,
    path: seq<Name>, res: Result<seq<byte>>, done: bool)
    requires Shaped(g, l0) && 1 <= g.spc && Effect(g, l0, t, trail0, l, t', trail, path, res, done)
    ensures !done ==> t' == t
  {
    hide WF, Shaped, ReadPath;
  }

  /** A run that cannot lose a cluster, judged before it starts: everything made can be kept; no file is
      written where a directory is, or where the run makes one; and if directories are removed, no name is
      shown as dots. */
  ghost predicate Tame(g: Geometry, l: Logical, ops: seq<Op>)
    requires Shaped(g, l) && 1 <= g.spc
  {
    && (forall i :: 0 <= i < |ops| && (ops[i].Write? || ops[i].MakeDir?) ==> Storable(ShortNames(ops[i].path)))
    && WritesClear(g, l, ops)
    && (forall i, j :: 0 <= i < |ops| && 0 <= j < |ops| && ops[i].Write? && ops[j].MakeDir? ==>
          ShortNames(ops[i].path) != ShortNames(ops[j].path))
    && (RemovesNone(ops) || (Plain(g, l) && forall i :: 0 <= i < |ops| ==> PlainOp(ops[i])))
  }

  ghost predicate RemovesNone(ops: seq<Op>) { forall i :: 0 <= i < |ops| ==> !ops[i].RemoveDir? }

  ghost predicate WritesClear(g: Geometry, l: Logical, ops: seq<Op>)
    requires Shaped(g, l) && 1 <= g.spc
  {
    forall i :: 0 <= i < |ops| && ops[i].Write? ==> NoDirAt(g, l, ShortNames(ops[i].path))
  }

  lemma TameStep(g: Geometry, l: Logical, l': Logical, ops: seq<Op>, i: nat)
    requires Shaped(g, l) && Shaped(g, l') && 1 <= g.spc && Tame(g, l, ops) && i < |ops|
    requires (Plain(g, l) && PlainOp(ops[i]) ==> Plain(g, l')) && NoNewDirs(g, l, l', ops[i])
    ensures Tame(g, l', ops) && Harmless(g, l, ops[i])
  {
    hide ShortNames, Storable, Plain, PlainOp, NoDirAt, Shaped;
    forall j | 0 <= j < |ops| && ops[j].Write? ensures NoDirAt(g, l', ShortNames(ops[j].path)) {
      ShortNoDots(ops[j].path);
    }
  }

  /** The volume invariant over every run: after each operation, and after every single sector write,
      whatever the device refuses, the volume is well formed; and while it refuses nothing the table
      copies stay in agreement, no lost cluster is found again, and a tame run loses none. */
  method Run(v: Volume, ops: seq<Op>, ghost t: Tree) returns (ghost t': Tree)
    requires Ready(v, t)
    requires forall i :: 0 <= i < |ops| ==> GoodOp(ops[i])
    modifies v
    ensures v.Valid() && v.faults >= old(v.faults) && Shaped(v.g, v.log)
    ensures WF(v.g, v.log, t') && TrailSound(v.g, old(v.trail), v.trail)
    ensures DiskStep(v.g, old(v.disk), v.disk, v.faults == old(v.faults))
    ensures v.faults == old(v.faults) ==> Lost(v.g, old(v.log), t) <= Lost(v.g, v.log, t')
    ensures v.faults == old(v.faults) && Tame(v.g, old(v.log), ops) ==> Lost(v.g, v.log, t') == Lost(v.g, old(v.log), t)
  {
    hide LogOf, FatEnd, DataEnd, FirstSector, RawEntry, WF, Lost, Sound, DiskStep, Plain, PlainOp, GoodOp, Tame,
      Harmless, NoNewDirs;
    t' := t;
    DiskStepRefl(v.g, v.disk);
    ghost var tame := Tame(v.g, v.log, ops);
    var i := 0;
    while i < |ops|
      invariant 0 <= i <= |ops| && v.Valid() && v.faults >= old(v.faults)
      invariant WF(v.g, v.log, t') && TrailSound(v.g, old(v.trail), v.trail)
      invariant DiskStep(v.g, old(v.disk), v.disk, v.faults == old(v.faults))
      invariant v.faults == old(v.faults) ==> Lost(v.g, old(v.log), t) <= Lost(v.g, v.log, t')
      invariant v.faults == old(v.faults) && tame ==> Lost(v.g, v.log, t') == Lost(v.g, old(v.log), t)
      invariant tame ==> Tame(v.g, v.log, ops)
    {
      ghost var l1, d1, t1, f1 := v.log, v.disk, v.trail, v.faults;
      t' := Step(v, ops[i], t');
      SoundTrans(v.g, old(v.trail), t1, v.trail);
      DiskStepTrans(v.g, old(v.disk), d1, v.disk, f1 == old(v.faults), v.faults == f1);
      if tame { TameStep(v.g, l1, v.log, ops, i); }
      i := i + 1;
    }
  }

  /** Conservation: free, owned and lost clusters always make up the whole volume, so as long as no
      cluster is lost, free plus owned stays constant. */
  lemma Accounting(g: Geometry, l: Logical, t: Tree)
    requires Shaped(g, l) && WF(g, l, t)
    ensures |FreeSet(g, l)| + |Owned(g, t)| + |Lost(g, l, t)| == g.count
    ensures forall c :: Owns(t, c) ==> c in Owned(g, t)
  {
    hide WF, FreeSet, Owned, Lost, Span, Owns;
    Partition(g, l, t);
    ThreeParts(Span(2, g.count + 2), FreeSet(g, l), Owned(g, t), Lost(g, l, t));
  }

  lemma Partition(g: Geometry, l: Logical, t: Tree)
    requires Shaped(g, l) && WF(g, l, t)
    ensures forall c :: c in FreeSet(g, l) + Owned(g, t) + Lost(g, l, t) <==> 2 <= c < g.count + 2
    ensures FreeSet(g, l) !! Owned(g, t) && (FreeSet(g, l) + Owned(g, t)) !! Lost(g, l, t)
    ensures forall c :: Owns(t, c) ==> c in Owned(g, t)
  {
    WFChains(g, l, t);
    hide WF, ChainsOk, Owns;
    forall c: nat ensures Owns(t, c) ==> ValidCluster(g, c) && c < |l.fat| && l.fat[c] != 0 {
      if Owns(t, c) { OwnedFat(g, l, t, c); }
    }
    hide Shaped;
  }

  lemma ThreeParts(all: set<nat>, a: set<nat>, b: set<nat>, c: set<nat>)
    requires (forall e :: e in all <==> e in a + b + c) && a !! b && (a + b) !! c
    ensures |all| == |a| + |b| + |c|
  {
    assert all == a + b + c;
    assert |a + b| == |a| + |b|;
    assert |a + b + c| == |a + b| + |c|;
  }

  ghost function Owned(g: Geometry, t: Tree): set<nat> { set c | 2 <= c < g.count + 2 && Owns(t, c) }

  /** A freshly formatted volume, whose root directory is one cluster of zeros, is well formed. */
  lemma FreshVolumeWF(g: Geometry, l: Logical)
    requires Shaped(g, l) && g.count + 2 <= EOC_MIN && ValidCluster(g, g.root) && l.fat[g.root] >= EOC_MIN
    requires forall s :: 0 <= s < g.spc ==> l.data[g.root][s] == ZeroSector()
    ensures WF(g, l, Tree(map[g.root := [g.root]], {g.root}, map[], map[], map[g.root := 0]))
  {
    var t := Tree(map[g.root := [g.root]], {g.root}, map[], map[], map[g.root := 0]);
    assert IsChain(g, l, [g.root]);
    ChainPosMembers(g.spc, [g.root]);
    var ps := Slots(g, t, g.root);
    forall p | p in ps ensures SlotAt(l, p)[0] == 0 {
      ZeroAt(g, l, p);
    }
    hide SlotAt, ChainPos, IsChain, RefOk, ZeroSector;
    assert forall i :: 0 <= i < |ps| ==> ps[i] in ps;
    assert DirOk(g, l, t, g.root);
  }

  lemma ZeroAt(g: Geometry, l: Logical, p: Pos)
    requires Shaped(g, l) && InVolume(g, p) && l.data[p.c][p.s] == ZeroSector()
    ensures SlotAt(l, p)[0] == 0
  {
    hide ZeroSector, SlotIn;
  }
}
