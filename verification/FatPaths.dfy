/** Paths: walking directories from the root, and what a path reads as. */
module FatPaths {
  import opened Basics
  import opened FatBytes
  import opened FatVolume
  import opened FatChains
  import opened FatData
  import opened FatDirs
  import opened FatNames
  import opened FatTree
  import opened FatCommit

  /** The directory a list of names leads to. */
  ghost function DirOf(g: Geometry, l: Logical, names: seq<Name>): Result<nat>
    requires Shaped(g, l)
  {
    if names == [] then Ok(g.root) else
      var n := |names| - 1;
      var d :- DirOf(g, l, names[..n]);
      match Scan(l, DirPos(g, l, d), names[n])
      case None => Err(NotFound)
      case Some(p) =>
        if SlotIsDir(SlotAt(l, p)) then Ok(SlotFirst(SlotAt(l, p))) else Err(NotADirectory)
  }

  /** The slot that names the last component. */
  ghost function FindPath(g: Geometry, l: Logical, names: seq<Name>): Result<Pos>
    requires Shaped(g, l)
  {
    if names == [] then Err(NotFound) else
      var n := |names| - 1;
      var d :- DirOf(g, l, names[..n]);
      match Scan(l, DirPos(g, l, d), names[n])
      case None => Err(NotFound)
      case Some(p) => Ok(p)
  }

  /** What reading a path returns. */
  ghost function ReadPath(g: Geometry, l: Logical, names: seq<Name>): Result<seq<byte>>
    requires Shaped(g, l) && 1 <= g.spc
  {
    var p :- FindPath(g, l, names);
    var s := SlotAt(l, p);
    if SlotIsDir(s) then Err(IsADirectory) else Ok(ReadFrom(g, l, SlotFirst(s), SlotSize(s)))
  }

  /** The only ways a directory on the way can be missing. */
  lemma {:induction false} DirErrors(g: Geometry, l: Logical, names: seq<Name>)
    requires Shaped(g, l)
    ensures DirOf(g, l, names).Err? ==> DirOf(g, l, names).error in {NotFound, NotADirectory}
  {
    hide Scan, SlotAt, DirPos;
    if names != [] { DirErrors(g, l, names[..|names| - 1]); }
  }

  /** No component is spelled like a dot entry; the short name of a path component never is. */
  ghost predicate NoDots(names: seq<Name>) { forall i :: 0 <= i < |names| ==> names[i][0] != PERIOD }

  // --- scans of a well formed directory ---

  ghost predicate Matches(s: Slot, name: Name) { SlotLive(s) && SlotName(s) == name }

  lemma {:induction false} ScanSound(l: Logical, ps: seq<Pos>, name: Name)
    ensures var r := Scan(l, ps, name); r.Some? ==> r.value in ps && Matches(SlotAt(l, r.value), name)
  {
    hide SlotAt;
    if ps != [] { ScanSound(l, ps[1..], name); }
  }

  lemma {:induction false} ScanComplete(l: Logical, ps: seq<Pos>, name: Name)
    requires EndsOk(l, ps)
    ensures Scan(l, ps, name).None? ==> forall q :: q in ps ==> !Matches(SlotAt(l, q), name)
  {
    hide SlotAt, SlotName;
    if ps != [] {
      var rest := ps[1..];
      assert forall i :: 0 <= i < |rest| ==> rest[i] == ps[i + 1];
      if SlotAt(l, ps[0])[0] == 0 {
        forall q | q in ps ensures SlotAt(l, q)[0] == 0 {
          var i :| 0 <= i < |ps| && ps[i] == q;
        }
      } else {
        assert EndsOk(l, rest);
        ScanComplete(l, rest, name);
        assert forall q :: q in ps ==> q == ps[0] || q in rest;
      }
    }
  }

  /** In a well formed directory a scan finds the one entry of that name, and only that. */
  lemma ScanUnique(l: Logical, ps: seq<Pos>, name: Name, q: Pos)
    requires EndsOk(l, ps) && NamesOk(l, ps) && name[0] != PERIOD
    ensures Scan(l, ps, name) == Some(q) <==> q in ps && Matches(SlotAt(l, q), name)
  {
    ScanSound(l, ps, name);
    ScanComplete(l, ps, name);
    hide SlotAt, Scan, EndsOk;
    if q in ps && Matches(SlotAt(l, q), name) {
      var r := Scan(l, ps, name);
      assert Entry(SlotAt(l, q)) && Entry(SlotAt(l, r.value));
    }
  }

  lemma {:induction false} ScanSame(l: Logical, l': Logical, ps: seq<Pos>, name: Name)
    requires forall p :: p in ps ==> SlotAt(l', p) == SlotAt(l, p)
    ensures Scan(l', ps, name) == Scan(l, ps, name)
  {
    hide SlotAt;
    if ps != [] { ScanSame(l, l', ps[1..], name); }
  }

  /** What locating a name says: the matching entry, or a slot fit for a new one. */
  lemma {:induction false} LocateSound(l: Logical, ps: seq<Pos>, k: nat, name: Name, free: Option<Pos>)
    requires EndsOk(l, ps) && PosDistinct(ps) && k <= |ps|
    requires forall i :: 0 <= i < k ==> SlotAt(l, ps[i])[0] != 0 && !Matches(SlotAt(l, ps[i]), name)
    requires free.Some? ==> free.value in ps && SlotAt(l, free.value)[0] == 0xE5
    ensures var r := Locate(l, ps[k..], name, free);
            && (r.Existing? ==> r.at in ps && Matches(SlotAt(l, r.at), name))
            && (!r.Existing? ==> forall q :: q in ps ==> !Matches(SlotAt(l, q), name))
            && (r.Vacant? ==> r.at in ps)
            && (r.Vacant? ==> SlotAt(l, r.at)[0] == 0xE5 || (SlotAt(l, r.at)[0] == 0 && NoEndBefore(l, ps, r.at)))
    decreases |ps| - k
  {
    hide SlotAt, SlotName, SlotSkipped;
    if k < |ps| {
      var s := SlotAt(l, ps[k]);
      assert ps[k..][0] == ps[k] && ps[k..][1..] == ps[k + 1..];
      if s[0] == 0 {
        forall q | q in ps ensures !Matches(SlotAt(l, q), name) {
          var i :| 0 <= i < |ps| && ps[i] == q;
        }
      } else if s[0] == 0xE5 {
        LocateSound(l, ps, k + 1, name, if free.Some? then free else Some(ps[k]));
      } else if !Matches(s, name) {
        LocateSound(l, ps, k + 1, name, free);
      }
    }
  }

  // --- resolution inside a well formed volume ---

  lemma DirSlots(g: Geometry, l: Logical, t: Tree, d: nat)
    requires ChainsOk(g, l, t) && d in t.chains
    ensures DirPos(g, l, d) == Slots(g, t, d)
  {
    WalkIsChain(g, l, t.chains[d]);
  }

  /** The entry of a given name, when the scan finds one. */
  lemma FoundEntry(g: Geometry, l: Logical, t: Tree, d: nat, name: Name)
    requires WF(g, l, t) && d in t.dirs && name[0] != PERIOD
    ensures var r := Scan(l, DirPos(g, l, d), name);
            && DirPos(g, l, d) == Slots(g, t, d)
            && (r.Some? ==> r.value in Slots(g, t, d) && Entry(SlotAt(l, r.value))
                            && SlotName(SlotAt(l, r.value)) == name
                            && RefOk(g, t, d, r.value, SlotAt(l, r.value)))
  {
    assert DirOk(g, l, t, d);
    DirSlots(g, l, t, d);
    hide ChainPos, SlotAt, Scan, Shaped, IsChain, NamedOk, Apart, Slots;
    ScanSound(l, Slots(g, t, d), name);
    assert DotName()[0] == PERIOD && DotDotName()[0] == PERIOD;
  }

  lemma {:induction false} DirInTree(g: Geometry, l: Logical, t: Tree, names: seq<Name>)
    requires WF(g, l, t) && NoDots(names)
    ensures DirOf(g, l, names).Ok? ==> DirOf(g, l, names).value in t.dirs
  {
    hide DirOk, NamedOk, Apart, IsChain, Shaped, Scan, SlotAt, GoodName, Slots, DirPos, ChainPos;
    if names != [] {
      var n := |names| - 1;
      DirInTree(g, l, t, names[..n]);
      if DirOf(g, l, names[..n]).Ok? {
        FoundEntry(g, l, t, DirOf(g, l, names[..n]).value, names[n]);
      }
    }
  }

  /** Different paths lead to different directories. */
  lemma {:induction false} DirUnique(g: Geometry, l: Logical, t: Tree, a: seq<Name>, b: seq<Name>)
    requires WF(g, l, t) && NoDots(a) && NoDots(b)
    requires DirOf(g, l, a).Ok? && DirOf(g, l, a) == DirOf(g, l, b)
    ensures a == b
    decreases |a| + |b|
  {
    hide DirOk, NamedOk, Apart, IsChain, Shaped, Scan, SlotAt, GoodName, Slots, DirPos, ChainPos, SlotName;
    if a != [] {
      var n := |a| - 1;
      DirInTree(g, l, t, a[..n]);
      FoundEntry(g, l, t, DirOf(g, l, a[..n]).value, a[n]);
    }
    if b != [] {
      var m := |b| - 1;
      DirInTree(g, l, t, b[..m]);
      FoundEntry(g, l, t, DirOf(g, l, b[..m]).value, b[m]);
    }
    if a != [] && b != [] {
      var n, m := |a| - 1, |b| - 1;
      DirUnique(g, l, t, a[..n], b[..m]);
      assert a == a[..n] + [a[n]] && b == b[..m] + [b[m]];
    }
  }

  // --- what a path reads as, in terms of the tree ---

  /** The bytes of the object a file slot refers to. */
  ghost function Contents(g: Geometry, l: Logical, t: Tree, s: Slot): seq<byte>
    requires ChainsOk(g, l, t)
  {
    if SlotFirst(s) in t.chains then
      ValidChain(g, l, t.chains[SlotFirst(s)]);
      TakeBytes(Flat(g, l, t.chains[SlotFirst(s)]), SlotSize(s))
    else []
  }

  lemma ValidChain(g: Geometry, l: Logical, ch: seq<nat>)
    requires IsChain(g, l, ch)
    ensures AllValid(g, ch)
  {
    forall c | c in ch ensures ValidCluster(g, c) {
      var i :| 0 <= i < |ch| && ch[i] == c;
    }
  }

  lemma ReadIsContents(g: Geometry, l: Logical, t: Tree, d: nat, p: Pos, s: Slot)
    requires ChainsOk(g, l, t) && 1 <= g.spc && d in t.depth && RefOk(g, t, d, p, s) && !SlotIsDir(s)
    ensures ReadFrom(g, l, SlotFirst(s), SlotSize(s)) == Contents(g, l, t, s)
  {
    var f := SlotFirst(s);
    if f in t.chains {
      var ch := t.chains[f];
      ReadFollowsChain(g, l, ch, 0, SlotSize(s));
      assert ch[0..] == ch;
    }
  }

  /** A successful lookup, with everything the tree says about it. */
  lemma FoundPath(g: Geometry, l: Logical, t: Tree, names: seq<Name>)
    requires WF(g, l, t) && NoDots(names) && names != [] && FindPath(g, l, names).Ok?
    ensures var d := DirOf(g, l, names[..|names| - 1]);
            var p := FindPath(g, l, names).value;
            && d.Ok? && d.value in t.dirs && p in Slots(g, t, d.value) && Entry(SlotAt(l, p))
            && SlotName(SlotAt(l, p)) == names[|names| - 1] && RefOk(g, t, d.value, p, SlotAt(l, p))
  {
    hide DirOk, NamedOk, Apart, IsChain, Shaped, Scan, SlotAt, GoodName, Slots, DirPos, ChainPos, SlotName;
    var n := |names| - 1;
    DirInTree(g, l, t, names[..n]);
    FoundEntry(g, l, t, DirOf(g, l, names[..n]).value, names[n]);
  }

  lemma ReadFound(g: Geometry, l: Logical, t: Tree, names: seq<Name>)
    requires WF(g, l, t) && 1 <= g.spc && NoDots(names) && names != [] && FindPath(g, l, names).Ok?
    ensures var s := SlotAt(l, FindPath(g, l, names).value);
            ReadPath(g, l, names) == if SlotIsDir(s) then Err(IsADirectory) else Ok(Contents(g, l, t, s))
  {
    FoundPath(g, l, t, names);
    hide DirOk, NamedOk, Apart, IsChain, Shaped, Scan, SlotAt, GoodName, Slots, DirPos, ChainPos, SlotName, Contents,
      ReadFrom;
    var p := FindPath(g, l, names).value;
    if !SlotIsDir(SlotAt(l, p)) {
      ReadIsContents(g, l, t, DirOf(g, l, names[..|names| - 1]).value, p, SlotAt(l, p));
    }
  }

  // --- writes outside the tree change no path ---

  lemma ContentsSame(g: Geometry, l: Logical, l': Logical, t: Tree, s: Slot)
    requires ChainsOk(g, l, t) && ChainsOk(g, l', t) && SameOwned(t, l, l')
    ensures Contents(g, l', t, s) == Contents(g, l, t, s)
  {
    if SlotFirst(s) in t.chains {
      ValidChain(g, l, t.chains[SlotFirst(s)]);
      FlatFrame(g, l, l', t.chains[SlotFirst(s)]);
    }
  }

  lemma ScanDirSame(g: Geometry, l: Logical, l': Logical, t: Tree, d: nat, name: Name)
    requires ChainsOk(g, l, t) && ChainsOk(g, l', t) && SameOwned(t, l, l') && d in t.dirs
    ensures Scan(l', DirPos(g, l', d), name) == Scan(l, DirPos(g, l, d), name)
    ensures var r := Scan(l, DirPos(g, l, d), name); r.Some? ==> SlotAt(l', r.value) == SlotAt(l, r.value)
  {
    DirSlots(g, l, t, d);
    DirSlots(g, l', t, d);
    SlotsSame(g, l, l', t, d);
    hide SlotAt, Scan, Shaped, IsChain, Slots, DirPos;
    ScanSame(l, l', Slots(g, t, d), name);
    ScanSound(l, Slots(g, t, d), name);
  }

  lemma {:induction false} DirOfSame(g: Geometry, l: Logical, l': Logical, t: Tree, names: seq<Name>)
    requires WF(g, l, t) && WF(g, l', t) && SameOwned(t, l, l') && NoDots(names)
    ensures DirOf(g, l', names) == DirOf(g, l, names)
  {
    hide DirOk, NamedOk, Apart, IsChain, Shaped, Scan, SlotAt, SameOwned, DirPos;
    if names != [] {
      var n := |names| - 1;
      DirOfSame(g, l, l', t, names[..n]);
      DirInTree(g, l, t, names[..n]);
      if DirOf(g, l, names[..n]).Ok? {
        ScanDirSame(g, l, l', t, DirOf(g, l, names[..n]).value, names[n]);
      }
    }
  }

  /** Every path reads the same before and after writes outside the tree. */
  lemma ReadSame(g: Geometry, l: Logical, l': Logical, t: Tree, names: seq<Name>)
    requires WF(g, l, t) && WF(g, l', t) && SameOwned(t, l, l') && NoDots(names) && 1 <= g.spc
    ensures ReadPath(g, l', names) == ReadPath(g, l, names) && FindPath(g, l', names) == FindPath(g, l, names)
  {
    hide DirOk, NamedOk, Apart, IsChain, Shaped, Scan, SlotAt, SameOwned, DirPos, ReadFrom, Contents;
    if names != [] {
      var n := |names| - 1;
      DirOfSame(g, l, l', t, names[..n]);
      DirInTree(g, l, t, names[..n]);
      if DirOf(g, l, names[..n]).Ok? {
        ScanDirSame(g, l, l', t, DirOf(g, l, names[..n]).value, names[n]);
      }
      if FindPath(g, l, names).Ok? {
        ReadFound(g, l, t, names);
        ReadFound(g, l', t, names);
        ContentsSame(g, l, l', t, SlotAt(l, FindPath(g, l, names).value));
      }
    }
  }
}
