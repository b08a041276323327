/** Deleting an entry: the object it names goes, and with it everything that was only reachable
    through it. What is left is again a well formed tree. */
module FatPrune {
  import opened FatBytes
  import opened FatVolume
  import opened FatChains
  import opened FatDirs
  import opened FatNames
  import opened FatTree
  import opened FatCommit

  /** `h` is `f`, or lies somewhere below it. */
  ghost predicate Below(t: Tree, f: nat, h: nat)
    decreases if h in t.depth then t.depth[h] else 0
  {
    || h == f
    || (h in t.par && h in t.depth && t.par[h] in t.depth && t.depth[t.par[h]] < t.depth[h] && Below(t, f, t.par[h]))
  }

  /** `m` without what lies at or below `f`. */
  ghost function Outside<T>(t: Tree, f: nat, m: map<nat, T>): (r: map<nat, T>)
    ensures forall h :: h in r <==> h in m && !Below(t, f, h)
    ensures forall h :: h in r ==> r[h] == m[h]
  {
    map h | h in m && !Below(t, f, h) :: m[h]
  }

  ghost function Prune(t: Tree, f: nat): Tree {
    Tree(
      Outside(t, f, t.chains),
      (set h | h in t.dirs && !Below(t, f, h)),
      Outside(t, f, t.par),
      Outside(t, f, t.at),
      Outside(t, f, t.depth))
  }

  /** What lies above an object. */
  lemma UpStep(g: Geometry, l: Logical, t: Tree, f: nat, h: nat)
    requires WF(g, l, t) && h in t.at
    ensures h in t.par && t.par[h] in t.dirs && t.par[h] in t.chains && t.par[h] in t.depth && h in t.depth
    ensures t.depth[h] == t.depth[t.par[h]] + 1
    ensures Below(t, f, h) <==> h == f || Below(t, f, t.par[h])
  {
    hide SlotAt, Shaped, IsChain, ChainPos, NamesOk, EndsOk, SlotName, SlotFirst, Slots, GoodName, Apart;
    assert NamedOk(g, l, t, h);
    assert DirOk(g, l, t, t.par[h]);
  }

  lemma {:induction false} BelowDeeper(g: Geometry, l: Logical, t: Tree, f: nat, h: nat)
    requires WF(g, l, t) && h in t.depth && Below(t, f, h)
    ensures f in t.depth && t.depth[f] <= t.depth[h]
    decreases t.depth[h]
  {
    hide WF;
    if h != f {
      TreeKeys(g, l, t, h);
      UpStep(g, l, t, f, h);
      BelowDeeper(g, l, t, f, t.par[h]);
    }
  }

  lemma TreeKeys(g: Geometry, l: Logical, t: Tree, h: nat)
    requires WF(g, l, t)
    ensures h in t.chains <==> h in t.depth
    ensures h in t.at <==> h in t.par
    ensures h in t.at <==> h in t.chains && h != g.root
    ensures h in t.dirs ==> h in t.chains
    ensures g.root in t.dirs && 0 !in t.chains && Shaped(g, l)
  {
    hide DirOk, NamedOk, Apart, Shaped;
    forall k | k in t.chains ensures k != 0 {
      assert ValidCluster(g, t.chains[k][0]);
    }
  }

  /** A directory is not below anything one of its slots refers to. */
  lemma HolderStays(g: Geometry, l: Logical, t: Tree, d: nat, p: Pos)
    requires WF(g, l, t) && d in t.dirs && d in t.chains && p in Slots(g, t, d)
    ensures !Below(t, Ref(SlotAt(l, p)), d)
  {
    hide WF, Slots, SlotAt, Ref;
    var f := Ref(SlotAt(l, p));
    OldRef(g, l, t, d, p);
    TreeKeys(g, l, t, d);
    TreeKeys(g, l, t, f);
    if Below(t, f, d) {
      BelowDeeper(g, l, t, f, d);
    }
  }

  /** The slot at `p` names an object of directory `d`; everything at or below that object is let go. */
  ghost predicate Drops(g: Geometry, l: Logical, t: Tree, d: nat, p: Pos) {
    WF(g, l, t) && d in t.dirs && d in t.chains && p in Slots(g, t, d) && Entry(SlotAt(l, p))
  }

  lemma DropFacts(g: Geometry, l: Logical, t: Tree, d: nat, p: Pos)
    requires Drops(g, l, t, d, p)
    ensures Shaped(g, l) && InVolume(g, p) && p.c in t.chains[d]
    ensures var f := Ref(SlotAt(l, p));
            && (f != 0 ==> f in t.at && t.at[f] == p && t.par[f] == d && f in t.chains)
            && f != g.root && !Below(t, f, d) && !Below(t, f, g.root)
  {
    hide WF, Slots, SlotAt, Entry, Shaped;
    OldRef(g, l, t, d, p);
    TreeKeys(g, l, t, g.root);
    HolderStays(g, l, t, d, p);
  }

  lemma PruneChains(g: Geometry, l: Logical, t: Tree, d: nat, p: Pos, n: Slot)
    requires Drops(g, l, t, d, p) && InVolume(g, p)
    ensures var t' := Prune(t, Ref(SlotAt(l, p))); ChainsOk(g, SetSlot(g, l, p, n), t') && Apart(t')
  {
    hide DirOk, NamedOk, SetSlot, SlotAt, Entry, Slots, Below, Ref, Prune, Apart, IsChain;
    DropFacts(g, l, t, d, p);
    SetSlotShape(g, l, p, n);
    hide Shaped;
    var f := Ref(SlotAt(l, p));
    PruneKeys(g, l, t, f, SetSlot(g, l, p, n));
    PruneApart(t, f);
  }

  lemma PruneKeys(g: Geometry, l: Logical, t: Tree, f: nat, l': Logical)
    requires ChainsOk(g, l, t) && Shaped(g, l') && l'.fat == l.fat && !Below(t, f, g.root)
    ensures ChainsOk(g, l', Prune(t, f))
  {
    hide Below, Shaped;
    var t' := Prune(t, f);
    assert t'.chains.Keys == t'.depth.Keys;
    assert t'.at.Keys == t'.chains.Keys - {g.root};
    assert t'.par.Keys == t'.at.Keys;
  }

  lemma PruneApart(t: Tree, f: nat)
    requires Apart(t)
    ensures Apart(Prune(t, f))
  {
    hide Below;
  }

  /** References from slots that stay lead to objects that stay. */
  lemma PruneRef(g: Geometry, l: Logical, t: Tree, f0: nat, p: Pos, e: nat, q: Pos, s: Slot)
    requires WF(g, l, t) && e in t.dirs && e in t.depth && !Below(t, f0, e) && q != p && RefOk(g, t, e, q, s)
    requires f0 != 0 ==> f0 in t.at && t.at[f0] == p
    ensures e in Prune(t, f0).depth && RefOk(g, Prune(t, f0), e, q, s)
  {
    hide WF, GoodName, SlotName, SlotFirst, SlotSize, SlotIsDir, Below;
    var f := SlotFirst(s);
    TreeKeys(g, l, t, f);
    TreeKeys(g, l, t, 0);
    if f in t.at {
      UpStep(g, l, t, f0, f);
    }
  }

  lemma PruneDir(g: Geometry, l: Logical, t: Tree, d: nat, p: Pos, n: Slot, e: nat)
    requires Drops(g, l, t, d, p) && InVolume(g, p) && n[0] == 0xE5
    requires e in Prune(t, Ref(SlotAt(l, p))).dirs
    ensures var t' := Prune(t, Ref(SlotAt(l, p)));
            e in t'.depth && e in t'.chains && DirOk(g, SetSlot(g, l, p, n), t', e)
  {
    hide SlotAt, SetSlot, ChainPos, IsChain, Shaped, GoodName, SlotName, SlotFirst, Below, NamedOk, RefOk, Apart, Ref;
    DropFacts(g, l, t, d, p);
    SetSlotShape(g, l, p, n);
    TreeKeys(g, l, t, e);
    assert DirOk(g, l, t, e);
    var f0, l' := Ref(SlotAt(l, p)), SetSlot(g, l, p, n);
    var t', ps := Prune(t, f0), Slots(g, t, e);
    forall q | q in ps && Entry(SlotAt(l', q)) ensures e in t'.depth && RefOk(g, t', e, q, SlotAt(l', q)) {
      assert q != p;
      PruneRef(g, l, t, f0, p, e, q, SlotAt(l, q));
    }
    PruneNames(g, l, t, d, p, n, e);
  }

  lemma PruneNames(g: Geometry, l: Logical, t: Tree, d: nat, p: Pos, n: Slot, e: nat)
    requires Drops(g, l, t, d, p) && InVolume(g, p) && n[0] == 0xE5 && p.c in t.chains[d] && e in t.dirs
    requires e in t.chains
    ensures NamesOk(SetSlot(g, l, p, n), Slots(g, t, e)) && EndsOk(SetSlot(g, l, p, n), Slots(g, t, e))
  {
    hide SlotAt, SetSlot, ChainPos, IsChain, Shaped, GoodName, SlotName, SlotFirst, NamedOk, RefOk;
    SetSlotShape(g, l, p, n);
    assert DirOk(g, l, t, e);
    var l', ps := SetSlot(g, l, p, n), Slots(g, t, e);
    if e == d {
      ChainDistinct(g, l, t.chains[d]);
      ChainPosDistinct(g.spc, t.chains[d]);
      OldNamesEnds(l, l', ps, p, n);
    } else {
      assert p !in ps by {
        if p in ps { SlotsSame(g, l, l, t, e); }
      }
      hide Entry, Slots;
      assert forall i :: 0 <= i < |ps| ==> ps[i] in ps;
    }
  }

  lemma PruneNamed(g: Geometry, l: Logical, t: Tree, d: nat, p: Pos, n: Slot, h: nat)
    requires Drops(g, l, t, d, p) && InVolume(g, p) && h in Prune(t, Ref(SlotAt(l, p))).at
    ensures var t' := Prune(t, Ref(SlotAt(l, p))); h in t'.par && NamedOk(g, SetSlot(g, l, p, n), t', h)
  {
    hide SlotAt, SetSlot, ChainPos, IsChain, Shaped, GoodName, SlotName, DirOk, Apart, Below, SlotFirst, SlotIsDir;
    DropFacts(g, l, t, d, p);
    SetSlotShape(g, l, p, n);
    assert NamedOk(g, l, t, h);
    var f0 := Ref(SlotAt(l, p));
    UpStep(g, l, t, f0, h);
    BelowSelf(t, h);
    assert t.at[h] != p;
  }

  lemma BelowSelf(t: Tree, f: nat)
    ensures Below(t, f, f)
  {
  }

  /** The deletion theorem: marking any entry deleted leaves a well formed volume, that of the tree
      without the named object and without anything that lay below it. */
  lemma PruneWF(g: Geometry, l: Logical, t: Tree, d: nat, p: Pos, n: Slot)
    requires Drops(g, l, t, d, p) && n[0] == 0xE5
    ensures InVolume(g, p)
    ensures WF(g, SetSlot(g, l, p, n), Prune(t, Ref(SlotAt(l, p))))
  {
    hide SetSlot, SlotAt, Drops, DirOk, NamedOk, Below, Ref, ChainsOk, Apart, Prune, WF, Shaped;
    DropFacts(g, l, t, d, p);
    PruneChains(g, l, t, d, p, n);
    var l', t' := SetSlot(g, l, p, n), Prune(t, Ref(SlotAt(l, p)));
    forall e | e in t'.dirs ensures e in t'.depth && e in t'.chains && DirOk(g, l', t', e) {
      PruneDir(g, l, t, d, p, n, e);
    }
    forall h | h in t'.at ensures h in t'.par && NamedOk(g, l', t', h) {
      PruneNamed(g, l, t, d, p, n, h);
    }
    FromParts(g, l', t');
  }

  lemma FromParts(g: Geometry, l: Logical, t: Tree)
    requires ChainsOk(g, l, t) && Apart(t)
    requires forall e :: e in t.dirs ==> e in t.depth && e in t.chains && DirOk(g, l, t, e)
    requires forall h :: h in t.at ==> h in t.par && NamedOk(g, l, t, h)
    ensures WF(g, l, t)
  {
    hide DirOk, NamedOk, Apart, IsChain, Shaped;
  }

  // --- any slot at all ---

  lemma PruneNone(g: Geometry, l: Logical, t: Tree)
    requires WF(g, l, t)
    ensures Prune(t, 0) == t
  {
    hide WF, Below;
    TreeKeys(g, l, t, 0);
    forall h | h in t.chains || h in t.dirs || h in t.par || h in t.at || h in t.depth ensures !Below(t, 0, h) {
      TreeKeys(g, l, t, h);
      if Below(t, 0, h) { BelowDeeper(g, l, t, 0, h); }
    }
    var t' := Prune(t, 0);
    assert t'.chains == t.chains && t'.dirs == t.dirs && t'.par == t.par && t'.at == t.at && t'.depth == t.depth;
  }

  /** The tree after slot `p` of directory `d` has changed from `o` to `n`: what `o` named is pruned, and
      what `n` names, with chain `ch`, is grafted. */
  ghost function After(t: Tree, d: nat, p: Pos, o: Slot, n: Slot, ch: seq<nat>): Tree {
    Graft(Prune(t, Ref(o)), d, p, n, ch)
  }

  /** The commit theorem: rewriting one fitting slot, whatever it named before, turns a well formed volume
      for `t` into a well formed volume for the tree so changed. */
  lemma CommitWF(g: Geometry, l: Logical, t: Tree, d: nat, p: Pos, n: Slot, ch: seq<nat>)
    requires WF(g, l, t) && d in t.dirs && d in t.chains && SlotFits(g, l, t, d, p, n) && ObjectFits(g, l, t, n, ch)
    ensures InVolume(g, p)
    ensures WF(g, SetSlot(g, l, p, n), After(t, d, p, SlotAt(l, p), n, ch))
  {
    hide WF, SetSlot, SlotAt, Slots, Graft, Prune, ObjectFits, Entry, NoEndBefore, GoodName, SlotName;
    var o := SlotAt(l, p);
    if Entry(o) {
      var x := Deleted(o);
      DropFacts(g, l, t, d, p);
      PruneWF(g, l, t, d, p, x);
      SetSlotShape(g, l, p, x);
      FitsPruned(g, l, t, d, p, n, ch, x);
      GraftWF(g, SetSlot(g, l, p, x), Prune(t, Ref(o)), d, p, n, ch);
      SetTwice(g, l, p, x, n);
    } else {
      PruneNone(g, l, t);
      assert Ref(o) == 0;
      GraftWF(g, l, t, d, p, n, ch);
    }
  }

  lemma SetTwice(g: Geometry, l: Logical, p: Pos, x: Slot, n: Slot)
    requires Shaped(g, l) && InVolume(g, p) && Shaped(g, SetSlot(g, l, p, x))
    ensures SetSlot(g, SetSlot(g, l, p, x), p, n) == SetSlot(g, l, p, n)
  {
    var a := l.data[p.c][p.s];
    var b := PatchSlot(a, p.e, n);
    assert PatchSlot(PatchSlot(a, p.e, x), p.e, n) == b;
    hide PatchSlot;
    var l', once, twice := SetSlot(g, l, p, x), SetSlot(g, l, p, n), SetSlot(g, SetSlot(g, l, p, x), p, n);
    assert l'.data[p.c][p.s] == PatchSlot(a, p.e, x);
    assert twice.data[p.c] == once.data[p.c];
    assert twice.data == once.data;
  }

  /** What fits a slot fits it still once the old entry is marked deleted. */
  lemma FitsPruned(g: Geometry, l: Logical, t: Tree, d: nat, p: Pos, n: Slot, ch: seq<nat>, x: Slot)
    requires Drops(g, l, t, d, p) && InVolume(g, p) && Shaped(g, SetSlot(g, l, p, x)) && x[0] == 0xE5
    requires SlotFits(g, l, t, d, p, n) && ObjectFits(g, l, t, n, ch)
    ensures var l', t' := SetSlot(g, l, p, x), Prune(t, Ref(SlotAt(l, p)));
            && d in t'.dirs && d in t'.chains && SlotFits(g, l', t', d, p, n) && ObjectFits(g, l', t', n, ch)
            && !Entry(SlotAt(l', p))
  {
    hide WF, SetSlot, SlotAt, ChainPos, SlotName, SlotFirst, SlotSize, SlotIsDir, Below, GoodName, IsChain, Vacuous;
    DropFacts(g, l, t, d, p);
    TreeKeys(g, l, t, d);
    SetSlotShape(g, l, p, x);
    var l', t' := SetSlot(g, l, p, x), Prune(t, Ref(SlotAt(l, p)));
    assert t'.chains[d] == t.chains[d];
    if Ref(n) != 0 {
      FitsChain(g, l, l', t, d, p, ch);
    }
  }

  lemma FitsChain(g: Geometry, l: Logical, l': Logical, t: Tree, d: nat, p: Pos, ch: seq<nat>)
    requires IsChain(g, l, ch) && l'.fat == l.fat && d in t.chains && p.c in t.chains[d]
    requires (forall c :: c in ch ==> !Owns(t, c)) && forall q :: q != p ==> SlotAt(l', q) == SlotAt(l, q)
    ensures IsChain(g, l', ch) && (Vacuous(l, ChainPos(g.spc, ch)) ==> Vacuous(l', ChainPos(g.spc, ch)))
  {
    hide SlotAt, Entry, ChainPos;
    ChainPosMembers(g.spc, ch);
    assert Owns(t, p.c);
    var ps := ChainPos(g.spc, ch);
    assert p !in ps;
    assert forall i :: 0 <= i < |ps| ==> ps[i] in ps;
  }
}
