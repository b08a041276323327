/** The commit point of every operation is one slot rewritten in place. Here: filling a slot that held no
    entry grafts the new object onto the tree, which stays well formed. */
module FatCommit {
  import opened FatBytes
  import opened FatVolume
  import opened FatChains
  import opened FatDirs
  import opened FatNames
  import opened FatTree

  /** The object a slot refers to, 0 for none. */
  ghost function Ref(s: Slot): nat { if Entry(s) then SlotFirst(s) else 0 }

  function Deleted(s: Slot): (r: Slot)
    ensures r[0] == 0xE5
  {
    s[0 := 0xE5]
  }

  /** `m` with `f` bound to `x` (0: nothing is bound). */
  ghost function With<T>(m: map<nat, T>, f: nat, x: T): (r: map<nat, T>)
    ensures forall h :: h in r <==> h in m || (h == f && f != 0)
    ensures f != 0 ==> r[f] == x
    ensures forall h :: h in r && h != f ==> r[h] == m[h]
  {
    if f == 0 then m else m[f := x]
  }

  /** The tree with the object of slot `n`, whose chain is `ch`, named at `p` in `d`. */
  ghost function Graft(t: Tree, d: nat, p: Pos, n: Slot, ch: seq<nat>): Tree {
    var f := Ref(n);
    Tree(
      With(t.chains, f, ch),
      t.dirs + (if Entry(n) && SlotIsDir(n) then {f} else {}),
      With(t.par, f, d),
      With(t.at, f, p),
      With(t.depth, f, if d in t.depth then t.depth[d] + 1 else 0))
  }

  /** A directory with nothing in it but dot entries. */
  ghost predicate Vacuous(l: Logical, ps: seq<Pos>) {
    EndsOk(l, ps) && forall q :: q in ps ==> !Entry(SlotAt(l, q))
  }

  /** No slot before `p` is an end mark. */
  ghost predicate NoEndBefore(l: Logical, ps: seq<Pos>, p: Pos) {
    forall i, k :: 0 <= i < k < |ps| && ps[k] == p ==> SlotAt(l, ps[i])[0] != 0
  }

  /** What must hold for the new slot to be committed at `p`. */
  ghost predicate SlotFits(g: Geometry, l: Logical, t: Tree, d: nat, p: Pos, n: Slot)
    requires d in t.chains
  {
    var ps, o := Slots(g, t, d), SlotAt(l, p);
    && p in ps
    && (Entry(o) || o[0] == 0xE5 || (o[0] == 0 && NoEndBefore(l, ps, p)))
    && (Entry(n) || n[0] == 0xE5)
    && (Entry(n) ==> GoodName(SlotName(n)))
    && (Entry(n) ==> forall q :: q in ps && q != p && Entry(SlotAt(l, q)) ==> SlotName(SlotAt(l, q)) != SlotName(n))
  }

  /** What must hold of the object the new slot refers to. */
  ghost predicate ObjectFits(g: Geometry, l: Logical, t: Tree, n: Slot, ch: seq<nat>) {
    && (Entry(n) && Ref(n) == 0 ==> !SlotIsDir(n) && SlotSize(n) == 0)
    && (Ref(n) != 0 ==>
          && IsChain(g, l, ch) && ch[0] == Ref(n) && (forall c :: c in ch ==> !Owns(t, c))
          && (SlotIsDir(n) ==> Vacuous(l, ChainPos(g.spc, ch)))
          && (!SlotIsDir(n) ==> SlotSize(n) <= |ch| * g.spc * 512))
  }

  lemma SetSlotShape(g: Geometry, l: Logical, p: Pos, n: Slot)
    requires Shaped(g, l) && InVolume(g, p)
    ensures var l' := SetSlot(g, l, p, n);
            && Shaped(g, l') && l'.fat == l.fat
            && (forall c :: 0 <= c < |l.data| && c != p.c ==> l'.data[c] == l.data[c])
            && SlotAt(l', p) == n
            && (forall q :: q != p ==> SlotAt(l', q) == SlotAt(l, q))
  {
    var l' := SetSlot(g, l, p, n);
    var row: seq<Sector> := l.data[p.c][p.s := PatchSlot(l.data[p.c][p.s], p.e, n)];
    assert l'.data == l.data[p.c := row];
    forall q | q != p ensures SlotAt(l', q) == SlotAt(l, q) {
      if q.c == p.c && q.s == p.s && q.e < 16 {
        assert SlotAt(l', q) == SlotIn(PatchSlot(l.data[p.c][p.s], p.e, n), q.e);
      }
    }
  }

  /** What the invariant says about the slot being replaced. */
  lemma OldRef(g: Geometry, l: Logical, t: Tree, d: nat, p: Pos)
    requires WF(g, l, t) && d in t.dirs && p in Slots(g, t, d)
    ensures InVolume(g, p) && p.c in t.chains[d]
    ensures var f0 := Ref(SlotAt(l, p));
            f0 != 0 ==>
              && f0 in t.at && t.at[f0] == p && t.par[f0] == d && f0 in t.chains && f0 != g.root
              && f0 in t.depth && t.depth[f0] == t.depth[d] + 1 && f0 != d
  {
    hide NamedOk, Apart, IsChain, ChainPos, SlotAt, Shaped, GoodName, NamesOk, EndsOk, SlotName, SlotFirst;
    SlotsSame(g, l, l, t, d);
    assert DirOk(g, l, t, d);
    var f0 := Ref(SlotAt(l, p));
    if f0 != 0 {
      assert RefOk(g, t, d, p, SlotAt(l, p));
    }
  }

  lemma NewRef(g: Geometry, l: Logical, t: Tree, n: Slot, ch: seq<nat>)
    requires ChainsOk(g, l, t) && ObjectFits(g, l, t, n, ch)
    ensures Ref(n) !in t.chains && 0 !in t.chains
  {
    forall h | h in t.chains ensures h in t.chains[h] && h != 0 {
      assert ValidCluster(g, t.chains[h][0]);
    }
    if Ref(n) in t.chains { assert Owns(t, Ref(n)); }
  }

  lemma NewChain(g: Geometry, l: Logical, t: Tree, n: Slot, ch: seq<nat>)
    requires ObjectFits(g, l, t, n, ch)
    ensures Ref(n) != 0 ==> IsChain(g, l, ch) && ch[0] == Ref(n) && forall c :: c in ch ==> !Owns(t, c)
    ensures Entry(n) && SlotIsDir(n) ==> Ref(n) != 0
  {
  }

  lemma GraftApart(t: Tree, t': Tree, f: nat, ch: seq<nat>)
    requires Apart(t) && 0 !in t.chains && t'.chains == With(t.chains, f, ch)
    requires f != 0 ==> forall c :: c in ch ==> !Owns(t, c)
    ensures Apart(t')
  {
    hide With;
    forall h1, h2, c | h1 in t'.chains && h2 in t'.chains && c in t'.chains[h1] && c in t'.chains[h2]
      ensures h1 == h2
    {
      if h1 != f { assert Owns(t, c); }
      if h2 != f { assert Owns(t, c); }
    }
  }

  lemma GraftChains(g: Geometry, l: Logical, t: Tree, d: nat, p: Pos, n: Slot, ch: seq<nat>)
    requires ChainsOk(g, l, t) && Apart(t) && d in t.dirs && ObjectFits(g, l, t, n, ch)
    ensures var t' := Graft(t, d, p, n, ch); ChainsOk(g, l, t') && Apart(t')
  {
    hide With, IsChain, Shaped, Entry, SlotIsDir, SlotFirst, Ref, ObjectFits;
    NewRef(g, l, t, n, ch);
    NewChain(g, l, t, n, ch);
    var t' := Graft(t, d, p, n, ch);
    GraftApart(t, t', Ref(n), ch);
    assert forall h :: h in t'.depth <==> h in t'.chains;
    assert forall h :: h in t'.at <==> h in t'.chains - {g.root};
  }

  lemma ChainsAfter(g: Geometry, l: Logical, t: Tree, d: nat, p: Pos, n: Slot, ch: seq<nat>)
    requires WF(g, l, t) && d in t.dirs && InVolume(g, p) && ObjectFits(g, l, t, n, ch)
    ensures var t' := Graft(t, d, p, n, ch); ChainsOk(g, SetSlot(g, l, p, n), t') && Apart(t')
  {
    SetSlotShape(g, l, p, n);
    hide DirOk, NamedOk, SetSlot, SlotAt, ChainPos, Entry, Vacuous, SlotIsDir, SlotSize, Slots, Graft, ObjectFits;
    GraftChains(g, l, t, d, p, n, ch);
  }

  /** A reference held by any other slot is not affected. */
  lemma RefKept(
    g: Geometry, l: Logical, t: Tree, d: nat, p: Pos, n: Slot, ch: seq<nat>, e: nat, q: Pos, s: Slot)
    requires ChainsOk(g, l, t) && d in t.dirs && e in t.dirs && RefOk(g, t, e, q, s)
    requires 0 !in t.chains && Ref(n) !in t.chains
    ensures var t' := Graft(t, d, p, n, ch); e in t'.depth && RefOk(g, t', e, q, s)
  {
    hide With, IsChain, Shaped, GoodName;
    var f := SlotFirst(s);
    if f != 0 { assert f in t.chains; }
  }

  /** Directories keep well formed slots: the changed one, the new one, and all the others. */
  lemma DirAfter(g: Geometry, l: Logical, t: Tree, d: nat, p: Pos, n: Slot, ch: seq<nat>, e: nat)
    requires WF(g, l, t) && d in t.dirs && SlotFits(g, l, t, d, p, n) && InVolume(g, p) && !Entry(SlotAt(l, p))
    requires ObjectFits(g, l, t, n, ch)
    requires var t' := Graft(t, d, p, n, ch); ChainsOk(g, SetSlot(g, l, p, n), t') && e in t'.dirs
    ensures DirOk(g, SetSlot(g, l, p, n), Graft(t, d, p, n, ch), e)
  {
    hide SlotAt, SetSlot, ChainPos, IsChain, Shaped, GoodName, SlotName, SlotFirst, SlotSize, With, NamedOk, DirOk,
      Apart, Slots, NoEndBefore, Vacuous;
    var l', t' := SetSlot(g, l, p, n), Graft(t, d, p, n, ch);
    OldRef(g, l, t, d, p);
    NewRef(g, l, t, n, ch);
    SetSlotShape(g, l, p, n);
    if e == Ref(n) && Ref(n) != 0 {
      NewDirOk(g, l, l', t, t', d, p, n, ch);
    } else {
      assert e in t.dirs && t'.chains[e] == t.chains[e];
      assert DirOk(g, l, t, e);
      OldDirOk(g, l, t, d, p, n, ch, e);
    }
  }

  lemma NewDirOk(g: Geometry, l: Logical, l': Logical, t: Tree, t': Tree, d: nat, p: Pos, n: Slot, ch: seq<nat>)
    requires ChainsOk(g, l, t) && d in t.chains && InVolume(g, p) && p.c in t.chains[d]
    requires forall q :: q != p ==> SlotAt(l', q) == SlotAt(l, q)
    requires Ref(n) != 0 && SlotIsDir(n) && ObjectFits(g, l, t, n, ch)
    requires Ref(n) in t'.chains && Ref(n) in t'.depth && t'.chains[Ref(n)] == ch
    ensures DirOk(g, l', t', Ref(n))
  {
    hide SlotAt, ChainPos, Entry, RefOk, IsChain, Shaped, SlotName, SlotSize, SlotFirst, ChainsOk;
    var ps := ChainPos(g.spc, ch);
    ChainPosMembers(g.spc, ch);
    assert Owns(t, p.c);
    assert p !in ps;
    assert forall i :: 0 <= i < |ps| ==> ps[i] in ps;
  }

  lemma OldDirOk(g: Geometry, l: Logical, t: Tree, d: nat, p: Pos, n: Slot, ch: seq<nat>, e: nat)
    requires WF(g, l, t) && d in t.dirs && SlotFits(g, l, t, d, p, n) && InVolume(g, p) && !Entry(SlotAt(l, p))
    requires ObjectFits(g, l, t, n, ch) && e in t.dirs && DirOk(g, l, t, e)
    requires var t' := Graft(t, d, p, n, ch); e in t'.chains && t'.chains[e] == t.chains[e] && e in t'.depth
    ensures DirOk(g, SetSlot(g, l, p, n), Graft(t, d, p, n, ch), e)
  {
    hide SlotAt, SetSlot, ChainPos, IsChain, Shaped, GoodName, SlotName, SlotFirst, SlotSize, With, NamedOk, Graft,
      Vacuous, NoEndBefore, RefOk, ObjectFits;
    var l', ps := SetSlot(g, l, p, n), Slots(g, t, e);
    OldRef(g, l, t, d, p);
    SetSlotShape(g, l, p, n);
    OldRefs(g, l, t, d, p, n, ch, e);
    if e == d {
      ChainDistinct(g, l, t.chains[d]);
      ChainPosDistinct(g.spc, t.chains[d]);
      OldNamesEnds(l, l', ps, p, n);
    } else {
      assert p !in ps by {
        if p in ps { SlotsSame(g, l, l, t, e); }
      }
      hide SlotAt, Entry, SlotName, Slots;
      assert forall i :: 0 <= i < |ps| ==> ps[i] in ps;
    }
  }

  lemma ChainDistinct(g: Geometry, l: Logical, ch: seq<nat>)
    requires IsChain(g, l, ch)
    ensures Distinct(ch)
  {
  }

  /** The new slot's own reference. */
  lemma NewRefOk(g: Geometry, l: Logical, t: Tree, d: nat, p: Pos, n: Slot, ch: seq<nat>)
    requires ChainsOk(g, l, t) && d in t.dirs && Ref(n) !in t.chains && 0 !in t.chains
    requires Entry(n) && GoodName(SlotName(n)) && ObjectFits(g, l, t, n, ch)
    ensures var t' := Graft(t, d, p, n, ch); d in t'.depth && RefOk(g, t', d, p, n)
  {
    hide GoodName, IsChain, Shaped, Vacuous, With, ChainPos, SlotName;
    assert SlotFirst(n) == Ref(n);
  }

  lemma OldNamesEnds(l: Logical, l': Logical, ps: seq<Pos>, p: Pos, n: Slot)
    requires NamesOk(l, ps) && EndsOk(l, ps) && PosDistinct(ps) && p in ps
    requires SlotAt(l', p) == n && forall q :: q != p ==> SlotAt(l', q) == SlotAt(l, q)
    requires Entry(n) ==> forall q :: q in ps && q != p && Entry(SlotAt(l, q)) ==> SlotName(SlotAt(l, q)) != SlotName(n)
    requires n[0] != 0 && (SlotAt(l, p)[0] != 0 || NoEndBefore(l, ps, p))
    ensures NamesOk(l', ps) && EndsOk(l', ps)
  {
    hide SlotAt, Entry, SlotName;
    forall i, j | 0 <= i < j < |ps| && SlotAt(l', ps[i])[0] == 0 ensures SlotAt(l', ps[j])[0] == 0 {
      assert ps[i] != p;
      assert SlotAt(l, ps[j])[0] == 0;
    }
  }

  lemma OldRefs(g: Geometry, l: Logical, t: Tree, d: nat, p: Pos, n: Slot, ch: seq<nat>, e: nat)
    requires WF(g, l, t) && d in t.dirs && SlotFits(g, l, t, d, p, n) && InVolume(g, p) && !Entry(SlotAt(l, p))
    requires ObjectFits(g, l, t, n, ch) && e in t.dirs && DirOk(g, l, t, e)
    requires var t' := Graft(t, d, p, n, ch); e in t'.chains && t'.chains[e] == t.chains[e] && e in t'.depth
    ensures RefsOk(g, SetSlot(g, l, p, n), Graft(t, d, p, n, ch), e, Slots(g, t, e))
  {
    hide SlotAt, SetSlot, ChainPos, IsChain, Shaped, GoodName, SlotName, SlotFirst, SlotSize, With, NamedOk, Graft,
      Vacuous, NoEndBefore, NamesOk, EndsOk, ObjectFits;
    var l', t', ps := SetSlot(g, l, p, n), Graft(t, d, p, n, ch), Slots(g, t, e);
    OldRef(g, l, t, d, p);
    NewRef(g, l, t, n, ch);
    SetSlotShape(g, l, p, n);
    forall q | q in ps && Entry(SlotAt(l', q)) ensures RefOk(g, t', e, q, SlotAt(l', q)) {
      if q == p {
        assert e == d by { SlotsSame(g, l, l, t, e); }
        NewRefOk(g, l, t, d, p, n, ch);
      } else {
        RefKept(g, l, t, d, p, n, ch, e, q, SlotAt(l, q));
      }
    }
  }

  lemma NamedAfter(
    g: Geometry, l: Logical, l': Logical, t: Tree, d: nat, p: Pos, n: Slot, ch: seq<nat>, f: nat)
    requires ChainsOk(g, l, t) && d in t.dirs && p in Slots(g, t, d) && !Entry(SlotAt(l, p))
    requires Ref(n) !in t.chains && 0 !in t.chains && ObjectFits(g, l, t, n, ch)
    requires SlotAt(l', p) == n && forall q :: q != p ==> SlotAt(l', q) == SlotAt(l, q)
    requires f in t.at ==> NamedOk(g, l, t, f)
    requires var t' := Graft(t, d, p, n, ch); f in t'.at && f in t'.par
    ensures NamedOk(g, l', Graft(t, d, p, n, ch), f)
  {
    hide SlotAt, ChainPos, IsChain, Shaped, SlotName, SlotSize, With;
    var t' := Graft(t, d, p, n, ch);
    if f == Ref(n) && f != 0 {
      assert t'.chains[d] == t.chains[d];
    } else {
      assert f in t.at;
      assert t'.chains[t.par[f]] == t.chains[t.par[f]];
      assert t.at[f] != p;
    }
  }

  /** Filling a slot that holds no entry adds what the new slot refers to, and keeps the invariant. */
  lemma GraftWF(g: Geometry, l: Logical, t: Tree, d: nat, p: Pos, n: Slot, ch: seq<nat>)
    requires WF(g, l, t) && d in t.dirs && SlotFits(g, l, t, d, p, n) && !Entry(SlotAt(l, p))
    requires ObjectFits(g, l, t, n, ch)
    ensures InVolume(g, p)
    ensures WF(g, SetSlot(g, l, p, n), Graft(t, d, p, n, ch))
  {
    OldRef(g, l, t, d, p);
    NewRef(g, l, t, n, ch);
    SetSlotShape(g, l, p, n);
    ChainsAfter(g, l, t, d, p, n, ch);
    var l', t' := SetSlot(g, l, p, n), Graft(t, d, p, n, ch);
    hide Graft, SetSlot, SlotAt, Entry, Shaped, IsChain, Apart, Slots, DirOk, NamedOk, ObjectFits;
    forall e | e in t'.dirs ensures DirOk(g, l', t', e) {
      DirAfter(g, l, t, d, p, n, ch, e);
    }
    forall f | f in t'.at ensures NamedOk(g, l', t', f) {
      NamedAfter(g, l, l', t, d, p, n, ch, f);
    }
  }
}
