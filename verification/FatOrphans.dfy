/** What a rewritten slot strands: the clusters of whatever lay below the object it used to name. */
module FatOrphans {
  import opened FatBytes
  import opened FatVolume
  import opened FatDirs
  import opened FatTree
  import opened FatCommit
  import opened FatPrune

  /** `c` belongs to something strictly below `f`. */
  ghost predicate Stranded(t: Tree, f: nat, c: nat) {
    exists h :: h in t.chains && h != f && Below(t, f, h) && c in t.chains[h]
  }

  /** The clusters that nothing owns any more once `f` is let go, though they stay allocated. */
  ghost function Orphans(g: Geometry, t: Tree, f: nat): set<nat> {
    set c | 2 <= c < g.count + 2 && Stranded(t, f, c)
  }

  lemma PruneOwns(t: Tree, f: nat, c: nat)
    requires Apart(t)
    ensures Owns(t, c) <==> Owns(Prune(t, f), c) || (f in t.chains && c in t.chains[f]) || Stranded(t, f, c)
    ensures Stranded(t, f, c) ==> !Owns(Prune(t, f), c) && !(f in t.chains && c in t.chains[f])
    ensures f in t.chains && c in t.chains[f] ==> !Owns(Prune(t, f), c)
  {
    BelowSelf(t, f);
    hide Below;
    var t' := Prune(t, f);
    if Owns(t, c) {
      var h :| h in t.chains && c in t.chains[h];
      assert !Below(t, f, h) ==> h in t'.chains && t'.chains[h] == t.chains[h];
    }
    if Owns(t', c) {
      var h :| h in t'.chains && c in t'.chains[h];
      assert h in t.chains && t'.chains[h] == t.chains[h];
    }
  }

  /** No entry of this directory has clusters of its own. */
  ghost predicate Hollow(l: Logical, ps: seq<Pos>) {
    forall q :: q in ps && Entry(SlotAt(l, q)) ==> SlotFirst(SlotAt(l, q)) == 0
  }

  lemma {:induction false} OnlyItself(g: Geometry, l: Logical, t: Tree, f: nat, h: nat)
    requires WF(g, l, t) && h in t.chains && h in t.depth && Below(t, f, h)
    requires f in t.dirs && f in t.chains ==> Hollow(l, Slots(g, t, f))
    ensures h == f
    decreases t.depth[h]
  {
    hide WF, SlotAt, Slots, Entry, SlotFirst, SlotIsDir;
    TreeKeys(g, l, t, h);
    if h != f {
      UpStep(g, l, t, f, h);
      OnlyItself(g, l, t, f, t.par[h]);
      NamedBy(g, l, t, h);
    }
  }

  lemma NamedBy(g: Geometry, l: Logical, t: Tree, h: nat)
    requires WF(g, l, t) && h in t.at && h in t.par
    ensures t.par[h] in t.chains && t.at[h] in Slots(g, t, t.par[h])
    ensures Entry(SlotAt(l, t.at[h])) && SlotFirst(SlotAt(l, t.at[h])) == h
  {
    hide SlotAt, Slots, Entry, DirOk, Apart, ChainsOk;
    assert NamedOk(g, l, t, h);
  }

  /** Letting go strands nothing exactly when the object is a file, or a directory without anything in
      it that has clusters. */
  lemma StrandsNothing(g: Geometry, l: Logical, t: Tree, f: nat)
    requires WF(g, l, t)
    ensures Orphans(g, t, f) == {} <==> (f in t.dirs && f in t.chains ==> Hollow(l, Slots(g, t, f)))
  {
    hide WF, SlotAt, Slots, Entry, SlotFirst, Below;
    TreeKeys(g, l, t, f);
    if f in t.dirs && !Hollow(l, Slots(g, t, f)) {
      var q :| q in Slots(g, t, f) && Entry(SlotAt(l, q)) && SlotFirst(SlotAt(l, q)) != 0;
      ChildStranded(g, l, t, f, q);
    } else {
      forall h | h in t.chains && h != f ensures !Below(t, f, h) {
        TreeKeys(g, l, t, h);
        if Below(t, f, h) { OnlyItself(g, l, t, f, h); }
      }
    }
  }

  lemma ChildStranded(g: Geometry, l: Logical, t: Tree, f: nat, q: Pos)
    requires WF(g, l, t) && f in t.dirs && f in t.chains && q in Slots(g, t, f)
    requires Entry(SlotAt(l, q)) && SlotFirst(SlotAt(l, q)) != 0
    ensures SlotFirst(SlotAt(l, q)) in Orphans(g, t, f)
  {
    hide SlotAt, Slots, NamedOk, DirOk, Apart, Shaped, Below, SlotFirst;
    var h := SlotFirst(SlotAt(l, q));
    OldRef(g, l, t, f, q);
    BelowSelf(t, f);
    UpStep(g, l, t, f, h);
    assert ValidCluster(g, t.chains[h][0]);
    assert h in t.chains[h];
  }
}
