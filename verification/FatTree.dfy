/** Who owns which cluster: the tree of directories and files a volume holds, what makes it well
    formed, and why it survives writes to unowned clusters and single-slot commits. */
module FatTree {
  import opened FatBytes
  import opened FatVolume
  import opened FatChains
  import opened FatDirs
  import opened FatNames

  /** Every object by its first cluster: its chain, whether it is a directory, and (root apart) the
      directory and slot that name it. `depth` grows by one per level, so everything is below the root. */
  datatype Tree = Tree(
    chains: map<nat, seq<nat>>, dirs: set<nat>, par: map<nat, nat>, at: map<nat, Pos>, depth: map<nat, nat>)

  /** A slot that names a file or a directory: live, and not one of the two dot entries. */
  ghost predicate Entry(s: Slot) {
    SlotLive(s) && SlotName(s) != DotName() && SlotName(s) != DotDotName()
  }

  ghost function Slots(g: Geometry, t: Tree, d: nat): seq<Pos>
    requires d in t.chains
  {
    ChainPos(g.spc, t.chains[d])
  }

  ghost predicate ChainsOk(g: Geometry, l: Logical, t: Tree) {
    && Shaped(g, l) && g.count + 2 <= EOC_MIN
    && g.root in t.dirs && t.dirs <= t.chains.Keys && t.depth.Keys == t.chains.Keys
    && t.at.Keys == t.chains.Keys - {g.root} && t.par.Keys == t.at.Keys
    && (forall h :: h in t.chains ==> IsChain(g, l, t.chains[h]) && t.chains[h][0] == h)
  }

  /** No cluster belongs to two objects. */
  ghost predicate Apart(t: Tree) {
    forall h1, h2, c :: h1 in t.chains && h2 in t.chains && c in t.chains[h1] && c in t.chains[h2] ==> h1 == h2
  }

  /** An entry at `p` in directory `d` refers to an object of the right kind, recorded there. */
  ghost predicate RefOk(g: Geometry, t: Tree, d: nat, p: Pos, s: Slot)
    requires d in t.depth
  {
    var f := SlotFirst(s);
    && GoodName(SlotName(s))
    && (SlotIsDir(s) ==> f in t.dirs && f != g.root)
    && (!SlotIsDir(s) ==>
          || (f == 0 && SlotSize(s) == 0)
          || (f in t.chains && f !in t.dirs && SlotSize(s) <= |t.chains[f]| * g.spc * 512))
    && (f in t.at ==> f in t.par && t.at[f] == p && t.par[f] == d)
    && (f in t.depth ==> t.depth[f] == t.depth[d] + 1)
  }

  ghost predicate RefsOk(g: Geometry, l: Logical, t: Tree, d: nat, ps: seq<Pos>)
    requires d in t.depth
  {
    forall p :: p in ps && Entry(SlotAt(l, p)) ==> RefOk(g, t, d, p, SlotAt(l, p))
  }

  ghost predicate NamesOk(l: Logical, ps: seq<Pos>) {
    forall p, q ::
      && p in ps && q in ps && Entry(SlotAt(l, p)) && Entry(SlotAt(l, q))
      && SlotName(SlotAt(l, p)) == SlotName(SlotAt(l, q))
      ==> p == q
  }

  /** After the first end mark there are only end marks. */
  ghost predicate EndsOk(l: Logical, ps: seq<Pos>) {
    forall i, j :: 0 <= i < j < |ps| && SlotAt(l, ps[i])[0] == 0 ==> SlotAt(l, ps[j])[0] == 0
  }

  ghost predicate DirOk(g: Geometry, l: Logical, t: Tree, d: nat)
    requires d in t.depth && d in t.chains
  {
    var ps := Slots(g, t, d);
    RefsOk(g, l, t, d, ps) && NamesOk(l, ps) && EndsOk(l, ps)
  }

  /** The slot recorded for an object names it. */
  ghost predicate NamedOk(g: Geometry, l: Logical, t: Tree, f: nat)
    requires f in t.par && f in t.at
  {
    && t.par[f] in t.dirs && t.par[f] in t.chains && t.at[f] in Slots(g, t, t.par[f])
    && Entry(SlotAt(l, t.at[f])) && SlotFirst(SlotAt(l, t.at[f])) == f
    && SlotIsDir(SlotAt(l, t.at[f])) == (f in t.dirs)
  }

  /** The volume invariant: chains end properly and never share a cluster, and the slots of the
      directories name the objects of the tree, each once. Unowned clusters may be in any state. */
  ghost predicate WF(g: Geometry, l: Logical, t: Tree) {
    && ChainsOk(g, l, t) && Apart(t)
    && (forall d :: d in t.dirs ==> DirOk(g, l, t, d))
    && (forall f :: f in t.at ==> NamedOk(g, l, t, f))
  }

  ghost predicate Owns(t: Tree, c: nat) { exists h :: h in t.chains && c in t.chains[h] }

  // --- writes outside the tree ---

  /** The two views agree on every owned cluster. */
  ghost predicate SameOwned(t: Tree, l: Logical, l': Logical) {
    && |l'.fat| == |l.fat| && |l'.data| == |l.data|
    && forall h, c :: h in t.chains && c in t.chains[h] && c < |l.fat| && c < |l.data| ==>
         l'.fat[c] == l.fat[c] && l'.data[c] == l.data[c]
  }

  lemma SlotsSame(g: Geometry, l: Logical, l': Logical, t: Tree, d: nat)
    requires ChainsOk(g, l, t) && Shaped(g, l') && SameOwned(t, l, l') && d in t.chains
    ensures forall p :: p in Slots(g, t, d) ==> SlotAt(l', p) == SlotAt(l, p) && InVolume(g, p) && p.c in t.chains[d]
  {
    ChainPosMembers(g.spc, t.chains[d]);
    forall p | p in Slots(g, t, d)
      ensures SlotAt(l', p) == SlotAt(l, p) && InVolume(g, p) && p.c in t.chains[d]
    {
      var i :| 0 <= i < |t.chains[d]| && t.chains[d][i] == p.c;
      assert ValidCluster(g, t.chains[d][i]);
    }
  }

  lemma ChainsSame(g: Geometry, l: Logical, l': Logical, t: Tree)
    requires ChainsOk(g, l, t) && Shaped(g, l') && SameOwned(t, l, l')
    ensures ChainsOk(g, l', t)
  {
    forall h | h in t.chains ensures IsChain(g, l', t.chains[h]) {
      var ch := t.chains[h];
      forall i | 0 <= i < |ch| ensures l'.fat[ch[i]] == l.fat[ch[i]] {
        assert ch[i] in ch;
      }
    }
  }

  lemma DirSame(g: Geometry, l: Logical, l': Logical, t: Tree, d: nat)
    requires d in t.depth && d in t.chains && DirOk(g, l, t, d)
    requires forall p :: p in Slots(g, t, d) ==> SlotAt(l', p) == SlotAt(l, p)
    ensures DirOk(g, l', t, d)
  {
    hide SlotAt, RefOk, Entry, SlotName;
    var ps := Slots(g, t, d);
    hide Slots;
    assert forall i :: 0 <= i < |ps| ==> ps[i] in ps;
  }

  lemma NamedSame(g: Geometry, l: Logical, l': Logical, t: Tree, f: nat)
    requires ChainsOk(g, l, t) && Shaped(g, l') && SameOwned(t, l, l') && f in t.at && NamedOk(g, l, t, f)
    ensures NamedOk(g, l', t, f)
  {
    SlotsSame(g, l, l', t, t.par[f]);
  }

  /** The invariant only looks at owned clusters. */
  lemma WFSame(g: Geometry, l: Logical, l': Logical, t: Tree)
    requires WF(g, l, t) && Shaped(g, l') && SameOwned(t, l, l')
    ensures WF(g, l', t)
  {
    ChainsSame(g, l, l', t);
    hide IsChain, SlotAt, Slots, SameOwned, Apart, DirOk, NamedOk;
    forall d | d in t.dirs ensures DirOk(g, l', t, d) {
      SlotsSame(g, l, l', t, d);
      DirSame(g, l, l', t, d);
    }
    forall f | f in t.at ensures NamedOk(g, l', t, f) {
      NamedSame(g, l, l', t, f);
    }
  }

  /** Free clusters are never owned, so writes confined to free clusters keep the invariant. */
  lemma FreeNotOwned(g: Geometry, l: Logical, l': Logical, t: Tree)
    requires WF(g, l, t) && OnlyFree(g, l, l')
    ensures SameOwned(t, l, l')
  {
    hide DirOk, NamedOk, Apart;
    forall h, c | h in t.chains && c in t.chains[h]
      ensures c < |l.fat| && c >= 2 && l.fat[c] != 0
    {
      OwnedInUse(g, l, t.chains[h], c);
    }
  }

  lemma OwnedInUse(g: Geometry, l: Logical, ch: seq<nat>, c: nat)
    requires IsChain(g, l, ch) && c in ch
    ensures ValidCluster(g, c) && l.fat[c] != 0
  {
    var i :| 0 <= i < |ch| && ch[i] == c;
    assert ValidCluster(g, ch[i]);
    if i < |ch| - 1 { assert l.fat[ch[i]] == ch[i + 1] && ValidCluster(g, ch[i + 1]); }
  }

  /** Writes confined to a chain outside the tree keep the invariant. */
  lemma OutsideNotOwned(g: Geometry, l: Logical, l': Logical, t: Tree, cs: seq<nat>)
    requires OnlyEntries(l, l', cs) && forall c :: c in cs ==> !Owns(t, c)
    ensures SameOwned(t, l, l')
  {
  }
}
