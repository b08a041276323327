/** Mapping and unmapping one page: the walk down the tables, creating the missing ones. */
module Mappings {
  import opened Basics
  import opened Frames
  import opened PageTables
  import opened AddressSpaces

  ghost predicate HeldIn(v: View, t: Node, level: nat, shared: set<nat>) {
    Rep(v.mem, t, shared) && Proper(t) && Deep(t, level) && FramesOf(t) <= v.live
  }

  /** Only the frames in `s` were written. */
  ghost predicate SameOutside(mem0: Memory, mem: Memory, s: set<nat>) {
    |mem| == |mem0| && forall x :: 0 <= x < |mem0| && x !in s ==> mem[x] == mem0[x]
  }

  lemma OutsideTwice(a: Memory, b: Memory, c: Memory, s: set<nat>, s': set<nat>, u: set<nat>)
    requires SameOutside(a, b, s) && SameOutside(b, c, s') && s <= u && s' <= u
    ensures SameOutside(a, c, u)
  {
  }

  /** The frames taken since `v0`. */
  ghost function Taken(v0: View, v: View): set<nat> { v.live - v0.live }

  ghost predicate OnlyTook(v0: View, v: View) {
    v0.live <= v.live && Taken(v0, v) <= v0.available && v.available == v0.available - Taken(v0, v)
  }

  /** The page of a translation, if there is one. */
  ghost function Leaf(r: Option<nat>): set<nat> { if r.Some? then {r.value} else {} }

  /** Tree `t` became `t'`: the same but for tables taken on the way, and for `path`, which leads to `r`. */
  ghost predicate Mapped(v0: View, v: View, t: Node, t': Node, path: seq<nat>, r: Option<nat>, shared: set<nat>) {
    && t.Table? && t'.Table? && t'.frame == t.frame && HeldIn(v, t', |path|, shared)
    && OnlyTook(v0, v) && SameOutside(v0.mem, v.mem, TablesOf(t) + Taken(v0, v))
    && FramesOf(t') == FramesOf(t) - Leaf(Lookup(t, path)) + Leaf(r) + Taken(v0, v)
    && TablesOf(t') <= TablesOf(t) + Taken(v0, v)
    && t.frame < |v0.mem| && |v0.mem[t.frame]| == 512
    && (forall i :: i in shared && i < 512 ==> v.mem[t.frame][i] == v0.mem[t.frame][i])
    && Translates(t, t', path, r)
  }

  ghost predicate Translates(t: Node, t': Node, path: seq<nat>, r: Option<nat>) {
    forall q :: Lookup(t', q) == if q == path then r else Lookup(t, q)
  }

  lemma LeafIn(t: Node, path: seq<nat>)
    ensures Leaf(Lookup(t, path)) <= FramesOf(t)
  {
    if Lookup(t, path).Some? { LookupInFrames(t, path); }
  }

  lemma NothingMapped(v: View, t: Node, path: seq<nat>, shared: set<nat>)
    requires t.Table? && HeldIn(v, t, |path|, shared)
    ensures Mapped(v, v, t, t, path, Lookup(t, path), shared)
  {
    hide Rep, Proper, Deep, FramesOf, TablesOf, Lookup;
    LeafIn(t, path);
    assert t.frame < |v.mem| && |v.mem[t.frame]| == 512 by { RepRoot(v.mem, t, shared); }
  }

  /** Filling an unused slot of a table with a child whose frames are new to the tree. */
  lemma FillSlot(v0: View, v: View, t: Node, i: nat, kid: Node, level: nat, shared: set<nat>)
    requires t.Table? && level > 0 && HeldIn(v0, t, level, shared) && i < 512 && i !in shared && i !in t.kids
    requires Paged(v.mem) && Rep(v.mem, kid, {}) && Proper(kid) && Deep(kid, level - 1) && FramesOf(kid) !! FramesOf(t)
    requires v0.live <= v.live && FramesOf(kid) <= v.live && kid.frame < FRAME_SPACE
    requires SameOutside(v0.mem, v.mem, {t.frame} + FramesOf(kid))
    requires t.frame < |v0.mem| && |v0.mem[t.frame]| == 512
    requires v.mem[t.frame] == v0.mem[t.frame][i := MakeEntry(kid.frame)]
    ensures HeldIn(v, WithKid(t, i, kid), level, shared)
    ensures FramesOf(WithKid(t, i, kid)) == FramesOf(t) + FramesOf(kid)
    ensures TablesOf(WithKid(t, i, kid)) == TablesOf(t) + TablesOf(kid)
  {
    hide FramesOf, TablesOf, Proper, Rep, Deep, Others, OtherTables, MakeEntry;
    NoKidFrames(t, i);
    OthersSame(t, i, kid);
    KidFrames(WithKid(t, i, kid), i);
    OtherTablesIn(t, i);
    WithKidProper(t, i, kid);
    WithKidDeep(t, i, kid, level);
    RootNotOther(t, i);
    FillRep(v0.mem, v.mem, t, i, kid, shared);
  }

  lemma OtherTablesIn(t: Node, i: nat)
    requires t.Table?
    ensures OtherTables(t, i) <= Others(t, i)
  {
    forall x | x in OtherTables(t, i) ensures x in Others(t, i) {
      var j :| j in t.kids && j != i && x in TablesOf(t.kids[j]);
      TablesInFrames(t.kids[j]);
    }
  }

  lemma RootNotOther(t: Node, i: nat)
    requires t.Table? && Proper(t)
    ensures t.frame !in Others(t, i)
  {
  }

  lemma FillRep(mem: Memory, mem': Memory, t: Node, i: nat, kid: Node, shared: set<nat>)
    requires t.Table? && Rep(mem, t, shared) && Rep(mem', kid, {}) && Paged(mem') && i < 512 && i !in shared
    requires SameOutside(mem, mem', {t.frame} + FramesOf(kid)) && OtherTables(t, i) <= Others(t, i)
    requires Others(t, i) !! FramesOf(kid) && t.frame !in Others(t, i) && kid.frame < FRAME_SPACE
    requires t.frame < |mem| && |mem[t.frame]| == 512 && mem'[t.frame] == mem[t.frame][i := MakeEntry(kid.frame)]
    ensures Rep(mem', WithKid(t, i, kid), shared)
  {
    hide FramesOf, Others, OtherTables, MakeEntry;
    WithKidRep(mem, mem', t, i, kid, shared);
  }

  /** Replacing a child by what it became, in memory where only its own tables and new frames changed. */
  lemma MappedUp(v0: View, v: View, t: Node, i: nat, kid': Node, path: seq<nat>, r: Option<nat>, shared: set<nat>)
    requires t.Table? && path != [] && i == path[0] && i in t.kids && HeldIn(v0, t, |path|, shared) && Paged(v.mem)
    requires Mapped(v0, v, t.kids[i], kid', path[1..], r, {}) && v0.live !! v0.available
    requires r != Lookup(t, path) ==> Leaf(r) <= v0.live && Leaf(r) !! FramesOf(t)
    ensures Mapped(v0, v, t, WithKid(t, i, kid'), path, r, shared)
  {
    hide Proper, Rep, Deep, FramesOf, TablesOf, Others, OtherTables, Translates, Lookup;
    var t' := WithKid(t, i, kid');
    KidFrames(t, i);
    OthersSame(t, i, kid');
    KidFrames(t', i);
    KidApart(t, i);
    OtherTablesIn(t, i);
    TablesInFrames(t.kids[i]);
    LookupStep(t, path);
    LeafIn(t.kids[i], path[1..]);
    UpRep(v0, v, t, i, kid', shared);
    WithKidProper(t, i, kid');
    WithKidDeep(t, i, kid', |path|);
    UpTranslates(t, i, kid', path, r);
    RepRoot(v0.mem, t, shared);
  }

  lemma LookupStep(t: Node, path: seq<nat>)
    requires t.Table? && path != [] && path[0] in t.kids
    ensures Lookup(t, path) == Lookup(t.kids[path[0]], path[1..])
  {
  }

  lemma WithKidDeep(t: Node, i: nat, kid: Node, level: nat)
    requires t.Table? && level > 0 && Deep(t, level) && Deep(kid, level - 1)
    ensures Deep(WithKid(t, i, kid), level)
  {
  }

  lemma UpTranslates(t: Node, i: nat, kid': Node, path: seq<nat>, r: Option<nat>)
    requires t.Table? && path != [] && i == path[0] && i in t.kids && Translates(t.kids[i], kid', path[1..], r)
    ensures Translates(t, WithKid(t, i, kid'), path, r)
  {
    var t' := WithKid(t, i, kid');
    forall q ensures Lookup(t', q) == if q == path then r else Lookup(t, q) {
      if q != [] && q[0] == i {
        assert q[1..] == path[1..] ==> q == [q[0]] + q[1..] && path == [path[0]] + path[1..];
        assert Lookup(kid', q[1..]) == if q[1..] == path[1..] then r else Lookup(t.kids[i], q[1..]);
      } else if q != [] && q[0] in t.kids {
        assert t'.kids[q[0]] == t.kids[q[0]];
      }
    }
  }

  lemma KidApart(t: Node, i: nat)
    requires t.Table? && Proper(t) && i in t.kids
    ensures FramesOf(t.kids[i]) !! Others(t, i) && t.frame !in FramesOf(t.kids[i]) && t.frame !in Others(t, i)
  {
    forall x | x in Others(t, i) ensures x !in FramesOf(t.kids[i]) {
      var j :| j in t.kids && j != i && x in FramesOf(t.kids[j]);
      assert FramesOf(t.kids[j]) !! FramesOf(t.kids[i]);
    }
  }

  lemma UpRep(v0: View, v: View, t: Node, i: nat, kid': Node, shared: set<nat>)
    requires t.Table? && i in t.kids && Rep(v0.mem, t, shared) && Paged(v.mem) && Rep(v.mem, kid', {})
    requires FramesOf(t) <= v0.live && kid'.frame == t.kids[i].frame
    requires FramesOf(t) == {t.frame} + FramesOf(t.kids[i]) + Others(t, i) && t.frame !in FramesOf(t.kids[i])
    requires FramesOf(t.kids[i]) !! Others(t, i)
    requires OtherTables(t, i) <= Others(t, i) && TablesOf(t.kids[i]) <= FramesOf(t.kids[i])
    requires SameOutside(v0.mem, v.mem, TablesOf(t.kids[i]) + Taken(v0, v))
    ensures t.frame < |v0.mem| && v.mem[t.frame] == v0.mem[t.frame] && Rep(v.mem, WithKid(t, i, kid'), shared)
  {
    hide FramesOf, TablesOf, Others, OtherTables;
    assert SlotRep(v0.mem[t.frame][i], t.kids, i);
    WithKidRep(v0.mem, v.mem, t, i, kid', shared);
  }

  /** A table with no entries yet changes no translation. */
  lemma EmptyTableTranslates(t: Node, i: nat, n: nat, path: seq<nat>)
    requires t.Table? && i !in t.kids
    ensures Translates(t, WithKid(t, i, Table(n, map[])), path, Lookup(t, path))
  {
    var t' := WithKid(t, i, Table(n, map[]));
    forall q ensures Lookup(t', q) == Lookup(t, q) {
      if q != [] && q[0] != i && q[0] in t.kids { assert t'.kids[q[0]] == t.kids[q[0]]; }
    }
  }

  lemma LeafTranslates(t: Node, i: nat, leaf: nat)
    requires t.Table? && i !in t.kids && Deep(t, 1)
    ensures Translates(t, WithKid(t, i, Page(leaf)), [i], Some(leaf)) && Lookup(t, [i]).None?
  {
    var t' := WithKid(t, i, Page(leaf));
    forall q ensures Lookup(t', q) == if q == [i] then Some(leaf) else Lookup(t, q) {
      if q != [] && q[0] != i && q[0] in t.kids { assert t'.kids[q[0]] == t.kids[q[0]]; }
      if q != [] { assert q == [q[0]] + q[1..]; }
    }
  }

  /** Growing the tables and then mapping is a mapping. */
  lemma MappedTwice(
    v0: View, v1: View, v: View, t: Node, t1: Node, t': Node, path: seq<nat>, r: Option<nat>, shared: set<nat>)
    requires Mapped(v0, v1, t, t1, path, Lookup(t, path), shared) && Mapped(v1, v, t1, t', path, r, shared)
    requires v0.live !! v0.available && t.frame in TablesOf(t) && FramesOf(t) <= v0.live
    ensures Mapped(v0, v, t, t', path, r, shared)
  {
    hide HeldIn, FramesOf, TablesOf, Lookup, Translates;
    assert Taken(v0, v) == Taken(v1, v) + Taken(v0, v1);
    LeafIn(t, path);
    TranslatesTwice(t, t1, t', path, r);
  }

  lemma TranslatesTwice(t: Node, t1: Node, t': Node, path: seq<nat>, r: Option<nat>)
    requires Translates(t, t1, path, Lookup(t, path)) && Translates(t1, t', path, r)
    ensures Translates(t, t', path, r) && Lookup(t1, path) == Lookup(t, path)
  {
    forall q ensures Lookup(t', q) == if q == path then r else Lookup(t, q) {
      assert Lookup(t1, q) == Lookup(t, q);
    }
  }

  lemma RootIsTable(t: Node)
    requires t.Table?
    ensures t.frame in TablesOf(t) && t.frame in FramesOf(t)
  {
  }

  /** Writing the last entry of the walk. */
  lemma LeafMapped(v0: View, v: View, t: Node, i: nat, leaf: nat, shared: set<nat>)
    requires t.Table? && HeldIn(v0, t, 1, shared) && i < 512 && i !in shared && i !in t.kids && Paged(v.mem)
    requires leaf in v0.live && leaf !in FramesOf(t) && leaf < |v0.mem| && |v0.mem| <= FRAME_SPACE
    requires v.live == v0.live && v.available == v0.available
    requires t.frame < |v0.mem| && |v0.mem[t.frame]| == 512 && v.mem == SetWord(v0.mem, t.frame, i, MakeEntry(leaf))
    ensures Mapped(v0, v, t, WithKid(t, i, Page(leaf)), [i], Some(leaf), shared)
  {
    hide Proper, Rep, Deep, FramesOf, TablesOf, Translates, Lookup, MakeEntry;
    RootIsTable(t);
    PageFacts(v.mem, leaf);
    FillSlot(v0, v, t, i, Page(leaf), 1, shared);
    LeafTranslates(t, i, leaf);
  }

  lemma PageFacts(mem: Memory, leaf: nat)
    requires leaf < |mem| && Paged(mem)
    ensures Rep(mem, Page(leaf), {}) && Proper(Page(leaf)) && Deep(Page(leaf), 0)
    ensures FramesOf(Page(leaf)) == {leaf} && TablesOf(Page(leaf)) == {}
  {
  }

  /** An all-zero frame is a table with no entries. */
  lemma TableFacts(mem: Memory, n: nat, level: nat)
    requires n < |mem| && |mem[n]| == 512 && level > 0 && forall i :: 0 <= i < 512 ==> mem[n][i] == 0
    ensures Rep(mem, Table(n, map[]), {}) && Proper(Table(n, map[])) && Deep(Table(n, map[]), level)
    ensures FramesOf(Table(n, map[])) == {n} && TablesOf(Table(n, map[])) == {n}
  {
  }

  /** Hanging an empty table into an unused slot. */
  lemma TableMapped(v0: View, v: View, t: Node, n: nat, path: seq<nat>, shared: set<nat>)
    requires t.Table? && |path| > 1 && HeldIn(v0, t, |path|, shared) && Paged(v.mem)
    requires path[0] < 512 && path[0] !in shared && path[0] !in t.kids
    requires n !in v0.live && n in v0.available && n < |v0.mem| && |v0.mem| <= FRAME_SPACE && n != t.frame
    requires v.live == v0.live + {n} && v.available == v0.available - {n}
    requires t.frame < |v0.mem| && |v0.mem[t.frame]| == 512 && |v.mem| == |v0.mem|
    requires v.mem[t.frame] == v0.mem[t.frame][path[0] := MakeEntry(n)]
    requires |v.mem[n]| == 512 && (forall j :: 0 <= j < 512 ==> v.mem[n][j] == 0)
    requires forall x :: 0 <= x < |v0.mem| && x != n && x != t.frame ==> v.mem[x] == v0.mem[x]
    ensures Mapped(v0, v, t, WithKid(t, path[0], Table(n, map[])), path, Lookup(t, path), shared)
  {
    hide Proper, Rep, Deep, FramesOf, TablesOf, Translates, Lookup, MakeEntry;
    RootIsTable(t);
    TableFacts(v.mem, n, |path| - 1);
    FillSlot(v0, v, t, path[0], Table(n, map[]), |path|, shared);
    EmptyTableTranslates(t, path[0], n, path);
    LeafIn(t, path);
  }

  /** The child table in slot `path[0]`, created if the slot is unused. */
  method NextTable(m: Machine, f: nat, path: seq<nat>, ghost t: Node, ghost shared: set<nat>)
      returns (r: Option<nat>, ghost t': Node)
    requires Ready(m) && |path| > 1 && path[0] < 512 && path[0] !in shared && t.frame == f && Held(m, t, |path|, shared)
    modifies m
    ensures Ready(m) && Mapped(old(ViewOf(m)), ViewOf(m), t, t', path, Lookup(t, path), shared)
    ensures r.None? ==> m.Available() == {} && path[0] !in t.kids
    ensures |old(m.Available())| <= |m.Available()| + 1
    ensures r.Some? ==> t'.Table? && path[0] in t'.kids && t'.kids[path[0]].frame == r.value
  {
    hide Inv, Proper, FramesOf, TablesOf, Rep, Deep, Present, User, Huge, FrameOf, Translates, Mapped;
    Arrive(m, t, path, shared);
    NothingMapped(ViewOf(m), t, path, shared);
    var i := path[0];
    var entry := m.mem[f][i];
    if entry != 0 { return Some(FrameOf(entry)), t; }
    var n := m.AllocateFrame();
    if n.None? { return None, t; }
    m.WriteFrame(n.value, seq(512, _ => 0));
    m.WriteWord(f, i, MakeEntry(n.value));
    r, t' := n, WithKid(t, i, Table(n.value, map[]));
    ReadyPaged(m);
    TableMapped(old(ViewOf(m)), ViewOf(m), t, n.value, path, shared);
  }

  /** Maps `path` to `leaf` in the table at `f`, creating the tables on the way. Fails when the slot is
      taken or a table cannot be allocated; tables created on the way then stay, mapping nothing. */
  method MapTo(m: Machine, f: nat, path: seq<nat>, leaf: nat, ghost t: Node, ghost shared: set<nat>)
      returns (ok: bool, ghost t': Node)
    requires Ready(m) && path != [] && t.frame == f && Held(m, t, |path|, shared)
    requires (forall k :: 0 <= k < |path| ==> path[k] < 512) && path[0] !in shared
    requires leaf in m.live && leaf !in FramesOf(t)
    modifies m
    ensures Ready(m)
    ensures Mapped(old(ViewOf(m)), ViewOf(m), t, t', path, if ok then Some(leaf) else Lookup(t, path), shared)
    ensures ok ==> Lookup(t, path).None?
    ensures !ok ==> Lookup(t, path).Some? || m.Available() == {}
    ensures |old(m.Available())| < |m.Available()| + |path|
    decreases |path|
  {
    hide Inv, Proper, FramesOf, TablesOf, Rep, Deep, Present, User, Huge, FrameOf, Lookup, Translates, Mapped;
    ghost var v0 := ViewOf(m);
    Arrive(m, t, path, shared);
    if |path| == 1 {
      LookupOne(t, path);
      if m.mem[f][path[0]] != 0 {
        NothingMapped(v0, t, path, shared);
        return false, t;
      }
      LiveInMemory(m, leaf);
      m.WriteWord(f, path[0], MakeEntry(leaf));
      ReadyPaged(m);
      LeafMapped(v0, ViewOf(m), t, path[0], leaf, shared);
      assert path == [path[0]];
      return true, WithKid(t, path[0], Page(leaf));
    }
    var child, t1 := NextTable(m, f, path, t, shared);
    if child.None? { return false, t1; }
    ghost var v1 := ViewOf(m);
    Descend(v0, m, t, t1, path, leaf, shared);
    ghost var kid';
    ok, kid' := MapTo(m, child.value, path[1..], leaf, t1.kids[path[0]], {});
    ReadyPaged(m);
    ghost var r := if ok then Some(leaf) else Lookup(t, path);
    MappedUp(v1, ViewOf(m), t1, path[0], kid', path, r, shared);
    t' := WithKid(t1, path[0], kid');
    MappedTwice(v0, v1, ViewOf(m), t, t1, t', path, r, shared);
  }

  lemma LookupOne(t: Node, path: seq<nat>)
    requires t.Table? && Deep(t, 1) && |path| == 1
    ensures Lookup(t, path).Some? <==> path[0] in t.kids
  {
  }

  lemma LiveInMemory(m: Machine, f: nat)
    requires Ready(m) && f in m.live
    ensures f < |m.mem| && |m.mem[f]| == 512 && f < FRAME_SPACE
  {
  }

  /** What the walk finds below the table it has just reached or made. */
  lemma Descend(v0: View, m: Machine, t: Node, t1: Node, path: seq<nat>, leaf: nat, shared: set<nat>)
    requires Ready(m) && path != [] && path[0] < 512 && path[0] !in shared
    requires Mapped(v0, ViewOf(m), t, t1, path, Lookup(t, path), shared) && path[0] in t1.kids
    requires leaf in v0.live && leaf !in FramesOf(t) && v0.live !! v0.available
    ensures Held(m, t1, |path|, shared) && Held(m, t1.kids[path[0]], |path| - 1, {}) && leaf !in FramesOf(t1)
    ensures t.frame in TablesOf(t) && leaf !in FramesOf(t1.kids[path[0]]) && leaf in m.live
    ensures Lookup(t, path) == Lookup(t1, path) == Lookup(t1.kids[path[0]], path[1..])
    ensures HeldIn(ViewOf(m), t1, |path|, shared) && m.live !! m.Available()
  {
    hide Inv, FramesOf, TablesOf, Rep, Deep, Proper, FrameOf;
    Arrive(m, t1, path, shared);
    RootIsTable(t);
    KidFrames(t1, path[0]);
    LeafIn(t, path);
  }

  lemma Arrive(m: Machine, t: Node, path: seq<nat>, shared: set<nat>)
    requires Ready(m) && path != [] && path[0] < 512 && path[0] !in shared && Held(m, t, |path|, shared)
    ensures t.Table? && t.frame in m.live && t.frame < |m.mem| && |m.mem[t.frame]| == 512
    ensures HeldIn(ViewOf(m), t, |path|, shared) && m.live !! m.Available()
    ensures m.mem[t.frame][path[0]] == 0 <==> path[0] !in t.kids
    ensures path[0] in t.kids ==>
      && FrameOf(m.mem[t.frame][path[0]]) == t.kids[path[0]].frame
      && Held(m, t.kids[path[0]], |path| - 1, {}) && FramesOf(t.kids[path[0]]) <= FramesOf(t)
  {
    hide Inv;
    var i := path[0];
    Apart(m);
    assert SlotRep(m.mem[t.frame][i], t.kids, i);
  }

  lemma Apart(m: Machine)
    requires Ready(m)
    ensures m.live !! m.Available()
  {
  }

  // --- unmapping ---

  ghost function WithoutKid(t: Node, i: nat): Node
    requires t.Table?
  {
    t.(kids := t.kids - {i})
  }

  lemma WithoutKidRep(mem: Memory, mem': Memory, t: Node, i: nat, shared: set<nat>)
    requires t.Table? && Rep(mem, t, shared) && Deep(t, 1) && Paged(mem') && |mem'| == |mem| && i < 512
    requires mem'[t.frame] == mem[t.frame][i := 0]
    ensures Rep(mem', WithoutKid(t, i), shared)
  {
    var t' := WithoutKid(t, i);
    forall j | 0 <= j < 512 && j !in shared ensures SlotRep(mem'[t.frame][j], t'.kids, j) {
      assert SlotRep(mem[t.frame][j], t.kids, j);
    }
    forall j | j in t'.kids ensures Rep(mem', t'.kids[j], {}) {
      assert t'.kids[j] == t.kids[j] && t.kids[j].Page? && Rep(mem, t.kids[j], {});
    }
  }

  lemma WithoutKidFrames(t: Node, i: nat)
    requires t.Table? && Deep(t, 1) && Proper(t) && i in t.kids
    ensures var t' := WithoutKid(t, i);
            && FramesOf(t') == FramesOf(t) - {t.kids[i].frame} && TablesOf(t') == {t.frame} == TablesOf(t)
            && Proper(t') && Deep(t', 1) && Lookup(t, [i]) == Some(t.kids[i].frame)
  {
    var t' := WithoutKid(t, i);
    forall x | x in FramesOf(t) ensures x in FramesOf(t') <==> x != t.kids[i].frame {
      if x != t.frame {
        var j :| j in t.kids && x in FramesOf(t.kids[j]);
        assert FramesOf(t.kids[j]) == {x} && FramesOf(t.kids[i]) == {t.kids[i].frame};
        assert j != i ==> FramesOf(t.kids[j]) !! FramesOf(t.kids[i]);
        assert j != i ==> j in t'.kids && t'.kids[j] == t.kids[j];
      }
    }
    forall x | x in FramesOf(t') ensures x in FramesOf(t) {
      if x != t.frame {
        var j :| j in t'.kids && x in FramesOf(t'.kids[j]);
        assert j in t.kids && t'.kids[j] == t.kids[j];
      }
    }
  }

  lemma WithoutKidTranslates(t: Node, i: nat)
    requires t.Table? && Deep(t, 1)
    ensures Translates(t, WithoutKid(t, i), [i], None)
  {
    var t' := WithoutKid(t, i);
    forall q ensures Lookup(t', q) == if q == [i] then None else Lookup(t, q) {
      if q != [] {
        assert q == [q[0]] + q[1..];
        assert q[0] != i && q[0] in t.kids ==> t'.kids[q[0]] == t.kids[q[0]];
      }
    }
  }

  /** Clearing the last entry of the walk. */
  lemma LeafUnmapped(v0: View, v: View, t: Node, i: nat, shared: set<nat>)
    requires t.Table? && HeldIn(v0, t, 1, shared) && i < 512 && i !in shared && i in t.kids && Paged(v.mem)
    requires v.live == v0.live && v.available == v0.available
    requires t.frame < |v0.mem| && |v0.mem[t.frame]| == 512 && v.mem == SetWord(v0.mem, t.frame, i, 0)
    ensures Mapped(v0, v, t, WithoutKid(t, i), [i], None, shared)
  {
    hide Proper, Rep, Deep, FramesOf, TablesOf, Translates, Lookup;
    RootIsTable(t);
    WithoutKidRep(v0.mem, v.mem, t, i, shared);
    WithoutKidFrames(t, i);
    WithoutKidTranslates(t, i);
  }

  /** Clears the last entry of `path` and returns the page it led to; tables stay. */
  method UnmapAt(m: Machine, f: nat, path: seq<nat>, ghost t: Node, ghost shared: set<nat>)
      returns (r: Option<nat>, ghost t': Node)
    requires Ready(m) && path != [] && t.frame == f && Held(m, t, |path|, shared)
    requires (forall k :: 0 <= k < |path| ==> path[k] < 512) && path[0] !in shared
    modifies m
    ensures Ready(m) && Mapped(old(ViewOf(m)), ViewOf(m), t, t', path, None, shared) && r == Lookup(t, path)
    ensures m.live == old(m.live)
    decreases |path|
  {
    hide Inv, Proper, FramesOf, TablesOf, Rep, Deep, Present, User, Huge, FrameOf, Lookup, Translates, Mapped;
    ghost var v0 := ViewOf(m);
    Arrive(m, t, path, shared);
    var entry := m.mem[f][path[0]];
    if entry == 0 {
      LookupAbsent(t, path);
      NothingMapped(v0, t, path, shared);
      return None, t;
    }
    if |path| == 1 {
      m.WriteWord(f, path[0], 0);
      ReadyPaged(m);
      assert path == [path[0]];
      LeafUnmapped(v0, ViewOf(m), t, path[0], shared);
      WithoutKidFrames(t, path[0]);
      return Some(FrameOf(entry)), WithoutKid(t, path[0]);
    }
    ghost var kid';
    r, kid' := UnmapAt(m, FrameOf(entry), path[1..], t.kids[path[0]], {});
    LookupStep(t, path);
    ReadyPaged(m);
    MappedUp(v0, ViewOf(m), t, path[0], kid', path, None, shared);
    t' := WithKid(t, path[0], kid');
  }

  lemma LookupAbsent(t: Node, path: seq<nat>)
    requires t.Table? && path != [] && path[0] !in t.kids
    ensures Lookup(t, path) == None
  {
  }
}
