/** Address spaces: private page-table trees over shared kernel slots. Mapping, unmapping, forking and
    tearing down walk the tables in memory, taking and returning frames as they go. */
module AddressSpaces {
  import opened Basics
  import opened Frames
  import opened PageTables

  /** A machine whose frame numbers fit a table entry. */
  ghost predicate Ready(m: Machine)
    reads m
  {
    m.Valid() && |m.mem| <= FRAME_SPACE
  }

  /** Tree `t` is in memory, made of live frames, each used once. */
  ghost predicate Held(m: Machine, t: Node, level: nat, shared: set<nat>)
    reads m
  {
    Rep(m.mem, t, shared) && Proper(t) && Deep(t, level) && FramesOf(t) <= m.live
  }

  // --- teardown ---

  /** The frames of the children with index below `n`. */
  ghost function Below(t: Node, n: nat): set<nat>
    requires t.Table?
  {
    set j, x | j in t.kids && j < n && x in FramesOf(t.kids[j]) :: x
  }

  lemma BelowStep(t: Node, n: nat)
    requires t.Table? && Proper(t)
    ensures Below(t, n + 1) == Below(t, n) + (if n in t.kids then FramesOf(t.kids[n]) else {})
    ensures n in t.kids ==> FramesOf(t.kids[n]) !! Below(t, n) && FramesOf(t.kids[n]) <= FramesOf(t) - {t.frame}
    ensures t.frame !in Below(t, n)
  {
    var upTo := Below(t, n + 1);
    forall x | x in upTo ensures x in Below(t, n) + (if n in t.kids then FramesOf(t.kids[n]) else {}) {
      var j :| j in t.kids && j < n + 1 && x in FramesOf(t.kids[j]);
    }
    if n in t.kids {
      forall x | x in Below(t, n) ensures x !in FramesOf(t.kids[n]) {
        var j :| j in t.kids && j < n && x in FramesOf(t.kids[j]);
        assert FramesOf(t.kids[j]) !! FramesOf(t.kids[n]);
      }
    }
  }

  lemma BelowAll(t: Node, n: nat)
    requires t.Table? && forall i :: i in t.kids ==> i < n
    ensures FramesOf(t) == {t.frame} + Below(t, n)
  {
  }

  /** A child not yet freed is still in memory after changes to frames that are not its own. */
  lemma KidHeld(mem: Memory, mem': Memory, t: Node, i: nat, shared: set<nat>, touched: set<nat>)
    requires t.Table? && i in t.kids && Rep(mem, t, shared) && Paged(mem') && |mem'| == |mem|
    requires forall x :: 0 <= x < |mem| && x !in touched ==> mem'[x] == mem[x]
    requires touched !! FramesOf(t.kids[i])
    ensures Rep(mem', t.kids[i], {})
  {
    TablesInFrames(t.kids[i]);
    RepFrame(mem, mem', t.kids[i], {});
  }

  /** A machine's memory, live frames, allocatable frames and free-list length. */
  datatype View = View(mem: Memory, live: set<nat>, available: set<nat>, freed: nat)

  ghost function ViewOf(m: Machine): View
    reads m
  {
    View(m.mem, m.live, m.Available(), |m.free|)
  }

  /** Exactly the frames in `s` were given back, each once, and no other frame was written. */
  ghost predicate Released(v0: View, v: View, s: set<nat>) {
    && v.live == v0.live - s && v.available == v0.available + s && v.freed == v0.freed + |s|
    && |v.mem| == |v0.mem| && forall x :: 0 <= x < |v0.mem| && x !in s ==> v.mem[x] == v0.mem[x]
  }

  lemma ReleasedMore(v0: View, v1: View, v2: View, a: set<nat>, b: set<nat>)
    requires Released(v0, v1, a) && Released(v1, v2, b) && a !! b
    ensures Released(v0, v2, a + b)
  {
    assert |a + b| == |a| + |b|;
  }

  /** Returns one frame. */
  method Release(m: Machine, f: nat)
    requires Ready(m) && f in m.live
    modifies m
    ensures Ready(m) && Released(old(ViewOf(m)), ViewOf(m), {f})
  {
    hide Inv;
    m.DeallocateFrame(f);
  }

  /** Frees a table's children and then the table itself, bottom up. */
  method FreeSubtree(m: Machine, f: nat, level: nat, ghost t: Node)
    requires Ready(m) && 1 <= level && t.frame == f && Held(m, t, level, {})
    modifies m
    ensures Ready(m) && Released(old(ViewOf(m)), ViewOf(m), FramesOf(t))
    decreases level
  {
    hide Inv, Proper, FramesOf, Below, Rep, Deep, Present, FrameOf, Released, Ready;
    ghost var v0 := ViewOf(m);
    Begin(m, t, level);
    var i := 0;
    while i < 512
      invariant 0 <= i <= 512 && Ready(m)
      invariant Released(v0, ViewOf(m), Below(t, i))
    {
      ghost var v1 := ViewOf(m);
      NextSlot(v0, m, t, level, i, {});
      var entry := m.mem[f][i];
      if Present(entry) {
        if level == 1 {
          Release(m, FrameOf(entry));
        } else {
          FreeSubtree(m, FrameOf(entry), level - 1, t.kids[i]);
        }
        ReleasedMore(v0, v1, ViewOf(m), Below(t, i), FramesOf(t.kids[i]));
      }
      i := i + 1;
    }
    AllSlots(v0, ViewOf(m), t, {});
    ghost var v1 := ViewOf(m);
    Release(m, f);
    ReleasedMore(v0, v1, ViewOf(m), Below(t, 512), {f});
  }

  lemma Begin(m: Machine, t: Node, level: nat)
    requires Ready(m) && 1 <= level && Deep(t, level)
    ensures t.Table? && Released(ViewOf(m), ViewOf(m), Below(t, 0))
  {
    BelowNone(t);
  }

  /** What a teardown finds at slot `i` once the children below it are gone. */
  lemma NextSlot(v0: View, m: Machine, t: Node, level: nat, i: nat, shared: set<nat>)
    requires Ready(m) && t.Table? && Rep(v0.mem, t, shared) && Proper(t) && Deep(t, level) && FramesOf(t) <= v0.live
    requires Released(v0, ViewOf(m), Below(t, i)) && i < 512 && i !in shared
    ensures t.frame < |m.mem| && |m.mem[t.frame]| == 512 && m.mem[t.frame] == v0.mem[t.frame]
    ensures Present(m.mem[t.frame][i]) <==> i in t.kids
    ensures i !in t.kids ==> Below(t, i + 1) == Below(t, i)
    ensures i in t.kids ==>
              && FrameOf(m.mem[t.frame][i]) == t.kids[i].frame && level > 0 && Held(m, t.kids[i], level - 1, {})
              && Below(t, i + 1) == Below(t, i) + FramesOf(t.kids[i]) && Below(t, i) !! FramesOf(t.kids[i])
              && (level == 1 ==> FramesOf(t.kids[i]) == {t.kids[i].frame})
              && (level > 1 ==> t.kids[i].Table?)
  {
    BelowStep(t, i);
    hide Inv, Below;
    assert t.frame in FramesOf(t);
    assert SlotRep(v0.mem[t.frame][i], t.kids, i);
    if i in t.kids {
      KidHeld(v0.mem, m.mem, t, i, shared, Below(t, i)) by { ReadyPaged(m); }
    }
  }

  lemma AllSlots(v0: View, v: View, t: Node, shared: set<nat>)
    requires t.Table? && Rep(v0.mem, t, shared) && Proper(t) && FramesOf(t) <= v0.live
    requires Released(v0, v, Below(t, 512))
    ensures FramesOf(t) == Below(t, 512) + {t.frame} && t.frame !in Below(t, 512) && t.frame in v.live
  {
    hide Rep, Below, Proper, FramesOf, Released;
    SlotsBounded(v0.mem, t, shared);
    RootApart(t, 512);
    BelowAll(t, 512);
    RootLive(v0, v, t, Below(t, 512));
  }

  lemma RootLive(v0: View, v: View, t: Node, s: set<nat>)
    requires Released(v0, v, s) && t.frame in v0.live && t.frame !in s
    ensures t.frame in v.live
  {
  }

  lemma RootApart(t: Node, n: nat)
    requires t.Table? && Proper(t)
    ensures t.frame !in Below(t, n)
  {
  }

  lemma SlotsBounded(mem: Memory, t: Node, shared: set<nat>)
    requires t.Table? && Rep(mem, t, shared)
    ensures forall i :: i in t.kids ==> i < 512
  {
  }

  lemma BelowNone(t: Node)
    requires t.Table?
    ensures Below(t, 0) == {}
  {
  }

  lemma ReadyPaged(m: Machine)
    requires Ready(m)
    ensures Paged(m.mem)
  {
  }

  // --- spaces ---

  /** The slots of the root that the kernel table fills; every space shares them. */
  ghost function KernelSlots(mem: Memory, kernel: nat): set<nat>
    requires kernel < |mem| && |mem[kernel]| == 512
  {
    set i | 0 <= i < 512 && Present(mem[kernel][i])
  }

  /** An address space: kernel slots equal the kernel's, everything else is its own four-level tree. The
      kernel's table is not one of the frames the allocator hands out. */
  ghost predicate Space(m: Machine, t: Node, kernel: nat)
    reads m
  {
    && kernel < |m.mem| && |m.mem[kernel]| == 512 && kernel !in m.usable
    && Held(m, t, 4, KernelSlots(m.mem, kernel))
    && (forall i :: i in KernelSlots(m.mem, kernel) ==> m.mem[t.frame][i] == m.mem[kernel][i])
  }

  lemma KernelRow(m: Machine, t: Node, kernel: nat)
    requires Space(m, t, kernel)
    ensures kernel < |m.mem| && |m.mem[kernel]| == 512
  {
  }

  /** The table at `active` has the kernel's entries, and no other entry of it leads into `t`. */
  ghost predicate Foreign(mem: Memory, active: nat, t: Node, kernel: nat) {
    && kernel < |mem| && |mem[kernel]| == 512 && active < |mem| && |mem[active]| == 512 && active !in FramesOf(t)
    && (forall i :: i in KernelSlots(mem, kernel) ==> mem[active][i] == mem[kernel][i])
    && (forall i :: 0 <= i < 512 && i !in KernelSlots(mem, kernel) && Present(mem[active][i]) ==>
          FrameOf(mem[active][i]) !in FramesOf(t))
  }

  /** The kernel's own table is foreign to every space. */
  lemma KernelForeign(m: Machine, t: Node, kernel: nat)
    requires Ready(m) && Space(m, t, kernel)
    ensures Foreign(m.mem, kernel, t, kernel)
  {
    hide FramesOf, Rep, Proper, Deep;
    KernelApart(m, t, kernel);
  }

  /** So is another space's root, when the two share no frame. */
  lemma SpaceForeign(m: Machine, t: Node, u: Node, kernel: nat)
    requires Ready(m) && Space(m, t, kernel) && Space(m, u, kernel) && FramesOf(t) !! FramesOf(u)
    ensures Foreign(m.mem, u.frame, t, kernel)
  {
    hide Inv, Rep, Deep, Proper, FramesOf, Present, FrameOf;
    assert u.frame in FramesOf(u) && t.frame in FramesOf(t) by { RootIn(t); RootIn(u); }
    RepRoot(m.mem, u, KernelSlots(m.mem, kernel));
    forall i | 0 <= i < 512 && i !in KernelSlots(m.mem, kernel) && Present(m.mem[u.frame][i])
      ensures FrameOf(m.mem[u.frame][i]) !in FramesOf(t)
    {
      EntryLeadsIn(m.mem, u, i, KernelSlots(m.mem, kernel));
    }
  }

  lemma RootIn(t: Node)
    ensures t.frame in FramesOf(t)
  {
  }

  /** A present entry of a table's own slots leads to a frame of the tree. */
  lemma EntryLeadsIn(mem: Memory, u: Node, i: nat, shared: set<nat>)
    requires Rep(mem, u, shared) && Deep(u, 4) && i < 512 && i !in shared && Present(mem[u.frame][i])
    ensures FrameOf(mem[u.frame][i]) in FramesOf(u)
  {
    assert SlotRep(mem[u.frame][i], u.kids, i);
    assert i in u.kids;
    KidRootIn(u, i);
  }

  /** Tears a space down: its private subtrees, then its root. An entry is left alone when the table that
      is active at the time (the kernel's, or another process's) has the same one. */
  method Destroy(m: Machine, root: nat, active: nat, ghost kernel: nat, ghost t: Node)
    requires Ready(m) && t.frame == root && Space(m, t, kernel) && Foreign(m.mem, active, t, kernel)
    modifies m
    ensures Ready(m) && Released(old(ViewOf(m)), ViewOf(m), FramesOf(t))
    ensures kernel !in FramesOf(t) && m.mem[kernel] == old(m.mem)[kernel]
  {
    hide Inv, Proper, FramesOf, Below, Rep, Deep, Present, FrameOf, Released, Ready, KernelSlots, Foreign;
    ghost var v0, shared := ViewOf(m), KernelSlots(m.mem, kernel);
    Begin(m, t, 4);
    KernelApart(m, t, kernel);
    var i := 0;
    while i < 512
      invariant 0 <= i <= 512 && Ready(m)
      invariant Released(v0, ViewOf(m), Below(t, i))
    {
      ghost var v1 := ViewOf(m);
      TopSlot(v0, m, t, active, kernel, i);
      var entry, activeEntry := m.mem[root][i], m.mem[active][i];
      var sharedSlot := Present(activeEntry) && FrameOf(activeEntry) == FrameOf(entry);
      if Present(entry) && !sharedSlot {
        FreeSubtree(m, FrameOf(entry), 3, t.kids[i]);
        ReleasedMore(v0, v1, ViewOf(m), Below(t, i), FramesOf(t.kids[i]));
      }
      i := i + 1;
    }
    AllSlots(v0, ViewOf(m), t, shared);
    ghost var v1 := ViewOf(m);
    Release(m, root);
    ReleasedMore(v0, v1, ViewOf(m), Below(t, 512), {root});
    SameKernel(v0, ViewOf(m), t, kernel);
  }

  lemma SameKernel(v0: View, v: View, t: Node, kernel: nat)
    requires Released(v0, v, FramesOf(t)) && kernel !in FramesOf(t) && kernel < |v0.mem|
    ensures |v.mem| == |v0.mem| && v.mem[kernel] == v0.mem[kernel]
  {
  }

  /** The kernel's own table is not one of the frames being handed around. */
  lemma KernelApart(m: Machine, t: Node, kernel: nat)
    requires Ready(m) && Space(m, t, kernel)
    ensures kernel !in m.live && kernel !in FramesOf(t)
  {
  }

  lemma TopSlot(v0: View, m: Machine, t: Node, active: nat, kernel: nat, i: nat)
    requires Ready(m) && t.Table? && i < 512 && Foreign(v0.mem, active, t, kernel)
    requires Rep(v0.mem, t, KernelSlots(v0.mem, kernel)) && Proper(t) && Deep(t, 4) && FramesOf(t) <= v0.live
    requires forall j :: j in KernelSlots(v0.mem, kernel) ==> v0.mem[t.frame][j] == v0.mem[kernel][j]
    requires Released(v0, ViewOf(m), Below(t, i))
    ensures t.frame < |m.mem| && |m.mem[t.frame]| == 512 && active < |m.mem| && |m.mem[active]| == 512
    ensures var entry, a := m.mem[t.frame][i], m.mem[active][i];
            && (i in t.kids <==> Present(entry) && !(Present(a) && FrameOf(a) == FrameOf(entry)))
            && (i in t.kids ==> FrameOf(entry) == t.kids[i].frame && Held(m, t.kids[i], 3, {}))
            && (i in t.kids ==>
                  Below(t, i + 1) == Below(t, i) + FramesOf(t.kids[i]) && Below(t, i) !! FramesOf(t.kids[i]))
            && (i !in t.kids ==> Below(t, i + 1) == Below(t, i))
  {
    hide Inv, Below, Rep, Proper, Deep, FramesOf, Ready, Present, FrameOf, Released;
    TopApart(v0, m, t, active, KernelSlots(v0.mem, kernel), i);
    if i !in KernelSlots(v0.mem, kernel) {
      NextSlot(v0, m, t, 4, i, KernelSlots(v0.mem, kernel));
      if i in t.kids { KidRootIn(t, i); }
    }
  }

  lemma KidRootIn(t: Node, i: nat)
    requires t.Table? && i in t.kids
    ensures t.kids[i].frame in FramesOf(t)
  {
    assert t.kids[i].frame in FramesOf(t.kids[i]);
  }

  lemma TopApart(v0: View, m: Machine, t: Node, active: nat, shared: set<nat>, i: nat)
    requires Ready(m) && t.Table? && i < 512 && active < |v0.mem| && |v0.mem[active]| == 512
    requires Rep(v0.mem, t, shared) && Proper(t)
    requires Released(v0, ViewOf(m), Below(t, i)) && active !in FramesOf(t)
    ensures t.frame < |m.mem| && |m.mem[t.frame]| == 512 && m.mem[t.frame] == v0.mem[t.frame]
    ensures |m.mem| == |v0.mem| && m.mem[active] == v0.mem[active]
    ensures i in shared ==> i !in t.kids && Below(t, i + 1) == Below(t, i)
  {
    BelowStep(t, i);
    BelowInFrames(t, i);
    hide Inv, Below, FramesOf, Proper;
  }

  lemma BelowInFrames(t: Node, i: nat)
    requires t.Table?
    ensures Below(t, i) <= FramesOf(t)
  {
  }

  // --- a new space ---

  /** A fresh root with the kernel's entries copied in; running out of frames aborts (`None`). */
  method NewSharingKernel(m: Machine, kernel: nat) returns (r: Option<nat>, ghost t: Node)
    requires Ready(m) && kernel < |m.mem| && |m.mem[kernel]| == 512 && kernel !in m.usable
    requires forall i :: 0 <= i < 512 ==> Present(m.mem[kernel][i]) || m.mem[kernel][i] == 0
    modifies m
    ensures Ready(m) && |m.mem| == |old(m.mem)|
    ensures r.None? ==> m.mem == old(m.mem) && m.live == old(m.live) && m.Available() == old(m.Available()) == {}
    ensures r.Some? ==>
              && t == Table(r.value, map[]) && Space(m, t, kernel)
              && r.value !in old(m.live) && m.live == old(m.live) + {r.value} && r.value in old(m.Available())
              && m.Available() == old(m.Available()) - {r.value}
              && forall x :: 0 <= x < |m.mem| && x != r.value ==> m.mem[x] == old(m.mem)[x]
  {
    t := Page(0);
    r := m.AllocateFrame();
    if r.None? { return; }
    var root := r.value;
    LiveNotKernel(m, root, kernel);
    m.WriteFrame(root, seq(512, _ => 0));
    var i := 0;
    while i < 512
      invariant 0 <= i <= 512 && Ready(m) && root in m.live && |m.mem| == |old(m.mem)|
      invariant m.live == old(m.live) + {root} && m.Available() == old(m.Available()) - {root}
      invariant |m.mem[root]| == 512 && forall j :: 0 <= j < i ==> m.mem[root][j] == m.mem[kernel][j]
      invariant forall x :: 0 <= x < |m.mem| && x != root ==> m.mem[x] == old(m.mem)[x]
    {
      m.WriteWord(root, i, m.mem[kernel][i]);
      i := i + 1;
    }
    t := Table(root, map[]);
    assert FramesOf(t) == {root};
  }

  lemma LiveNotKernel(m: Machine, f: nat, kernel: nat)
    requires Ready(m) && f in m.live && kernel !in m.usable
    ensures f != kernel && f < |m.mem| && |m.mem[f]| == 512
  {
  }
}
