/** Forking an address space: every private page copied into a fresh frame at the same address. */
module Forks {
  import opened Basics
  import opened Frames
  import opened PageTables
  import opened AddressSpaces
  import opened Mappings
  import opened UserPages

  /** The parent's page for `q`, where the tree `pt` sits below `prefix`. */
  ghost function Source(pt: Node, prefix: seq<nat>, q: seq<nat>): Option<nat> {
    if |prefix| <= |q| && q[..|prefix|] == prefix then Lookup(pt, q[|prefix|..]) else None
  }

  /** A table with only the children below index `n`. */
  ghost function Upto(pt: Node, n: nat): Node
    requires pt.Table?
  {
    Table(pt.frame, map j | j in pt.kids && j < n :: pt.kids[j])
  }

  lemma SourceStep(pt: Node, n: nat, prefix: seq<nat>, q: seq<nat>)
    requires pt.Table? && n in pt.kids
    ensures var s := Source(pt.kids[n], prefix + [n], q);
            && Source(Upto(pt, n + 1), prefix, q) == (if s.Some? then s else Source(Upto(pt, n), prefix, q))
            && (s.Some? ==> Source(Upto(pt, n), prefix, q).None?)
  {
    var k := |prefix|;
    if k <= |q| && q[..k] == prefix {
      var r := q[k..];
      if r != [] {
        assert q[..k + 1] == prefix + [r[0]] && r[1..] == q[k + 1..];
        assert (prefix + [n])[k] == n;
      }
    } else if k + 1 <= |q| {
      assert (prefix + [n])[..k] == prefix && q[..k + 1][..k] == q[..k];
    }
  }

  lemma UptoSkip(pt: Node, n: nat)
    requires pt.Table? && n !in pt.kids
    ensures Upto(pt, n + 1) == Upto(pt, n)
  {
  }

  lemma UptoAll(pt: Node, n: nat)
    requires pt.Table? && forall i :: i in pt.kids ==> i < n
    ensures Upto(pt, n) == pt
  {
    assert Upto(pt, n).kids == pt.kids;
  }

  /** Path `q` of the child is a fresh copy of page `src`, or is as it was. */
  ghost predicate CopiedAt(v0: View, v: View, src: Option<nat>, ct: Node, ct': Node, q: seq<nat>) {
    if src.None? then Lookup(ct', q) == Lookup(ct, q) else
    && Lookup(ct', q).Some? && Lookup(ct', q).value in Taken(v0, v)
    && src.value < |v0.mem| && Lookup(ct', q).value < |v.mem| && v.mem[Lookup(ct', q).value] == v0.mem[src.value]
  }

  ghost predicate AllCopied(v0: View, v: View, pt: Node, prefix: seq<nat>, ct: Node, ct': Node) {
    forall q :: CopiedAt(v0, v, Source(pt, prefix, q), ct, ct', q)
  }

  /** The child grew from `ct` to `ct'` with frames taken since `v0`; only it and they were written. */
  ghost predicate Grown(v0: View, v: View, ct: Node, ct': Node, shared: set<nat>) {
    && ct.Table? && ct'.Table? && ct'.frame == ct.frame && HeldIn(v, ct', 4, shared)
    && OnlyTook(v0, v) && SameOutside(v0.mem, v.mem, TablesOf(ct) + Taken(v0, v))
    && FramesOf(ct') == FramesOf(ct) + Taken(v0, v) && TablesOf(ct') <= TablesOf(ct) + Taken(v0, v)
    && ct.frame < |v0.mem| && |v0.mem[ct.frame]| == 512
    && (forall i :: i in shared && i < 512 ==> v.mem[ct.frame][i] == v0.mem[ct.frame][i])
  }

  ghost predicate Copied(v0: View, v: View, pt: Node, prefix: seq<nat>, ct: Node, ct': Node, shared: set<nat>) {
    Grown(v0, v, ct, ct', shared) && AllCopied(v0, v, pt, prefix, ct, ct')
  }

  lemma GrownTwice(v0: View, v1: View, v: View, c0: Node, c1: Node, c2: Node, shared: set<nat>)
    requires Grown(v0, v1, c0, c1, shared) && Grown(v1, v, c1, c2, shared)
    requires v0.live !! v0.available && c0.frame in TablesOf(c0)
    ensures Grown(v0, v, c0, c2, shared)
  {
    hide HeldIn, FramesOf, TablesOf;
    assert Taken(v0, v) == Taken(v1, v) + Taken(v0, v1);
  }

  /** Copying the children below `i` and then child `i`. */
  lemma CopiedStep(
    v0: View, v1: View, v: View, pt: Node, i: nat, prefix: seq<nat>, c0: Node, c1: Node, c2: Node, shared: set<nat>)
    requires pt.Table? && i in pt.kids && FramesOf(pt) <= v0.live
    requires Copied(v0, v1, Upto(pt, i), prefix, c0, c1, shared)
    requires Copied(v1, v, pt.kids[i], prefix + [i], c1, c2, shared)
    requires v0.live !! v0.available && c0.frame in TablesOf(c0) && FramesOf(pt) !! FramesOf(c0)
    ensures Copied(v0, v, Upto(pt, i + 1), prefix, c0, c2, shared)
  {
    hide Rep, Proper, HeldIn, FramesOf, TablesOf, Lookup, Source, Grown, CopiedAt, Upto;
    GrownTwice(v0, v1, v, c0, c1, c2, shared);
    var upto := Upto(pt, i + 1);
    forall q ensures CopiedAt(v0, v, Source(upto, prefix, q), c0, c2, q) {
      assert CopiedAt(v0, v1, Source(Upto(pt, i), prefix, q), c0, c1, q);
      assert CopiedAt(v1, v, Source(pt.kids[i], prefix + [i], q), c1, c2, q);
      SourceStep(pt, i, prefix, q);
      var s := Source(pt.kids[i], prefix + [i], q);
      if s.Some? {
        SourceIn(pt, i, prefix, q);
        NewCopy(v0, v1, v, s, c0, c1, c2, q, shared, FramesOf(pt));
      } else {
        OldCopy(v0, v1, v, Source(Upto(pt, i), prefix, q), c0, c1, c2, q, shared);
      }
    }
  }

  lemma SourceIn(pt: Node, i: nat, prefix: seq<nat>, q: seq<nat>)
    requires pt.Table? && i in pt.kids && Source(pt.kids[i], prefix + [i], q).Some?
    ensures Source(pt.kids[i], prefix + [i], q).value in FramesOf(pt)
  {
    LookupInFrames(pt.kids[i], q[|prefix| + 1..]);
  }

  lemma NewCopy(
    v0: View, v1: View, v: View, s: Option<nat>, c0: Node, c1: Node, c2: Node, q: seq<nat>, shared: set<nat>,
    frames: set<nat>)
    requires s.Some? && s.value in frames && frames <= v0.live && frames !! FramesOf(c0)
    requires Grown(v0, v1, c0, c1, shared) && Grown(v1, v, c1, c2, shared) && CopiedAt(v1, v, s, c1, c2, q)
    requires v0.live !! v0.available
    ensures CopiedAt(v0, v, s, c0, c2, q)
  {
    hide HeldIn, FramesOf, TablesOf, Lookup;
    TablesInFrames(c0);
  }

  lemma OldCopy(
    v0: View, v1: View, v: View, s: Option<nat>, c0: Node, c1: Node, c2: Node, q: seq<nat>, shared: set<nat>)
    requires Grown(v0, v1, c0, c1, shared) && Grown(v1, v, c1, c2, shared) && CopiedAt(v0, v1, s, c0, c1, q)
    requires CopiedAt(v1, v, None, c1, c2, q)
    ensures CopiedAt(v0, v, s, c0, c2, q)
  {
    hide FramesOf, TablesOf, Lookup, Rep, Deep;
    if s.Some? { PageNotTable(c1, q); }
  }

  /** Nothing copied yet. */
  lemma CopiedNone(v: View, pt: Node, prefix: seq<nat>, ct: Node, shared: set<nat>)
    requires pt.Table? && ct.Table? && HeldIn(v, ct, 4, shared)
    ensures Copied(v, v, Upto(pt, 0), prefix, ct, ct, shared)
  {
    hide HeldIn, TablesOf, FramesOf;
    Root4(v, ct, shared);
  }

  /** One page: a fresh frame, the contents, and the mapping. */
  method CopyPage(m: Machine, page: nat, root: nat, path: seq<nat>, ghost ct: Node, ghost shared: set<nat>)
      returns (ok: bool, ghost ct': Node)
    requires Ready(m) && ct.frame == root && Held(m, ct, 4, shared) && UserPath(path) && path[0] !in shared
    requires page in m.live && Lookup(ct, path).None?
    modifies m
    ensures Ready(m)
    ensures ok ==> Copied(old(ViewOf(m)), ViewOf(m), Page(page), path, ct, ct', shared)
    ensures !ok ==> m.Available() == {}
  {
    hide Inv, Rep, Proper, Deep, FramesOf, TablesOf, Lookup, Mapped, Copied;
    ghost var v0 := ViewOf(m);
    ct' := ct;
    LiveInMemory(m, page);
    Apart(m);
    var leaf := m.AllocateFrame();
    if leaf.None? { return false, ct; }
    m.WriteFrame(leaf.value, m.mem[page]);
    ghost var v1 := ViewOf(m);
    FreshLeaf(v0, m, ct, leaf.value, shared);
    ok, ct' := MapTo(m, root, path, leaf.value, ct, shared);
    if ok { PageCopied(v0, v1, ViewOf(m), page, leaf.value, path, ct, ct', shared); }
  }

  lemma FreshLeaf(v0: View, m: Machine, ct: Node, leaf: nat, shared: set<nat>)
    requires Ready(m) && HeldIn(v0, ct, 4, shared) && v0.live !! v0.available && leaf in v0.available
    requires m.live == v0.live + {leaf} && |m.mem| == |v0.mem|
    requires forall x :: 0 <= x < |v0.mem| && x != leaf ==> m.mem[x] == v0.mem[x]
    ensures Held(m, ct, 4, shared) && leaf !in FramesOf(ct)
  {
    ReadyPaged(m);
    TablesInFrames(ct);
    hide Inv, FramesOf, TablesOf, Proper, Deep, Rep;
    RepFrame(v0.mem, m.mem, ct, shared);
  }

  lemma PageCopied(
    v0: View, v1: View, v: View, page: nat, leaf: nat, path: seq<nat>, ct: Node, ct': Node, shared: set<nat>)
    requires v0.live !! v0.available && leaf in v0.available && page in v0.live && page < |v0.mem|
    requires HeldIn(v0, ct, 4, shared) && |path| == 4 && leaf < |v0.mem| && v1.mem == v0.mem[leaf := v0.mem[page]]
    requires v1.live == v0.live + {leaf} && v1.available == v0.available - {leaf}
    requires Mapped(v1, v, ct, ct', path, Some(leaf), shared) && Lookup(ct, path).None?
    ensures Copied(v0, v, Page(page), path, ct, ct', shared)
  {
    hide HeldIn, FramesOf, TablesOf, Translates, Lookup, AllCopied, Grown, Mapped;
    Frames4(v0, ct, shared);
    Root4(v0, ct, shared);
    PageGrown(v0, v1, v, leaf, path, ct, ct', shared);
    OnePage(v0, v, page, leaf, path, ct, ct');
  }

  lemma PageGrown(v0: View, v1: View, v: View, leaf: nat, path: seq<nat>, ct: Node, ct': Node, shared: set<nat>)
    requires v0.live !! v0.available && leaf in v0.available && FramesOf(ct) <= v0.live && |path| == 4
    requires leaf < |v0.mem| && SameOutside(v0.mem, v1.mem, {leaf}) && ct.frame < |v0.mem| && |v0.mem[ct.frame]| == 512
    requires v1.live == v0.live + {leaf} && v1.available == v0.available - {leaf}
    requires Mapped(v1, v, ct, ct', path, Some(leaf), shared) && Lookup(ct, path).None?
    ensures Grown(v0, v, ct, ct', shared) && Translates(ct, ct', path, Some(leaf))
    ensures leaf in Taken(v0, v) && leaf < |v.mem| && v.mem[leaf] == v1.mem[leaf]
  {
    hide HeldIn, FramesOf, TablesOf, Translates, Lookup;
    assert Taken(v0, v) == Taken(v1, v) + {leaf};
    assert leaf !in TablesOf(ct) && ct.frame in FramesOf(ct) by { TablesInFrames(ct); RootIsTable(ct); }
  }

  lemma OnePage(v0: View, v: View, page: nat, leaf: nat, path: seq<nat>, ct: Node, ct': Node)
    requires Translates(ct, ct', path, Some(leaf)) && leaf in Taken(v0, v) && page < |v0.mem| && leaf < |v.mem|
    requires v.mem[leaf] == v0.mem[page]
    ensures AllCopied(v0, v, Page(page), path, ct, ct')
  {
    forall q ensures CopiedAt(v0, v, Source(Page(page), path, q), ct, ct', q) {
      assert q[..|q|] == q;
      assert Lookup(ct', q) == if q == path then Some(leaf) else Lookup(ct, q);
    }
  }

  /** The parent's tree is untouched while the child grows. */
  lemma ParentKept(v0: View, v: View, pt: Node, kernelSlots: set<nat>, ct: Node, c: Node, shared: set<nat>)
    requires Grown(v0, v, ct, c, shared) && Paged(v.mem) && v0.live !! v0.available
    requires Rep(v0.mem, pt, kernelSlots) && FramesOf(pt) <= v0.live && FramesOf(pt) !! FramesOf(ct)
    ensures Rep(v.mem, pt, kernelSlots) && FramesOf(pt) <= v.live && FramesOf(pt) !! FramesOf(c)
    ensures forall x :: x in FramesOf(pt) && x < |v0.mem| ==> v.mem[x] == v0.mem[x]
  {
    hide HeldIn, FramesOf, TablesOf, Rep;
    TablesInFrames(ct);
    TablesInFrames(pt);
    RepFrame(v0.mem, v.mem, pt, kernelSlots);
  }

  /** What the copy finds at slot `i` of the parent's table. */
  lemma NextEntry(m: Machine, pt: Node, level: nat, i: nat, kernelSlots: set<nat>)
    requires Ready(m) && pt.Table? && Held(m, pt, level, kernelSlots) && i < 512 && i !in kernelSlots
    ensures pt.frame < |m.mem| && |m.mem[pt.frame]| == 512 && (Present(m.mem[pt.frame][i]) <==> i in pt.kids)
    ensures i in pt.kids ==>
              && level > 0 && FrameOf(m.mem[pt.frame][i]) == pt.kids[i].frame && Held(m, pt.kids[i], level - 1, {})
              && FramesOf(pt.kids[i]) <= FramesOf(pt)
              && (level == 1 ==> pt.kids[i] == Page(pt.kids[i].frame) && pt.kids[i].frame in m.live)
              && (level > 1 ==> pt.kids[i].Table?)
  {
    hide Inv;
    assert SlotRep(m.mem[pt.frame][i], pt.kids, i);
    if i in pt.kids { KidFrames(pt, i); }
  }

  /** The part of the child that child `i` of the parent goes to is still empty. */
  lemma StillEmpty(v0: View, v: View, pt: Node, i: nat, prefix: seq<nat>, ct: Node, c: Node)
    requires pt.Table? && i in pt.kids && AllCopied(v0, v, Upto(pt, i), prefix, ct, c)
    requires forall q :: Source(pt, prefix, q).Some? ==> Lookup(ct, q).None?
    ensures forall q :: Source(pt.kids[i], prefix + [i], q).Some? ==> Lookup(c, q).None?
  {
    forall q | Source(pt.kids[i], prefix + [i], q).Some? ensures Lookup(c, q).None? {
      SourceStep(pt, i, prefix, q);
      assert CopiedAt(v0, v, Source(Upto(pt, i), prefix, q), ct, c, q);
      KidSource(pt, i, prefix, q);
    }
  }

  lemma KidSource(pt: Node, i: nat, prefix: seq<nat>, q: seq<nat>)
    requires pt.Table? && i in pt.kids && Source(pt.kids[i], prefix + [i], q).Some?
    ensures Source(pt, prefix, q) == Source(pt.kids[i], prefix + [i], q)
  {
    var k := |prefix|;
    assert q[..k + 1][..k] == q[..k] && (prefix + [i])[..k] == prefix;
    assert q[k..][1..] == q[k + 1..] && q[k] == (prefix + [i])[k];
  }

  /** Copies every page below the table at `f` into the child, at the address that starts with `prefix`. */
  method CopySubtree(m: Machine, f: nat, level: nat, prefix: seq<nat>, root: nat, ghost pt: Node, ghost ct: Node,
                     ghost shared: set<nat>)
      returns (ok: bool, ghost ct': Node)
    requires Ready(m) && pt.frame == f && Held(m, pt, level, {}) && 1 <= level && |prefix| + level == 4
    requires |prefix| > 0 && prefix[0] !in shared && forall k :: 0 <= k < |prefix| ==> prefix[k] < 512
    requires ct.frame == root && Held(m, ct, 4, shared) && FramesOf(pt) !! FramesOf(ct)
    requires forall q :: Source(pt, prefix, q).Some? ==> Lookup(ct, q).None?
    modifies m
    ensures Ready(m)
    ensures ok ==> Copied(old(ViewOf(m)), ViewOf(m), pt, prefix, ct, ct', shared)
    ensures !ok ==> m.Available() == {}
    decreases level
  {
    hide Inv, Rep, Proper, Deep, FramesOf, TablesOf, Lookup, Source, Grown, AllCopied, Present, FrameOf, Upto;
    ghost var v0 := ViewOf(m);
    Starting(m, pt, level, prefix, ct, shared);
    ct' := ct;
    var i := 0;
    while i < 512
      invariant 0 <= i <= 512 && Ready(m)
      invariant Copied(v0, ViewOf(m), Upto(pt, i), prefix, ct, ct', shared)
    {
      ghost var v1, c1 := ViewOf(m), ct';
      Continue(v0, m, pt, level, ct, c1, {}, shared);
      NextEntry(m, pt, level, i, {});
      var entry := m.mem[f][i];
      if Present(entry) {
        StillEmpty(v0, v1, pt, i, prefix, ct, c1);
        if level == 1 {
          LeafEmpty(pt.kids[i], prefix + [i], c1);
          ok, ct' := CopyPage(m, FrameOf(entry), root, prefix + [i], c1, shared);
        } else {
          ok, ct' := CopySubtree(m, FrameOf(entry), level - 1, prefix + [i], root, pt.kids[i], c1, shared);
        }
        if !ok { return; }
        CopiedStep(v0, v1, ViewOf(m), pt, i, prefix, ct, c1, ct', shared);
      } else {
        UptoSkip(pt, i);
      }
      i := i + 1;
    }
    ok := true;
    UptoAll(pt, 512) by { SlotsBounded(v0.mem, pt, {}); }
  }

  lemma LeafEmpty(kid: Node, path: seq<nat>, c: Node)
    requires kid.Page? && forall q :: Source(kid, path, q).Some? ==> Lookup(c, q).None?
    ensures Lookup(c, path).None?
  {
    assert path[..|path|] == path;
    assert Source(kid, path, path).Some?;
  }

  lemma Starting(m: Machine, pt: Node, level: nat, prefix: seq<nat>, ct: Node, shared: set<nat>)
    requires Ready(m) && level > 0 && Deep(pt, level) && Held(m, ct, 4, shared)
    ensures pt.Table? && ct.Table? && Copied(ViewOf(m), ViewOf(m), Upto(pt, 0), prefix, ct, ct, shared)
    ensures m.live !! m.Available() && ct.frame in TablesOf(ct)
  {
    hide Inv, Rep, Proper, FramesOf, TablesOf, Copied;
    Apart(m);
    Frames4(ViewOf(m), ct, shared);
    RootIsTable(ct);
    CopiedNone(ViewOf(m), pt, prefix, ct, shared);
  }

  lemma Continue(
    v0: View, m: Machine, pt: Node, level: nat, ct: Node, c: Node, kernelSlots: set<nat>, shared: set<nat>)
    requires Ready(m) && Grown(v0, ViewOf(m), ct, c, shared) && v0.live !! v0.available
    requires HeldIn(v0, pt, level, kernelSlots) && FramesOf(pt) !! FramesOf(ct)
    ensures Held(m, pt, level, kernelSlots) && Held(m, c, 4, shared) && FramesOf(pt) !! FramesOf(c)
    ensures c.frame == ct.frame
  {
    hide Inv, Rep, Proper, Deep, FramesOf, TablesOf;
    ReadyPaged(m);
    ParentKept(v0, ViewOf(m), pt, kernelSlots, ct, c, shared);
  }

  /** The child translates exactly the parent's private addresses, to fresh frames with equal contents. */
  ghost predicate Twin(mem: Memory, pt: Node, ct: Node) {
    && FramesOf(pt) !! FramesOf(ct)
    && forall q :: TwinAt(mem, Lookup(pt, q), Lookup(ct, q))
  }

  ghost predicate TwinAt(mem: Memory, p: Option<nat>, c: Option<nat>) {
    (p.Some? <==> c.Some?) && (p.Some? ==> p.value < |mem| && c.value < |mem| && mem[c.value] == mem[p.value])
  }

  /** A child space with a copy of every private page; running out of frames aborts (`None`). */
  method ForkFrom(m: Machine, parent: nat, kernel: nat, ghost pt: Node) returns (r: Option<nat>, ghost ct: Node)
    requires Ready(m) && pt.frame == parent && Space(m, pt, kernel)
    requires forall i :: 0 <= i < 512 ==> Present(m.mem[kernel][i]) || m.mem[kernel][i] == 0
    modifies m
    ensures Ready(m) && (r.None? ==> m.Available() == {})
    ensures r.Some? ==>
              && ct.frame == r.value && Space(m, pt, kernel) && Space(m, ct, kernel) && Twin(m.mem, pt, ct)
              && FramesOf(ct) <= old(m.Available()) && m.live == old(m.live) + FramesOf(ct)
              && m.Available() == old(m.Available()) - FramesOf(ct)
              && SameOutside(old(m.mem), m.mem, FramesOf(ct))
  {
    hide Inv, Rep, Proper, Deep, FramesOf, TablesOf, Lookup, Source, Grown, AllCopied, Present, FrameOf, Upto,
      KernelSlots;
    hide Space, Twin;
    ghost var v0 := ViewOf(m);
    SpaceStart(m, pt, kernel);
    r, ct := NewSharingKernel(m, kernel);
    if r.None? { return; }
    ghost var v1, shared, c0 := ViewOf(m), KernelSlots(v0.mem, kernel), ct;
    ForkStart(v0, m, pt, c0, kernel);
    var i := 0;
    while i < 512
      invariant 0 <= i <= 512 && Ready(m) && r == Some(c0.frame)
      invariant Copied(v1, ViewOf(m), Upto(pt, i), [], c0, ct, shared)
    {
      ghost var v2, c1 := ViewOf(m), ct;
      Continue(v1, m, pt, 4, c0, c1, shared, shared);
      ForkEntry(v1, m, pt, kernel, i, c0, c1);
      var entry, kernelEntry := m.mem[parent][i], m.mem[kernel][i];
      var sharedSlot := Present(kernelEntry) && FrameOf(kernelEntry) == FrameOf(entry);
      if Present(entry) && !sharedSlot {
        StillEmpty(v1, v2, pt, i, [], c0, c1);
        assert [] + [i] == [i];
        var ok;
        ok, ct := CopySubtree(m, FrameOf(entry), 3, [i], r.value, pt.kids[i], c1, shared);
        if !ok { return None, ct; }
        CopiedStep(v1, v2, ViewOf(m), pt, i, [], c0, c1, ct, shared);
      } else {
        UptoSkip(pt, i);
      }
      i := i + 1;
    }
    UptoAll(pt, 512) by { SlotsBounded(v1.mem, pt, shared); }
    ForkDone(v0, v1, m, pt, c0, ct, kernel);
  }

  /** Right after the child's root is made. */
  lemma ForkStart(v0: View, m: Machine, pt: Node, c0: Node, kernel: nat)
    requires Ready(m) && SpaceIn(v0, pt, kernel) && v0.live !! v0.available && kernel !in v0.live
    requires kernel !in v0.available
    requires c0 == Table(c0.frame, map[]) && Space(m, c0, kernel) && c0.frame in v0.available
    requires m.live == v0.live + {c0.frame} && SameOutside(v0.mem, m.mem, {c0.frame})
    ensures SpaceIn(ViewOf(m), pt, kernel) && pt.Table? && FramesOf(pt) <= v0.live && FramesOf(c0) == {c0.frame}
    ensures FramesOf(pt) !! FramesOf(c0) && m.mem[kernel] == v0.mem[kernel] && m.live !! m.Available()
    ensures KernelSlots(m.mem, kernel) == KernelSlots(v0.mem, kernel) && SpaceIn(ViewOf(m), c0, kernel)
    ensures kernel !in m.live && kernel !in m.Available() && c0.frame in TablesOf(c0)
    ensures forall q :: Source(pt, [], q).Some? ==> Lookup(c0, q).None?
    ensures Copied(ViewOf(m), ViewOf(m), Upto(pt, 0), [], c0, c0, KernelSlots(v0.mem, kernel))
  {
    SpaceStart(m, c0, kernel);
    Frames4(v0, pt, KernelSlots(v0.mem, kernel));
    TablesInFrames(pt);
    hide Inv, Rep, Proper, Deep, Copied;
    hide Source;
    SpaceKept(v0, ViewOf(m), pt, kernel, {c0.frame});
    CopiedNone(ViewOf(m), pt, [], c0, KernelSlots(v0.mem, kernel));
  }

  /** The test for shared slots picks out exactly the parent's own children. */
  lemma ForkEntry(v1: View, m: Machine, pt: Node, kernel: nat, i: nat, c0: Node, c: Node)
    requires Ready(m) && i < 512 && SpaceIn(v1, pt, kernel) && Held(m, pt, 4, KernelSlots(v1.mem, kernel)) && pt.Table?
    requires Grown(v1, ViewOf(m), c0, c, KernelSlots(v1.mem, kernel)) && SpaceIn(v1, c0, kernel)
    requires kernel !in v1.live && kernel !in v1.available && FramesOf(pt) !! FramesOf(c0) && v1.live !! v1.available
    ensures pt.frame < |m.mem| && |m.mem[pt.frame]| == 512 && kernel < |m.mem| && |m.mem[kernel]| == 512
    ensures var entry, k := m.mem[pt.frame][i], m.mem[kernel][i];
            && (i in pt.kids <==> Present(entry) && !(Present(k) && FrameOf(k) == FrameOf(entry)))
            && (i in pt.kids ==>
                  && FrameOf(entry) == pt.kids[i].frame && Held(m, pt.kids[i], 3, {})
                  && i !in KernelSlots(v1.mem, kernel)
                  && FramesOf(pt.kids[i]) <= FramesOf(pt))
  {
    hide Inv, Proper, FramesOf, TablesOf, Present, FrameOf, Deep, Rep;
    assert m.mem[kernel] == v1.mem[kernel] && m.mem[pt.frame] == v1.mem[pt.frame] by {
      ForkRows(v1, m, pt, kernel, c0, c);
    }
    if i in KernelSlots(v1.mem, kernel) {
      SharedNoKid(m.mem, pt, i, KernelSlots(v1.mem, kernel));
    } else {
      NextEntry(m, pt, 4, i, KernelSlots(v1.mem, kernel));
    }
  }

  lemma SharedNoKid(mem: Memory, pt: Node, i: nat, shared: set<nat>)
    requires pt.Table? && Rep(mem, pt, shared) && i in shared
    ensures i !in pt.kids
  {
  }

  lemma ForkRows(v1: View, m: Machine, pt: Node, kernel: nat, c0: Node, c: Node)
    requires SpaceIn(v1, c0, kernel) && SpaceIn(v1, pt, kernel)
    requires Grown(v1, ViewOf(m), c0, c, KernelSlots(v1.mem, kernel))
    requires kernel !in v1.live && kernel !in v1.available && FramesOf(pt) !! FramesOf(c0) && v1.live !! v1.available
    ensures |m.mem| == |v1.mem| && m.mem[kernel] == v1.mem[kernel] && m.mem[pt.frame] == v1.mem[pt.frame]
  {
    hide Rep, Proper, Deep, FramesOf, TablesOf, KernelSlots;
    TablesInFrames(c0);
    RootIn(pt);
  }

  lemma ForkDone(v0: View, v1: View, m: Machine, pt: Node, c0: Node, ct: Node, kernel: nat)
    requires Ready(m) && kernel !in m.usable && SpaceIn(v1, pt, kernel) && SpaceIn(v1, c0, kernel)
    requires FramesOf(c0) == {c0.frame} && c0.frame in v0.available && v0.live !! v0.available
    requires FramesOf(pt) <= v0.live && kernel !in v1.live && kernel !in v1.available
    requires v1.live == v0.live + {c0.frame} && v1.available == v0.available - {c0.frame}
    requires SameOutside(v0.mem, v1.mem, {c0.frame}) && FramesOf(pt) !! FramesOf(c0)
    requires c0 == Table(c0.frame, map[]) && Copied(v1, ViewOf(m), pt, [], c0, ct, KernelSlots(v1.mem, kernel))
    ensures Space(m, pt, kernel) && Space(m, ct, kernel) && Twin(m.mem, pt, ct) && ct.frame == c0.frame
    ensures FramesOf(ct) <= v0.available && m.live == v0.live + FramesOf(ct)
    ensures m.Available() == v0.available - FramesOf(ct) && SameOutside(v0.mem, m.mem, FramesOf(ct))
  {
    hide Inv, Rep, Proper, Deep, FramesOf, TablesOf, Source, AllCopied, Space, Lookup;
    ForkFrames(v0, v1, ViewOf(m), pt, c0, ct, KernelSlots(v1.mem, kernel));
    ForkSpaces(v1, m, pt, c0, ct, kernel);
    ForkTwin(v1, ViewOf(m), pt, c0, ct, KernelSlots(v1.mem, kernel));
  }

  lemma ForkFrames(v0: View, v1: View, v: View, pt: Node, c0: Node, ct: Node, shared: set<nat>)
    requires FramesOf(c0) == {c0.frame} && c0.frame in v0.available && v0.live !! v0.available
    requires FramesOf(pt) <= v0.live
    requires v1.live == v0.live + {c0.frame} && v1.available == v0.available - {c0.frame}
    requires SameOutside(v0.mem, v1.mem, {c0.frame}) && Grown(v1, v, c0, ct, shared)
    ensures FramesOf(ct) <= v0.available && v.live == v0.live + FramesOf(ct) && FramesOf(pt) !! FramesOf(ct)
    ensures v.available == v0.available - FramesOf(ct) && SameOutside(v0.mem, v.mem, FramesOf(ct))
  {
    hide HeldIn, FramesOf, TablesOf;
    TablesInFrames(c0);
  }

  lemma ForkSpaces(v1: View, m: Machine, pt: Node, c0: Node, ct: Node, kernel: nat)
    requires Ready(m) && kernel !in m.usable && SpaceIn(v1, pt, kernel) && SpaceIn(v1, c0, kernel)
    requires Grown(v1, ViewOf(m), c0, ct, KernelSlots(v1.mem, kernel)) && FramesOf(pt) !! FramesOf(c0)
    requires kernel !in v1.live && kernel !in v1.available && v1.live !! v1.available
    ensures Space(m, pt, kernel) && Space(m, ct, kernel)
  {
    hide Inv, Rep, Proper, Deep, FramesOf, TablesOf;
    var v := ViewOf(m);
    TablesInFrames(c0);
    TablesInFrames(pt);
    SpaceView(m, pt, kernel);
    SpaceView(m, ct, kernel);
    SpaceKept(v1, v, pt, kernel, TablesOf(c0) + Taken(v1, v));
    assert KernelSlots(v.mem, kernel) == KernelSlots(v1.mem, kernel);
    Root4(v, ct, KernelSlots(v1.mem, kernel));
  }

  lemma ForkTwin(v1: View, v: View, pt: Node, c0: Node, ct: Node, shared: set<nat>)
    requires c0 == Table(c0.frame, map[]) && Grown(v1, v, c0, ct, shared) && AllCopied(v1, v, pt, [], c0, ct)
    requires FramesOf(pt) <= v1.live && FramesOf(pt) !! FramesOf(c0) && FramesOf(pt) !! FramesOf(ct)
    ensures Twin(v.mem, pt, ct)
  {
    hide HeldIn, FramesOf, TablesOf;
    TablesInFrames(c0);
    forall q ensures TwinAt(v.mem, Lookup(pt, q), Lookup(ct, q)) {
      assert CopiedAt(v1, v, Source(pt, [], q), c0, ct, q);
      assert q[0..] == q;
      if Lookup(pt, q).Some? { LookupInFrames(pt, q); }
    }
  }
}
