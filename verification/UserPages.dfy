/** Single user pages of an address space: mapped zeroed and with rollback, or unmapped and given back. */
module UserPages {
  import opened Basics
  import opened Frames
  import opened PageTables
  import opened AddressSpaces
  import opened Mappings

  predicate UserPath(path: seq<nat>) {
    |path| == 4 && forall k :: 0 <= k < 4 ==> path[k] < 512
  }

  /** `path` is one of the space's own: its root slot is not the kernel's. */
  ghost predicate Private(mem: Memory, kernel: nat, path: seq<nat>) {
    UserPath(path) && kernel < |mem| && |mem[kernel]| == 512 && path[0] !in KernelSlots(mem, kernel)
  }

  /** The space `t`, in a view. */
  ghost predicate SpaceIn(v: View, t: Node, kernel: nat) {
    && kernel < |v.mem| && |v.mem[kernel]| == 512 && HeldIn(v, t, 4, KernelSlots(v.mem, kernel))
    && t.frame < |v.mem| && |v.mem[t.frame]| == 512
    && (forall i :: i in KernelSlots(v.mem, kernel) ==> v.mem[t.frame][i] == v.mem[kernel][i])
  }

  lemma SpaceView(m: Machine, t: Node, kernel: nat)
    requires Ready(m) && kernel !in m.usable
    ensures Space(m, t, kernel) <==> SpaceIn(ViewOf(m), t, kernel)
    ensures kernel !in m.live && kernel !in m.Available() && m.live !! m.Available() && Paged(m.mem)
    ensures forall f :: f in m.live || f in m.Available() ==> f < |m.mem|
  {
    LiveUsable(m);
    hide Inv, KernelSlots, FramesOf, Proper, Deep, Rep;
    if kernel < |m.mem| && |m.mem[kernel]| == 512 && Held(m, t, 4, KernelSlots(m.mem, kernel)) {
      RepRoot(m.mem, t, KernelSlots(m.mem, kernel));
    }
  }

  lemma SpaceStart(m: Machine, t: Node, kernel: nat)
    requires Ready(m) && Space(m, t, kernel)
    ensures kernel !in m.usable && SpaceIn(ViewOf(m), t, kernel) && Held(m, t, 4, KernelSlots(m.mem, kernel))
    ensures kernel !in m.live && kernel !in m.Available() && m.live !! m.Available() && Paged(m.mem)
    ensures forall f :: f in m.live || f in m.Available() ==> f < |m.mem|
  {
    SpaceView(m, t, kernel);
  }

  lemma LiveUsable(m: Machine)
    requires Ready(m)
    ensures forall x :: x in m.live || x in m.Available() ==> x in m.usable && x < |m.mem|
    ensures m.live !! m.Available() && Paged(m.mem)
  {
  }

  /** Mapping below a private slot leaves an address space, and the kernel's table, in place. */
  lemma SpaceMapped(v0: View, v: View, t: Node, t': Node, path: seq<nat>, r: Option<nat>, kernel: nat)
    requires SpaceIn(v0, t, kernel) && |path| == 4 && Mapped(v0, v, t, t', path, r, KernelSlots(v0.mem, kernel))
    requires kernel !in v0.live && kernel !in v0.available
    ensures SpaceIn(v, t', kernel) && v.mem[kernel] == v0.mem[kernel]
  {
    TablesInFrames(t);
    hide HeldIn, FramesOf, TablesOf, Translates, Lookup;
    assert FramesOf(t) <= v0.live by { Frames4(v0, t, KernelSlots(v0.mem, kernel)); }
    assert KernelSlots(v.mem, kernel) == KernelSlots(v0.mem, kernel);
    assert t'.frame < |v.mem| && |v.mem[t'.frame]| == 512 by { Root4(v, t', KernelSlots(v0.mem, kernel)); }
  }

  lemma Frames4(v: View, t: Node, shared: set<nat>)
    requires HeldIn(v, t, 4, shared)
    ensures FramesOf(t) <= v.live && t.Table? && Proper(t)
  {
  }

  lemma Root4(v: View, t: Node, shared: set<nat>)
    requires HeldIn(v, t, 4, shared)
    ensures t.frame < |v.mem| && |v.mem[t.frame]| == 512
  {
  }

  /** A space survives writes outside its tables and the kernel's. */
  lemma SpaceKept(v0: View, v: View, t: Node, kernel: nat, touched: set<nat>)
    requires SpaceIn(v0, t, kernel) && SameOutside(v0.mem, v.mem, touched) && Paged(v.mem)
    requires touched !! TablesOf(t) && kernel !in touched && FramesOf(t) <= v.live
    ensures SpaceIn(v, t, kernel) && v.mem[kernel] == v0.mem[kernel]
  {
    RootIsTable(t) by { Frames4(v0, t, KernelSlots(v0.mem, kernel)); }
    assert KernelSlots(v.mem, kernel) == KernelSlots(v0.mem, kernel);
    hide FramesOf, TablesOf, Proper, Deep, Rep, KernelSlots;
    RepFrame(v0.mem, v.mem, t, KernelSlots(v0.mem, kernel));
  }

  /** One page of `t` now leads to `r`: all other translations are as before, nothing but the tree's
      tables, frames that were free and the page itself was written, and every frame is accounted for. */
  ghost predicate PageStep(v0: View, v: View, t: Node, t': Node, path: seq<nat>, r: Option<nat>) {
    && Translates(t, t', path, r)
    && v.live + v.available == v0.live + v0.available && v.live - FramesOf(t') == v0.live - FramesOf(t)
    && SameOutside(v0.mem, v.mem, TablesOf(t) + v0.available + Leaf(Lookup(t, path)))
    && TablesOf(t') <= TablesOf(t) + v0.available
  }

  /** Taking a frame, mapping it, and filling it. */
  lemma StepMapped(
    v0: View, v1: View, v2: View, v: View, t: Node, t': Node, path: seq<nat>, leaf: nat, shared: set<nat>)
    requires FramesOf(t) <= v0.live && v0.live !! v0.available && TablesOf(t) <= FramesOf(t)
    requires leaf in v0.available && v1.mem == v0.mem && v1.live == v0.live + {leaf}
    requires v1.available == v0.available - {leaf}
    requires Mapped(v1, v2, t, t', path, Some(leaf), shared) && Lookup(t, path).None?
    requires v.live == v2.live && v.available == v2.available && SameOutside(v2.mem, v.mem, {leaf})
    ensures PageStep(v0, v, t, t', path, Some(leaf)) && leaf !in TablesOf(t') && leaf in v2.live
  {
    hide HeldIn, FramesOf, TablesOf, Translates, Lookup;
  }

  /** Taking a frame, failing to map it, and giving it back. */
  lemma StepFailed(
    v0: View, v1: View, v2: View, v: View, t: Node, t': Node, path: seq<nat>, leaf: nat, shared: set<nat>)
    requires FramesOf(t) <= v0.live && v0.live !! v0.available && TablesOf(t) <= FramesOf(t)
    requires leaf in v0.available && v1.mem == v0.mem && v1.live == v0.live + {leaf}
    requires v1.available == v0.available - {leaf}
    requires Mapped(v1, v2, t, t', path, Lookup(t, path), shared) && Released(v2, v, {leaf})
    ensures PageStep(v0, v, t, t', path, Lookup(t, path)) && leaf !in FramesOf(t') && leaf !in TablesOf(t')
    ensures FramesOf(t') <= v.live
  {
    hide HeldIn, FramesOf, TablesOf, Translates, Lookup, Leaf, SameOutside;
    LeafIn(t, path);
    TablesInFrames(t');
    assert FramesOf(t') == FramesOf(t) + Taken(v1, v2);
    MappedLookup(v1, v2, t, t', path, Lookup(t, path), shared);
    GiveBack(v0, v1, v2, v, FramesOf(t), FramesOf(t'), leaf);
    ReleasedOutside(v2, v, {leaf});
    OutsideTwice(v1.mem, v2.mem, v.mem, TablesOf(t) + Taken(v1, v2), {leaf},
                 TablesOf(t) + v0.available + Leaf(Lookup(t, path)));
  }

  lemma ReleasedOutside(v0: View, v: View, s: set<nat>)
    requires Released(v0, v, s)
    ensures SameOutside(v0.mem, v.mem, s)
  {
  }

  lemma GiveBack(v0: View, v1: View, v2: View, v: View, frames: set<nat>, frames': set<nat>, leaf: nat)
    requires frames <= v0.live && v0.live !! v0.available && leaf in v0.available
    requires v1.live == v0.live + {leaf} && v1.available == v0.available - {leaf} && OnlyTook(v1, v2)
    requires frames' == frames + Taken(v1, v2) && v.live == v2.live - {leaf} && v.available == v2.available + {leaf}
    ensures v.live + v.available == v0.live + v0.available && v.live - frames' == v0.live - frames
    ensures leaf !in frames' && frames' <= v.live
  {
  }

  ghost predicate ZeroAt(mem: Memory, f: nat) {
    f < |mem| && |mem[f]| == 512 && forall i :: 0 <= i < 512 ==> mem[f][i] == 0
  }

  /** A fresh zeroed page at `path`, or failure with the page given back: taken slot, or no frames. */
  method MapActiveUserPage(m: Machine, root: nat, path: seq<nat>, ghost kernel: nat, ghost t: Node)
      returns (ok: bool, ghost t': Node)
    requires Ready(m) && t.frame == root && Space(m, t, kernel) && Private(m.mem, kernel, path)
    modifies m
    ensures Ready(m) && Space(m, t', kernel) && t'.frame == root && m.mem[kernel] == old(m.mem)[kernel]
    ensures PageStep(old(ViewOf(m)), ViewOf(m), t, t', path, Lookup(t', path))
    ensures ok ==> Lookup(t, path).None? && Lookup(t', path).Some? && Lookup(t', path).value in old(m.Available())
    ensures ok ==> ZeroAt(m.mem, Lookup(t', path).value)
    ensures !ok ==> Lookup(t', path) == Lookup(t, path)
    ensures !ok ==> Lookup(t, path).Some? || |m.Available()| <= 1
    ensures |old(m.Available())| <= |m.Available()| + (if ok then 4 else 3)
  {
    hide Inv, Proper, FramesOf, TablesOf, Rep, Deep, Lookup, Translates, Mapped, KernelSlots, PageStep, Space, HeldIn,
      Held;
    hide SpaceIn, Released, SameOutside, ZeroAt;
    SpaceStart(m, t, kernel);
    ghost var v0, shared := ViewOf(m), KernelSlots(m.mem, kernel);
    var leaf := m.AllocateFrame();
    ghost var v1 := ViewOf(m);
    if leaf.None? {
      SpaceView(m, t, kernel);
      NoStep(v0, v1, t, path);
      return false, t;
    }
    Taking(v0, m, t, kernel, leaf.value);
    ok, t' := MapTo(m, root, path, leaf.value, t, shared);
    ghost var v2 := ViewOf(m);
    StillLive(v1, v2, t, t', path, if ok then Some(leaf.value) else Lookup(t, path), shared, leaf.value);
    if ok {
      m.WriteFrame(leaf.value, ZeroWords());
      Zeroed(v2.mem, m.mem, leaf.value);
      AfterFill(v0, v1, v2, m, t, t', path, leaf.value, kernel);
    } else {
      Release(m, leaf.value);
      AfterFail(v0, v1, v2, m, t, t', path, leaf.value, kernel);
    }
  }

  /** A fresh page at `path`, its contents left as they were. A taken slot or a lack of frames aborts. */
  method MapUserPage(m: Machine, root: nat, path: seq<nat>, ghost kernel: nat, ghost t: Node)
      returns (r: Option<nat>, ghost t': Node)
    requires Ready(m) && t.frame == root && Space(m, t, kernel) && Private(m.mem, kernel, path)
    modifies m
    ensures Ready(m)
    ensures r.Some? ==>
              && Space(m, t', kernel) && t'.frame == root && m.mem[kernel] == old(m.mem)[kernel]
              && PageStep(old(ViewOf(m)), ViewOf(m), t, t', path, r) && Lookup(t, path).None? && Lookup(t', path) == r
              && r.value in old(m.Available()) && r.value in m.live
    ensures r.None? ==> Lookup(t, path).Some? || m.Available() == {}
  {
    hide Inv, Proper, FramesOf, TablesOf, Rep, Deep, Lookup, Translates, Mapped, KernelSlots, PageStep, Space, HeldIn,
      Held;
    SpaceStart(m, t, kernel);
    ghost var v0, shared := ViewOf(m), KernelSlots(m.mem, kernel);
    t' := t;
    r := m.AllocateFrame();
    ghost var v1 := ViewOf(m);
    if r.None? { return; }
    Taking(v0, m, t, kernel, r.value);
    var ok;
    ok, t' := MapTo(m, root, path, r.value, t, shared);
    if !ok { return None, t'; }
    StillLive(v1, ViewOf(m), t, t', path, r, shared, r.value);
    AfterFill(v0, v1, ViewOf(m), m, t, t', path, r.value, kernel);
  }

  lemma Zeroed(mem: Memory, mem': Memory, leaf: nat)
    requires leaf < |mem| && mem' == mem[leaf := ZeroWords()]
    ensures SameOutside(mem, mem', {leaf}) && ZeroAt(mem', leaf)
  {
  }

  lemma Taking(v0: View, m: Machine, t: Node, kernel: nat, leaf: nat)
    requires Ready(m) && SpaceIn(v0, t, kernel) && v0.live !! v0.available && leaf in v0.available
    requires ViewOf(m).mem == v0.mem && m.live == v0.live + {leaf} && m.Available() == v0.available - {leaf}
    ensures t.Table? && Held(m, t, 4, KernelSlots(v0.mem, kernel)) && leaf !in FramesOf(t)
    ensures SpaceIn(ViewOf(m), t, kernel) && FramesOf(t) <= v0.live
  {
    hide Inv, Proper, FramesOf, Rep, Deep;
    Frames4(v0, t, KernelSlots(v0.mem, kernel));
  }

  lemma StillLive(
    v1: View, v2: View, t: Node, t': Node, path: seq<nat>, r: Option<nat>, shared: set<nat>, leaf: nat)
    requires Mapped(v1, v2, t, t', path, r, shared) && leaf in v1.live
    ensures leaf in v2.live
  {
  }

  /** After a successful mapping the page is filled. */
  lemma AfterFill(
    v0: View, v1: View, v2: View, m: Machine, t: Node, t': Node, path: seq<nat>, leaf: nat, kernel: nat)
    requires Ready(m) && kernel !in m.usable && SpaceIn(v1, t, kernel) && |path| == 4
    requires FramesOf(t) <= v0.live && v0.live !! v0.available && kernel !in v0.live && kernel !in v0.available
    requires leaf in v0.available && v1.mem == v0.mem
    requires v1.live == v0.live + {leaf} && v1.available == v0.available - {leaf}
    requires Mapped(v1, v2, t, t', path, Some(leaf), KernelSlots(v0.mem, kernel)) && Lookup(t, path).None?
    requires m.live == v2.live && m.Available() == v2.available && SameOutside(v2.mem, m.mem, {leaf})
    ensures PageStep(v0, ViewOf(m), t, t', path, Some(leaf)) && Lookup(t', path) == Some(leaf)
    ensures Space(m, t', kernel) && t'.frame == t.frame && m.mem[kernel] == v0.mem[kernel]
  {
    hide Inv, HeldIn, FramesOf, TablesOf, Translates, Lookup, KernelSlots, Mapped, PageStep;
    TablesInFrames(t);
    SpaceMapped(v1, v2, t, t', path, Some(leaf), kernel);
    MappedLookup(v1, v2, t, t', path, Some(leaf), KernelSlots(v0.mem, kernel));
    StepMapped(v0, v1, v2, ViewOf(m), t, t', path, leaf, KernelSlots(v0.mem, kernel));
    SpaceView(m, t', kernel);
    SpaceKept(v2, ViewOf(m), t', kernel, {leaf});
  }

  /** After a failed one it is given back. */
  lemma AfterFail(
    v0: View, v1: View, v2: View, m: Machine, t: Node, t': Node, path: seq<nat>, leaf: nat, kernel: nat)
    requires Ready(m) && kernel !in m.usable && SpaceIn(v1, t, kernel) && |path| == 4
    requires FramesOf(t) <= v0.live && v0.live !! v0.available && kernel !in v0.live && kernel !in v0.available
    requires leaf in v0.available && v1.mem == v0.mem
    requires v1.live == v0.live + {leaf} && v1.available == v0.available - {leaf}
    requires Mapped(v1, v2, t, t', path, Lookup(t, path), KernelSlots(v0.mem, kernel))
    requires Released(v2, ViewOf(m), {leaf})
    ensures PageStep(v0, ViewOf(m), t, t', path, Lookup(t, path)) && Lookup(t', path) == Lookup(t, path)
    ensures Space(m, t', kernel) && t'.frame == t.frame && m.mem[kernel] == v0.mem[kernel]
    ensures v2.available == {} ==> |m.Available()| <= 1
    ensures |m.Available()| == |v2.available| + 1
  {
    hide Inv, HeldIn, FramesOf, TablesOf, Translates, Lookup, KernelSlots, Mapped, PageStep;
    TablesInFrames(t);
    SpaceMapped(v1, v2, t, t', path, Lookup(t, path), kernel);
    MappedLookup(v1, v2, t, t', path, Lookup(t, path), KernelSlots(v0.mem, kernel));
    StepFailed(v0, v1, v2, ViewOf(m), t, t', path, leaf, KernelSlots(v0.mem, kernel));
    SpaceView(m, t', kernel);
    SpaceKept(v2, ViewOf(m), t', kernel, {leaf});
    assert leaf !in v2.available;
  }

  function ZeroWords(): seq<nat> { seq(512, _ => 0) }

  lemma NoStep(v0: View, v: View, t: Node, path: seq<nat>)
    requires v.live == v0.live && v.available == v0.available && v.mem == v0.mem
    ensures PageStep(v0, v, t, t, path, Lookup(t, path))
  {
  }

  lemma MappedLookup(v0: View, v: View, t: Node, t': Node, path: seq<nat>, r: Option<nat>, shared: set<nat>)
    requires Mapped(v0, v, t, t', path, r, shared)
    ensures Lookup(t', path) == r && FramesOf(t') <= v.live && t'.frame == t.frame && |v.mem| == |v0.mem|
    ensures OnlyTook(v0, v)
  {
  }

  /** Takes the page at `path` away, if any, and gives its frame back; the tables stay for teardown. */
  method UnmapActiveUserPage(m: Machine, root: nat, path: seq<nat>, ghost kernel: nat, ghost t: Node)
      returns (ghost t': Node)
    requires Ready(m) && t.frame == root && Space(m, t, kernel) && Private(m.mem, kernel, path)
    modifies m
    ensures Ready(m) && Space(m, t', kernel) && t'.frame == root && m.mem[kernel] == old(m.mem)[kernel]
    ensures PageStep(old(ViewOf(m)), ViewOf(m), t, t', path, None)
    ensures m.Available() == old(m.Available()) + Leaf(Lookup(t, path))
  {
    hide Inv, Proper, FramesOf, TablesOf, Rep, Deep, Lookup, Translates, Mapped, KernelSlots, PageStep, Space, HeldIn,
      Released;
    SpaceStart(m, t, kernel);
    ghost var v0 := ViewOf(m);
    var page;
    page, t' := UnmapAt(m, root, path, t, KernelSlots(m.mem, kernel));
    ghost var v1 := ViewOf(m);
    Unmapping(v0, v1, t, t', path, kernel);
    if page.Some? {
      Release(m, page.value);
    }
    AfterUnmap(v0, v1, m, t, t', path, kernel);
  }

  lemma Unmapping(v0: View, v1: View, t: Node, t': Node, path: seq<nat>, kernel: nat)
    requires SpaceIn(v0, t, kernel) && Mapped(v0, v1, t, t', path, None, KernelSlots(v0.mem, kernel))
    requires v1.live == v0.live
    ensures Leaf(Lookup(t, path)) <= v1.live && FramesOf(t) <= v0.live
    ensures v1.available == v0.available && FramesOf(t') == FramesOf(t) - Leaf(Lookup(t, path))
    ensures Leaf(Lookup(t, path)) <= FramesOf(t)
    ensures Leaf(Lookup(t, path)) !! TablesOf(t) && Leaf(Lookup(t, path)) !! TablesOf(t')
  {
    hide Rep, FramesOf, TablesOf, Proper, Deep, Translates, Lookup;
    Frames4(v0, t, KernelSlots(v0.mem, kernel));
    LeafIn(t, path);
    if Lookup(t, path).Some? { PageNotTable(t, path); }
  }

  lemma AfterUnmap(v0: View, v1: View, m: Machine, t: Node, t': Node, path: seq<nat>, kernel: nat)
    requires Ready(m) && kernel !in m.usable && SpaceIn(v0, t, kernel) && |path| == 4
    requires kernel !in v0.live && kernel !in v0.available
    requires v1.live == v0.live && Mapped(v0, v1, t, t', path, None, KernelSlots(v0.mem, kernel))
    requires if Lookup(t, path).Some? then Released(v1, ViewOf(m), Leaf(Lookup(t, path))) else ViewOf(m) == v1
    ensures PageStep(v0, ViewOf(m), t, t', path, None) && Space(m, t', kernel) && t'.frame == t.frame
    ensures m.mem[kernel] == v0.mem[kernel] && m.Available() == v0.available + Leaf(Lookup(t, path))
  {
    hide Inv, HeldIn, FramesOf, TablesOf, Translates, Lookup, KernelSlots, Mapped, PageStep;
    Unmapping(v0, v1, t, t', path, kernel);
    SpaceMapped(v0, v1, t, t', path, None, kernel);
    MappedLookup(v0, v1, t, t', path, None, KernelSlots(v0.mem, kernel));
    SpaceView(m, t', kernel);
    SpaceKept(v1, ViewOf(m), t', kernel, Leaf(Lookup(t, path)));
    StepUnmapped(v0, v1, ViewOf(m), t, t', path, KernelSlots(v0.mem, kernel));
  }

  lemma StepUnmapped(v0: View, v1: View, v: View, t: Node, t': Node, path: seq<nat>, shared: set<nat>)
    requires v1.live == v0.live && FramesOf(t) <= v0.live && Mapped(v0, v1, t, t', path, None, shared)
    requires Leaf(Lookup(t, path)) <= FramesOf(t) && FramesOf(t') == FramesOf(t) - Leaf(Lookup(t, path))
    requires v.live == v0.live - Leaf(Lookup(t, path)) && v.available == v0.available + Leaf(Lookup(t, path))
    requires SameOutside(v1.mem, v.mem, Leaf(Lookup(t, path)))
    ensures PageStep(v0, v, t, t', path, None)
  {
    hide HeldIn, FramesOf, TablesOf, Translates, Lookup, Leaf;
  }
}
