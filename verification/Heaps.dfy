/** The program break: exactly the heap pages below it are mapped, across growth, shrinking and rollback. */
module Heaps {
  import opened Basics
  import opened Frames
  import opened PageTables
  import opened AddressSpaces
  import opened UserPages
  import Forks
  import Execs

  const PAGE := 4096
  const HEAP_BASE := 0x7F80_2000_0000
  const HEAP_MAX := 0x7F80_6000_0000
  /** The heap's slot of the root table. */
  const HEAP_SLOT := 255

  function PageUp(x: nat): (y: nat)
    ensures y % PAGE == 0 && x <= y < x + PAGE
  {
    (x + 0xFFF) / PAGE * PAGE
  }

  // --- pages and table indices ---

  /** The four table indices of a page number. */
  function PathOf(page: nat): seq<nat> {
    [page / 512 / 512 / 512, page / 512 / 512 % 512, page / 512 % 512, page % 512]
  }

  function PageOf(path: seq<nat>): nat
    requires |path| == 4
  {
    ((path[0] * 512 + path[1]) * 512 + path[2]) * 512 + path[3]
  }

  lemma PathOfPage(page: nat)
    ensures PageOf(PathOf(page)) == page
  {
    var a, b := page / 512, page / 512 / 512;
    assert b == b / 512 * 512 + b % 512 && a == b * 512 + a % 512 && page == a * 512 + page % 512;
  }

  lemma Digits(a: nat, d: nat)
    requires d < 512
    ensures (a * 512 + d) / 512 == a && (a * 512 + d) % 512 == d
  {
  }

  lemma PageOfPath(path: seq<nat>)
    requires UserPath(path)
    ensures PathOf(PageOf(path)) == path
  {
    Digits(path[0], path[1]);
    Digits(path[0] * 512 + path[1], path[2]);
    Digits((path[0] * 512 + path[1]) * 512 + path[2], path[3]);
  }

  /** A heap page has its own indices, in the heap's slot. */
  lemma HeapPath(page: nat)
    requires HEAP_BASE / PAGE <= page < HEAP_MAX / PAGE
    ensures UserPath(PathOf(page)) && PathOf(page)[0] == HEAP_SLOT && PageOf(PathOf(page)) == page
  {
    PathOfPage(page);
    assert page / 512 / 512 / 512 == 255;
  }

  // --- the invariant ---

  ghost predicate InPages(q: seq<nat>, lo: nat, hi: nat) {
    UserPath(q) && lo <= PageOf(q) < hi
  }

  /** Within the heap's range, exactly the pages below the break are mapped. */
  ghost predicate HeapMapped(t: Node, brk: nat) {
    && HEAP_BASE <= brk <= HEAP_MAX
    && forall q :: InPages(q, HEAP_BASE / PAGE, HEAP_MAX / PAGE) ==>
         (Lookup(t, q).Some? <==> PageOf(q) < PageUp(brk) / PAGE)
  }

  ghost predicate SamePage(v0: View, v: View, t: Node, t': Node, q: seq<nat>) {
    && Lookup(t', q) == Lookup(t, q)
    && (Lookup(t, q).Some? ==>
          && Lookup(t, q).value < |v0.mem| && |v.mem| == |v0.mem|
          && v.mem[Lookup(t, q).value] == v0.mem[Lookup(t, q).value])
  }

  /** Pages `[lo, hi)` are now mapped and zero, or unmapped; every other page is as it was, contents
      included; and every frame is accounted for. */
  ghost predicate Resized(v0: View, v: View, t: Node, t': Node, lo: nat, hi: nat, up: bool) {
    && (forall q :: InPages(q, lo, hi) ==>
          if up then Lookup(t', q).Some? && ZeroAt(v.mem, Lookup(t', q).value) else Lookup(t', q).None?)
    && (forall q :: !InPages(q, lo, hi) ==> SamePage(v0, v, t, t', q))
    && v.live + v.available == v0.live + v0.available && v.live - FramesOf(t') == v0.live - FramesOf(t)
  }

  lemma NotResized(v: View, t: Node, lo: nat, up: bool, kernel: nat)
    requires SpaceIn(v, t, kernel)
    ensures Resized(v, v, t, t, lo, lo, up)
  {
    forall q ensures SamePage(v, v, t, t, q) { PageInMemory(v, t, q, kernel); }
  }

  lemma PageInMemory(v: View, t: Node, q: seq<nat>, kernel: nat)
    requires SpaceIn(v, t, kernel)
    ensures Lookup(t, q).Some? ==> Lookup(t, q).value < |v.mem|
  {
    if Lookup(t, q).Some? {
      LookupInFrames(t, q);
      FramesInMemory(v.mem, t, KernelSlots(v.mem, kernel));
    }
  }

  /** Changing one page changes no other page, nor its contents. */
  lemma StepKeeps(v0: View, v: View, t: Node, t': Node, path: seq<nat>, r: Option<nat>, q: seq<nat>, kernel: nat)
    requires SpaceIn(v0, t, kernel) && v0.live !! v0.available && PageStep(v0, v, t, t', path, r) && q != path
    ensures SamePage(v0, v, t, t', q)
  {
    assert Lookup(t', q) == Lookup(t, q);
    if Lookup(t, q).Some? {
      PageNotTable(t, q);
      LookupInFrames(t, q);
      PageInMemory(v0, t, q, kernel);
      if Lookup(t, path) == Lookup(t, q) { LookupInjective(t, path, q); }
    }
  }

  /** One page more at the top of a growing range. */
  lemma GrowStep(v0: View, v1: View, v: View, t: Node, t1: Node, t': Node, lo: nat, hi: nat, kernel: nat)
    requires Resized(v0, v1, t, t1, lo, hi, true) && lo <= hi && SpaceIn(v1, t1, kernel) && v1.live !! v1.available
    requires HEAP_BASE / PAGE <= hi < HEAP_MAX / PAGE
    requires PageStep(v1, v, t1, t', PathOf(hi), Lookup(t', PathOf(hi)))
    requires Lookup(t', PathOf(hi)).Some? && ZeroAt(v.mem, Lookup(t', PathOf(hi)).value)
    ensures Resized(v0, v, t, t', lo, hi + 1, true)
  {
    hide SpaceIn, PageStep, ZeroAt, PathOf, Lookup, FramesOf, SamePage;
    HeapPath(hi);
    forall q | InPages(q, lo, hi + 1) ensures Lookup(t', q).Some? && ZeroAt(v.mem, Lookup(t', q).value) {
      PageOfPath(q);
      if q != PathOf(hi) {
        assert InPages(q, lo, hi);
        StepKeeps(v1, v, t1, t', PathOf(hi), Lookup(t', PathOf(hi)), q, kernel);
        ZeroKept(v1, v, t1, t', q);
      }
    }
    forall q | !InPages(q, lo, hi + 1) ensures SamePage(v0, v, t, t', q) {
      assert !InPages(q, lo, hi) && q != PathOf(hi);
      StepKeeps(v1, v, t1, t', PathOf(hi), Lookup(t', PathOf(hi)), q, kernel);
      SameTwice(v0, v1, v, t, t1, t', q);
    }
    StepAccounts(v1, v, t1, t', PathOf(hi), Lookup(t', PathOf(hi)));
  }

  lemma ZeroKept(v1: View, v: View, t1: Node, t': Node, q: seq<nat>)
    requires SamePage(v1, v, t1, t', q) && Lookup(t1, q).Some? && ZeroAt(v1.mem, Lookup(t1, q).value)
    ensures Lookup(t', q).Some? && ZeroAt(v.mem, Lookup(t', q).value)
  {
  }

  lemma SameTwice(v0: View, v1: View, v: View, t: Node, t1: Node, t': Node, q: seq<nat>)
    requires SamePage(v0, v1, t, t1, q) && SamePage(v1, v, t1, t', q)
    ensures SamePage(v0, v, t, t', q)
  {
  }

  lemma StepAccounts(v0: View, v: View, t: Node, t': Node, path: seq<nat>, r: Option<nat>)
    requires PageStep(v0, v, t, t', path, r)
    ensures v.live + v.available == v0.live + v0.available && v.live - FramesOf(t') == v0.live - FramesOf(t)
  {
  }

  /** One page more at the top of a range being unmapped. */
  lemma ShrinkStep(v0: View, v1: View, v: View, t: Node, t1: Node, t': Node, lo: nat, hi: nat, kernel: nat)
    requires Resized(v0, v1, t, t1, lo, hi, false) && lo <= hi && SpaceIn(v1, t1, kernel) && v1.live !! v1.available
    requires HEAP_BASE / PAGE <= hi < HEAP_MAX / PAGE && PageStep(v1, v, t1, t', PathOf(hi), None)
    ensures Resized(v0, v, t, t', lo, hi + 1, false)
  {
    hide SpaceIn, PageStep, PathOf, Lookup, FramesOf, SamePage;
    HeapPath(hi);
    assert Lookup(t', PathOf(hi)) == None by { StepResult(v1, v, t1, t', PathOf(hi), None); }
    forall q | InPages(q, lo, hi + 1) ensures Lookup(t', q).None? {
      PageOfPath(q);
      if q != PathOf(hi) {
        assert InPages(q, lo, hi);
        StepKeeps(v1, v, t1, t', PathOf(hi), None, q, kernel);
        SameLookup(v1, v, t1, t', q);
      }
    }
    forall q | !InPages(q, lo, hi + 1) ensures SamePage(v0, v, t, t', q) {
      assert !InPages(q, lo, hi) && q != PathOf(hi);
      StepKeeps(v1, v, t1, t', PathOf(hi), None, q, kernel);
      SameTwice(v0, v1, v, t, t1, t', q);
    }
    StepAccounts(v1, v, t1, t', PathOf(hi), None);
  }

  lemma SameLookup(v1: View, v: View, t1: Node, t': Node, q: seq<nat>)
    requires SamePage(v1, v, t1, t', q)
    ensures Lookup(t', q) == Lookup(t1, q)
  {
  }

  lemma StepResult(v0: View, v: View, t: Node, t': Node, path: seq<nat>, r: Option<nat>)
    requires PageStep(v0, v, t, t', path, r)
    ensures Lookup(t', path) == r
  {
  }

  /** A failed mapping leaves the pages as they were. */
  lemma FailStep(v0: View, v1: View, v: View, t: Node, t1: Node, t': Node, lo: nat, hi: nat, kernel: nat)
    requires Resized(v0, v1, t, t1, lo, hi, true) && SpaceIn(v1, t1, kernel) && v1.live !! v1.available
    requires HEAP_BASE / PAGE <= hi < HEAP_MAX / PAGE && Lookup(t1, PathOf(hi)).None?
    requires PageStep(v1, v, t1, t', PathOf(hi), Lookup(t1, PathOf(hi)))
    ensures Resized(v0, v, t, t', lo, hi, true)
  {
    hide SpaceIn, PageStep, PathOf, Lookup, FramesOf, SamePage, ZeroAt;
    HeapPath(hi);
    forall q ensures SamePage(v1, v, t1, t', q) {
      if q == PathOf(hi) {
        StepResult(v1, v, t1, t', q, Lookup(t1, q));
        SameNone(v1, v, t1, t', q);
      } else {
        StepKeeps(v1, v, t1, t', PathOf(hi), Lookup(t1, PathOf(hi)), q, kernel);
      }
    }
    forall q | InPages(q, lo, hi) ensures Lookup(t', q).Some? && ZeroAt(v.mem, Lookup(t', q).value) {
      ZeroKept(v1, v, t1, t', q);
    }
    forall q | !InPages(q, lo, hi) ensures SamePage(v0, v, t, t', q) {
      SameTwice(v0, v1, v, t, t1, t', q);
    }
    StepAccounts(v1, v, t1, t', PathOf(hi), Lookup(t1, PathOf(hi)));
  }

  lemma SameNone(v1: View, v: View, t1: Node, t': Node, q: seq<nat>)
    requires Lookup(t1, q).None? && Lookup(t', q).None?
    ensures SamePage(v1, v, t1, t', q)
  {
  }

  /** Growing and then unmapping the same pages is doing nothing. */
  lemma RolledBack(v0: View, v1: View, v: View, t: Node, t1: Node, t': Node, lo: nat, hi: nat)
    requires Resized(v0, v1, t, t1, lo, hi, true) && Resized(v1, v, t1, t', lo, hi, false)
    requires forall q :: InPages(q, lo, hi) ==> Lookup(t, q).None?
    ensures Resized(v0, v, t, t', lo, lo, true)
  {
    hide Lookup, FramesOf, SamePage, ZeroAt;
    forall q ensures SamePage(v0, v, t, t', q) {
      if InPages(q, lo, hi) {
        SameNone(v0, v, t, t', q);
      } else {
        SameTwice(v0, v1, v, t, t1, t', q);
      }
    }
  }

  // --- the system call ---

  class Process {
    const root: nat
    /** End of the heap. */
    var brk: nat
  }

  /** The process runs in space `t`, whose heap is mapped up to its break. */
  ghost predicate Running(m: Machine, p: Process, kernel: nat, t: Node)
    reads m, p
  {
    && Ready(m) && t.frame == p.root && Space(m, t, kernel) && HeapMapped(t, p.brk)
    && HEAP_SLOT !in KernelSlots(m.mem, kernel)
  }

  /** Unmaps the pages at addresses `[from, to)`. */
  method UnmapPages(m: Machine, root: nat, from: nat, to: nat, ghost kernel: nat, ghost t: Node)
      returns (ghost t': Node)
    requires Ready(m) && t.frame == root && Space(m, t, kernel) && HEAP_SLOT !in KernelSlots(m.mem, kernel)
    requires from % PAGE == 0 && to % PAGE == 0 && HEAP_BASE <= from <= to <= HEAP_MAX
    modifies m
    ensures Ready(m) && t'.frame == root && Space(m, t', kernel) && HEAP_SLOT !in KernelSlots(m.mem, kernel)
    ensures Resized(old(ViewOf(m)), ViewOf(m), t, t', from / PAGE, to / PAGE, false)
  {
    hide Inv, Space, SpaceIn, FramesOf, TablesOf, Lookup, PageStep, Resized, Held, PathOf;
    SpaceStart(m, t, kernel);
    KernelRow(m, t, kernel);
    ghost var v0, row := ViewOf(m), m.mem[kernel];
    NotResized(v0, t, from / PAGE, false, kernel);
    t' := t;
    var va := from;
    while va < to
      invariant from <= va <= to && va % PAGE == 0
      invariant Ready(m) && t'.frame == root && Space(m, t', kernel) && kernel < |m.mem| && m.mem[kernel] == row
      invariant Resized(v0, ViewOf(m), t, t', from / PAGE, va / PAGE, false)
    {
      ghost var v1, t1 := ViewOf(m), t';
      SpaceStart(m, t1, kernel);
      HeapPath(va / PAGE);
      t' := UnmapActiveUserPage(m, root, PathOf(va / PAGE), kernel, t1);
      KernelRow(m, t', kernel);
      ShrinkStep(v0, v1, ViewOf(m), t, t1, t', from / PAGE, va / PAGE, kernel);
      va := va + PAGE;
    }
  }

  /** One more page of a growing range. */
  method MapOne(m: Machine, root: nat, va: nat, ghost v0: View, ghost lo: nat, ghost at: nat, ghost hi: nat,
                ghost kernel: nat, ghost t: Node, ghost t1: Node)
      returns (ok: bool, ghost t': Node)
    requires Ready(m) && t1.frame == root && Space(m, t1, kernel) && HEAP_SLOT !in KernelSlots(m.mem, kernel)
    requires va == at * PAGE && HEAP_BASE / PAGE <= lo <= at < hi <= HEAP_MAX / PAGE
    requires Resized(v0, ViewOf(m), t, t1, lo, at, true)
    requires forall q :: InPages(q, lo, hi) ==> Lookup(t, q).None?
    modifies m
    ensures Ready(m) && t'.frame == root && Space(m, t', kernel) && m.mem[kernel] == old(m.mem)[kernel]
    ensures Resized(v0, ViewOf(m), t, t', lo, if ok then at + 1 else at, true)
    ensures |old(m.Available())| <= |m.Available()| + (if ok then 4 else 3) && (!ok ==> |m.Available()| <= 1)
  {
    hide Inv, Space, SpaceIn, FramesOf, TablesOf, Lookup, PageStep, Resized, Held, PathOf, ZeroAt, InPages;
    ghost var v1 := ViewOf(m);
    SpaceStart(m, t1, kernel);
    HeapPath(at);
    StillUnmapped(v0, v1, t, t1, lo, at, hi);
    ok, t' := MapActiveUserPage(m, root, PathOf(va / PAGE), kernel, t1);
    if ok {
      GrowStep(v0, v1, ViewOf(m), t, t1, t', lo, at, kernel);
    } else {
      FailStep(v0, v1, ViewOf(m), t, t1, t', lo, at, kernel);
    }
  }

  /** Maps zeroed pages at `[from, to)`, or none of them. */
  method MapPages(m: Machine, root: nat, from: nat, to: nat, ghost kernel: nat, ghost t: Node)
      returns (ok: bool, ghost t': Node)
    requires Ready(m) && t.frame == root && Space(m, t, kernel) && HEAP_SLOT !in KernelSlots(m.mem, kernel)
    requires from % PAGE == 0 && to % PAGE == 0 && HEAP_BASE <= from <= to <= HEAP_MAX
    requires forall q :: InPages(q, from / PAGE, to / PAGE) ==> Lookup(t, q).None?
    modifies m
    ensures Ready(m) && t'.frame == root && Space(m, t', kernel) && HEAP_SLOT !in KernelSlots(m.mem, kernel)
    ensures Resized(old(ViewOf(m)), ViewOf(m), t, t', from / PAGE, if ok then to / PAGE else from / PAGE, true)
    ensures !ok ==> |old(m.Available())| <= (to - from) / PAGE * 4
  {
    hide Inv, Space, SpaceIn, FramesOf, TablesOf, Lookup, PageStep, Resized, Held, PathOf, ZeroAt, InPages,
      KernelSlots;
    SpaceStart(m, t, kernel);
    KernelRow(m, t, kernel);
    ghost var v0, row, lo, hi := ViewOf(m), m.mem[kernel], from / PAGE, to / PAGE;
    NotResized(v0, t, lo, true, kernel);
    t' := t;
    var va := from;
    ghost var at := lo;
    while va < to
      invariant lo <= at <= hi && va == at * PAGE
      invariant Ready(m) && t'.frame == root && Space(m, t', kernel) && kernel < |m.mem| && m.mem[kernel] == row
      invariant Resized(v0, ViewOf(m), t, t', lo, at, true)
      invariant |v0.available| <= |m.Available()| + (at - lo) * 4
    {
      SameSlots(v0.mem, m.mem, kernel);
      ok, t' := MapOne(m, root, va, v0, lo, at, hi, kernel, t, t');
      KernelRow(m, t', kernel);
      if !ok {
        ghost var v2, t2 := ViewOf(m), t';
        SameSlots(v0.mem, m.mem, kernel);
        t' := UnmapPages(m, root, from, va, kernel, t2);
        NarrowRange(t, lo, at, hi);
        RolledBack(v0, v2, ViewOf(m), t, t2, t', lo, at);
        return;
      }
      va, at := va + PAGE, at + 1;
    }
    SameSlots(v0.mem, m.mem, kernel);
    ok := true;
  }

  lemma SameSlots(mem: Memory, mem': Memory, kernel: nat)
    requires kernel < |mem| && |mem[kernel]| == 512 && kernel < |mem'| && mem'[kernel] == mem[kernel]
    ensures KernelSlots(mem', kernel) == KernelSlots(mem, kernel)
  {
  }

  lemma NarrowRange(t: Node, lo: nat, at: nat, hi: nat)
    requires at <= hi && forall q :: InPages(q, lo, hi) ==> Lookup(t, q).None?
    ensures forall q :: InPages(q, lo, at) ==> Lookup(t, q).None?
  {
  }

  lemma StillUnmapped(v0: View, v1: View, t: Node, t1: Node, lo: nat, at: nat, hi: nat)
    requires Resized(v0, v1, t, t1, lo, at, true) && lo <= at < hi && HEAP_BASE / PAGE <= at < HEAP_MAX / PAGE
    requires forall q :: InPages(q, lo, hi) ==> Lookup(t, q).None?
    ensures Lookup(t1, PathOf(at)).None? && forall q :: InPages(q, lo, at) ==> Lookup(t, q).None?
  {
    hide Lookup, PathOf, ZeroAt, FramesOf;
    HeapPath(at);
    assert InPages(PathOf(at), lo, hi) && !InPages(PathOf(at), lo, at);
    assert SamePage(v0, v1, t, t1, PathOf(at));
    assert forall q :: InPages(q, lo, at) ==> InPages(q, lo, hi);
  }

  lemma TopPage(brk: nat)
    requires HEAP_BASE <= brk <= HEAP_MAX
    ensures HEAP_BASE <= PageUp(brk) <= HEAP_MAX
  {
  }

  lemma PageUpMonotone(a: nat, b: nat)
    requires a <= b
    ensures PageUp(a) <= PageUp(b)
  {
  }

  lemma Bounds(t: Node, brk: nat)
    requires HeapMapped(t, brk)
    ensures HEAP_BASE <= brk <= HEAP_MAX
  {
  }

  /** Nothing is mapped above the break. */
  lemma AboveBreak(t: Node, brk: nat, addr: nat)
    requires HeapMapped(t, brk) && brk <= addr <= HEAP_MAX
    ensures forall q :: InPages(q, PageUp(brk) / PAGE, PageUp(addr) / PAGE) ==> Lookup(t, q).None?
  {
    TopPage(brk);
    TopPage(addr);
    forall q | InPages(q, PageUp(brk) / PAGE, PageUp(addr) / PAGE) ensures Lookup(t, q).None? {
      assert InPages(q, HEAP_BASE / PAGE, HEAP_MAX / PAGE);
    }
  }

  lemma EmptyRange(v0: View, v: View, t: Node, t': Node, lo: nat)
    requires Resized(v0, v, t, t', lo, lo, true)
    ensures Resized(v0, v, t, t', lo, lo, false)
  {
  }

  lemma KeepsHeap(v0: View, v: View, t: Node, t': Node, brk: nat)
    requires HeapMapped(t, brk) && Resized(v0, v, t, t', PageUp(brk) / PAGE, PageUp(brk) / PAGE, true)
    ensures HeapMapped(t', brk)
  {
    hide Lookup, FramesOf, ZeroAt, PageUp;
    forall q ensures Lookup(t', q) == Lookup(t, q) {
      assert SamePage(v0, v, t, t', q);
    }
  }

  lemma GrowsHeap(v0: View, v: View, t: Node, t': Node, brk: nat, addr: nat)
    requires HeapMapped(t, brk) && brk <= addr <= HEAP_MAX
    requires Resized(v0, v, t, t', PageUp(brk) / PAGE, PageUp(addr) / PAGE, true)
    ensures HeapMapped(t', addr)
  {
    hide Lookup, FramesOf, ZeroAt;
    PageUpMonotone(brk, addr);
    forall q | InPages(q, HEAP_BASE / PAGE, HEAP_MAX / PAGE)
      ensures Lookup(t', q).Some? <==> PageOf(q) < PageUp(addr) / PAGE
    {
      if !InPages(q, PageUp(brk) / PAGE, PageUp(addr) / PAGE) { assert SamePage(v0, v, t, t', q); }
    }
  }

  lemma ShrinksHeap(v0: View, v: View, t: Node, t': Node, brk: nat, addr: nat)
    requires HeapMapped(t, brk) && HEAP_BASE <= addr <= brk
    requires Resized(v0, v, t, t', PageUp(addr) / PAGE, PageUp(brk) / PAGE, false)
    ensures HeapMapped(t', addr)
  {
    hide Lookup, FramesOf, ZeroAt;
    PageUpMonotone(addr, brk);
    forall q | InPages(q, HEAP_BASE / PAGE, HEAP_MAX / PAGE)
      ensures Lookup(t', q).Some? <==> PageOf(q) < PageUp(addr) / PAGE
    {
      if !InPages(q, PageUp(addr) / PAGE, PageUp(brk) / PAGE) { assert SamePage(v0, v, t, t', q); }
    }
  }

  /** Moves the break and returns it; a request outside the heap, or one that cannot be met, moves nothing. */
  method SysBrk(m: Machine, p: Process, addr: nat, ghost kernel: nat, ghost t: Node) returns (r: nat, ghost t': Node)
    requires Running(m, p, kernel, t)
    modifies m, p
    ensures Running(m, p, kernel, t') && r == p.brk && (r == addr || r == old(p.brk))
    ensures !(HEAP_BASE <= addr <= HEAP_MAX) ==> r == old(p.brk) && t' == t && ViewOf(m) == old(ViewOf(m))
    ensures HEAP_BASE <= addr <= old(p.brk) ==> r == addr
    ensures old(p.brk) < addr <= HEAP_MAX && r != addr ==>
              |old(m.Available())| <= (PageUp(addr) - PageUp(old(p.brk))) / PAGE * 4
    ensures old(p.brk) <= r ==>
              Resized(old(ViewOf(m)), ViewOf(m), t, t', PageUp(old(p.brk)) / PAGE, PageUp(r) / PAGE, true)
    ensures r <= old(p.brk) ==>
              Resized(old(ViewOf(m)), ViewOf(m), t, t', PageUp(r) / PAGE, PageUp(old(p.brk)) / PAGE, false)
  {
    hide Inv, Space, SpaceIn, FramesOf, TablesOf, Lookup, Resized, PathOf, ZeroAt, HeapMapped, Held;
    ghost var v0 := ViewOf(m);
    var cur := p.brk;
    Bounds(t, cur);
    SpaceStart(m, t, kernel);
    if !(HEAP_BASE <= addr <= HEAP_MAX) {
      NotResized(v0, t, PageUp(cur) / PAGE, true, kernel);
      NotResized(v0, t, PageUp(cur) / PAGE, false, kernel);
      return cur, t;
    }
    TopPage(cur);
    TopPage(addr);
    hide PageUp;
    if addr > cur {
      PageUpMonotone(cur, addr);
      AboveBreak(t, cur, addr);
      var ok;
      ok, t' := MapPages(m, p.root, PageUp(cur), PageUp(addr), kernel, t);
      if !ok {
        KeepsHeap(v0, ViewOf(m), t, t', cur);
        EmptyRange(v0, ViewOf(m), t, t', PageUp(cur) / PAGE);
        return cur, t';
      }
      GrowsHeap(v0, ViewOf(m), t, t', cur, addr);
    } else if addr < cur {
      PageUpMonotone(addr, cur);
      t' := UnmapPages(m, p.root, PageUp(addr), PageUp(cur), kernel, t);
      ShrinksHeap(v0, ViewOf(m), t, t', cur, addr);
    } else {
      t' := t;
      NotResized(v0, t, PageUp(cur) / PAGE, true, kernel);
      NotResized(v0, t, PageUp(cur) / PAGE, false, kernel);
    }
    p.brk := addr;
    r := addr;
  }

  // --- fork and exec ---

  /** The child inherits the break together with the copied pages. */
  lemma ForkKeepsHeap(mem: Memory, pt: Node, ct: Node, brk: nat)
    requires Forks.Twin(mem, pt, ct)
    ensures HeapMapped(pt, brk) <==> HeapMapped(ct, brk)
  {
    hide Lookup, FramesOf, PageUp;
    forall q ensures Lookup(pt, q).Some? <==> Lookup(ct, q).Some? {
      assert Forks.TwinAt(mem, Lookup(pt, q), Lookup(ct, q));
    }
  }

  /** A new image starts with the break at the base, which describes its heap exactly when no page of
      the image itself lies in the heap's range. */
  lemma ExecResetsHeap(mem: Memory, t: Node, image: seq<Execs.ImagePage>)
    requires Execs.Loaded(mem, t, image)
    ensures HeapMapped(t, HEAP_BASE) <==>
            forall k :: 0 <= k < |image| ==> !InPages(image[k].path, HEAP_BASE / PAGE, HEAP_MAX / PAGE)
  {
    hide Lookup, PageOf;
    assert PageUp(HEAP_BASE) == HEAP_BASE;
    if HeapMapped(t, HEAP_BASE) {
      forall k | 0 <= k < |image| ensures !InPages(image[k].path, HEAP_BASE / PAGE, HEAP_MAX / PAGE) {
        assert Execs.LoadedAt(mem, t, image[k]);
      }
    }
  }

  /** One page of the image at the base of the heap, and the new process starts with a break that is wrong. */
  lemma ImageInHeap(mem: Memory, t: Node, image: seq<Execs.ImagePage>, k: nat)
    requires Execs.Loaded(mem, t, image) && k < |image| && image[k].path == PathOf(HEAP_BASE / PAGE)
    ensures !HeapMapped(t, HEAP_BASE)
  {
    HeapPath(HEAP_BASE / PAGE);
    ExecResetsHeap(mem, t, image);
  }
}
