/** The C library's bump allocator over the program break, with the machine's 64-bit arithmetic. */
module Malloc {
  import opened Frames
  import opened PageTables
  import opened AddressSpaces
  import opened Heaps

  const WORD := 0x1_0000_0000_0000_0000

  /** What `(n + 15) & ~15` means when nothing wraps. */
  function RoundUp16(n: nat): (r: nat)
    ensures r % 16 == 0 && n <= r < n + 16
  {
    (n + 15) / 16 * 16
  }

  /** What it computes. */
  function Rounded(n: nat): nat {
    (n + 15) % WORD / 16 * 16
  }

  datatype Block = Block(start: nat, size: nat)

  /** The allocator's two static pointers; null before the first call. */
  class Arena {
    var cur: nat
    var lim: nat
  }

  ghost predicate Apart(a: Block, b: Block) {
    a.start + a.size <= b.start || b.start + b.size <= a.start
  }

  /** All bytes of the block are on mapped pages of the heap. */
  ghost predicate WhollyMapped(t: Node, b: Block) {
    forall a :: b.start <= a < b.start + b.size ==> ByteMapped(t, a)
  }

  ghost predicate ByteMapped(t: Node, a: nat) {
    HEAP_BASE <= a < HEAP_MAX && Lookup(t, PathOf(a / PAGE)).Some?
  }

  /** Blocks are aligned, apart from each other and below the arena's cursor. */
  ghost predicate Placed(blocks: seq<Block>, cur: nat) {
    && (forall i :: 0 <= i < |blocks| ==>
          blocks[i].start % 16 == 0 && HEAP_BASE <= blocks[i].start && blocks[i].start + blocks[i].size <= cur)
    && (forall i, j :: 0 <= i < j < |blocks| ==> Apart(blocks[i], blocks[j]))
  }

  /** The arena and the break agree; only the allocator moves the break. */
  ghost predicate ArenaInv(a: Arena, p: Process, blocks: seq<Block>)
    reads a, p
  {
    && Placed(blocks, if a.cur == 0 then HEAP_BASE else a.cur)
    && (a.cur == 0 ==> p.brk == HEAP_BASE && blocks == [])
    && (a.cur != 0 ==> HEAP_BASE <= a.cur <= a.lim == p.brk && a.cur % 16 == 0)
  }

  /** A request whose end still fits the machine word. */
  predicate Fits(cur: nat, n: nat) {
    (if cur == 0 then HEAP_BASE else cur) + RoundUp16(n) < WORD
  }

  lemma RoundedIs(n: nat)
    requires n < WORD
    ensures RoundUp16(n) < WORD ==> Rounded(n) == RoundUp16(n)
    ensures RoundUp16(n) >= WORD ==> Rounded(n) == 0
  {
  }

  /** Everything below the break is mapped. */
  lemma BelowBreak(t: Node, brk: nat, b: Block)
    requires HeapMapped(t, brk) && HEAP_BASE <= b.start && b.start + b.size <= brk
    ensures WhollyMapped(t, b)
  {
    forall a | b.start <= a < b.start + b.size ensures ByteMapped(t, a) {
      HeapPath(a / PAGE);
      assert InPages(PathOf(a / PAGE), HEAP_BASE / PAGE, HEAP_MAX / PAGE);
    }
  }

  /** A block reaching beyond the heap's range is not wholly mapped. */
  lemma TooLong(t: Node, b: Block)
    requires b.size > HEAP_MAX
    ensures !WhollyMapped(t, b)
  {
    assert !ByteMapped(t, b.start + HEAP_MAX);
  }

  /** So every block placed below the break is. */
  lemma AllMapped(t: Node, brk: nat, blocks: seq<Block>, cur: nat)
    requires HeapMapped(t, brk) && Placed(blocks, cur) && cur <= brk
    ensures forall b :: b in blocks ==> WhollyMapped(t, b)
  {
    forall i | 0 <= i < |blocks| ensures WhollyMapped(t, blocks[i]) {
      BelowBreak(t, brk, blocks[i]);
    }
  }

  lemma PlacedMore(blocks: seq<Block>, cur: nat, b: Block, next: nat)
    requires Placed(blocks, cur) && b.start == cur && cur % 16 == 0 && HEAP_BASE <= cur && cur + b.size <= next
    ensures Placed(blocks + [b], next)
  {
  }

  lemma Wraps(cur: nat, size: nat)
    requires cur < WORD && size < WORD
    ensures (cur + size) % WORD == if cur + size < WORD then cur + size else cur + size - WORD
  {
  }

  /** A request that does not fit: rounding it up wraps to nothing. */
  lemma WrapExample()
    ensures Rounded(WORD - 1) == 0 && !Fits(0, WORD - 1) && Fits(0, 4096)
  {
    assert (WORD - 1 + 15) % WORD == 14;
  }

  lemma PagesBetween(lo: nat, cur: nat, size: nat)
    requires cur <= lo <= cur + size
    ensures PageUp(cur + size) <= PageUp(lo) + (size / PAGE + 1) * PAGE
  {
  }

  /** Makes room for `size` bytes at the cursor: the break is raised to their end, as the machine adds. */
  method Reserve(m: Machine, p: Process, a: Arena, size: nat, ghost kernel: nat, ghost t: Node)
      returns (ok: bool, ghost t': Node)
    requires Running(m, p, kernel, t) && HEAP_BASE <= a.cur <= a.lim == p.brk <= HEAP_MAX && size < WORD
    modifies m, p, a`lim
    ensures Running(m, p, kernel, t')
    ensures a.cur + size < WORD ==> a.lim == p.brk && a.lim >= old(p.brk) && (ok <==> a.cur + size <= a.lim)
    ensures a.cur + size >= WORD ==> ok
    ensures !ok ==> p.brk == old(p.brk)
    ensures !ok ==>
              || a.cur + size > HEAP_MAX
              || |old(m.Available())| <= (size / PAGE + 1) * 4
  {
    hide Inv, Space, FramesOf, TablesOf, Lookup, Resized, PathOf, HeapMapped, KernelSlots, PageUp;
    Wraps(a.cur, size);
    t', ok := t, true;
    if a.lim - a.cur < size {
      var want := (a.cur + size) % WORD;
      var got;
      got, t' := SysBrk(m, p, want, kernel, t);
      if got < want {
        PagesBetween(old(p.brk), a.cur, size);
        return false, t';
      }
      a.lim := got;
    }
  }

  /** The first call starts the arena at the current break. */
  method Start(m: Machine, p: Process, a: Arena, ghost blocks: seq<Block>, ghost kernel: nat, ghost t: Node)
      returns (ghost t': Node)
    requires Running(m, p, kernel, t) && ArenaInv(a, p, blocks)
    modifies m, p, a
    ensures Running(m, p, kernel, t') && p.brk == old(p.brk) && ViewOf(m) == old(ViewOf(m))
    ensures a.cur == (if old(a.cur) == 0 then HEAP_BASE else old(a.cur))
    ensures HEAP_BASE <= a.cur <= a.lim == p.brk <= HEAP_MAX && a.cur % 16 == 0 && Placed(blocks, a.cur)
  {
    hide Inv, Space, FramesOf, TablesOf, Lookup, Resized, PathOf, HeapMapped, KernelSlots, PageUp, Placed;
    Bounds(t, p.brk);
    t' := t;
    if a.cur == 0 {
      var base;
      base, t' := SysBrk(m, p, 0, kernel, t);
      a.cur, a.lim := base, base;
    }
  }

  /** The new block is placed and mapped beside the others. */
  lemma Handed(t: Node, brk: nat, blocks: seq<Block>, r: nat, n: nat, next: nat)
    requires HeapMapped(t, brk) && Placed(blocks, r) && r % 16 == 0 && HEAP_BASE <= r && r + n <= next <= brk
    ensures Placed(blocks + [Block(r, n)], next)
    ensures (forall b :: b in blocks ==> WhollyMapped(t, b)) && WhollyMapped(t, Block(r, n))
  {
    hide HeapMapped, WhollyMapped, Placed;
    PlacedMore(blocks, r, Block(r, n), next);
    AllMapped(t, brk, blocks + [Block(r, n)], next);
    assert (blocks + [Block(r, n)])[|blocks|] == Block(r, n);
  }

  /** `malloc`: the returned block, if any, and every earlier one are aligned, pairwise apart and wholly
      mapped, exactly when the request fits the machine word. */
  method Allocate(m: Machine, p: Process, a: Arena, n: nat, ghost blocks: seq<Block>, ghost kernel: nat, ghost t: Node)
      returns (r: nat, ghost t': Node)
    requires Running(m, p, kernel, t) && ArenaInv(a, p, blocks) && n < WORD
    modifies m, p, a
    ensures Running(m, p, kernel, t')
    ensures old(Fits(a.cur, n)) ==>
              && ArenaInv(a, p, if r == 0 then blocks else blocks + [Block(r, n)])
              && (forall b :: b in blocks ==> WhollyMapped(t', b)) && (r != 0 ==> WhollyMapped(t', Block(r, n)))
              && (r == 0 ==> p.brk == old(p.brk))
    ensures !old(Fits(a.cur, n)) ==> r != 0 && !WhollyMapped(t', Block(r, n))
    ensures r == 0 ==>
              || old(p.brk) + RoundUp16(n) > HEAP_MAX
              || |old(m.Available())| <= (RoundUp16(n) / PAGE + 1) * 4
  {
    hide Inv, Space, FramesOf, TablesOf, Lookup, Resized, PathOf, HeapMapped, WhollyMapped, KernelSlots, Placed,
      PageUp;
    hide Rounded, RoundUp16;
    RoundedIs(n);
    var size := Rounded(n);
    ghost var fits := Fits(a.cur, n);
    t' := Start(m, p, a, blocks, kernel, t);
    Wraps(a.cur, size);
    var ok;
    ok, t' := Reserve(m, p, a, size, kernel, t');
    if !ok {
      AllMapped(t', p.brk, blocks, a.cur);
      return 0, t';
    }
    r := a.cur;
    a.cur := (a.cur + size) % WORD;
    if fits {
      Handed(t', p.brk, blocks, r, n, a.cur);
    } else {
      TooLong(t', Block(r, n));
    }
  }
}
