/** Physical frames: the boot memory map, a bump cursor over its usable frames, and a free list
    threaded through the first word of the freed frames themselves. */
module Frames {
  import opened Basics

  const PAGE_WORDS := 512
  const PAGE_SIZE := 4096
  const FREE_LIST_END := 0

  // --- the memory map ---

  /** Frames `start .. end` of physical memory, in boot-loader order. */
  datatype Region = Region(start: nat, end: nat, isUsable: bool)

  function RangeOf(start: nat, end: nat): (r: seq<nat>)
    ensures forall f :: f in r <==> start <= f < end
    decreases end - start
  {
    if end <= start then [] else [start] + RangeOf(start + 1, end)
  }

  /** Every usable frame, in the order the cursor hands them out. */
  function UsableFrames(regions: seq<Region>): (r: seq<nat>) {
    if regions == [] then [] else
      (if regions[0].isUsable then RangeOf(regions[0].start, regions[0].end) else []) + UsableFrames(regions[1..])
  }

  ghost predicate IsUsable(regions: seq<Region>, f: nat) {
    exists i :: 0 <= i < |regions| && regions[i].isUsable && regions[i].start <= f < regions[i].end
  }

  /** The list holds exactly the frames of usable regions. */
  lemma {:induction false} UsableExactly(regions: seq<Region>, f: nat)
    ensures f in UsableFrames(regions) <==> IsUsable(regions, f)
  {
    if regions != [] {
      var rest := regions[1..];
      assert forall i :: 0 <= i < |rest| ==> rest[i] == regions[i + 1];
      UsableExactly(rest, f);
      hide UsableFrames;
      UsableUnfold(regions);
      if IsUsable(rest, f) {
        var i :| 0 <= i < |rest| && rest[i].isUsable && rest[i].start <= f < rest[i].end;
        assert regions[i + 1].isUsable;
      }
    }
  }

  lemma UsableUnfold(regions: seq<Region>)
    requires regions != []
    ensures UsableFrames(regions) ==
            (if regions[0].isUsable then RangeOf(regions[0].start, regions[0].end) else []) + UsableFrames(regions[1..])
  {
  }

  /** The order: the frames of earlier regions come first, */
  lemma {:induction false} UsableInOrder(a: seq<Region>, b: seq<Region>)
    ensures UsableFrames(a + b) == UsableFrames(a) + UsableFrames(b)
  {
    if a == [] {
      assert a + b == b;
    } else {
      assert (a + b)[1..] == a[1..] + b;
      UsableInOrder(a[1..], b);
      hide UsableFrames;
      UsableUnfold(a);
      UsableUnfold(a + b);
    }
  }

  /** and within a region they come one after the other. */
  lemma {:induction false} RangeInOrder(start: nat, end: nat, i: nat)
    requires start + i < end
    ensures |RangeOf(start, end)| == end - start && RangeOf(start, end)[i] == start + i
    ensures UsableFrames([Region(start, end, true)]) == RangeOf(start, end)
    decreases end - start
  {
    if start + 1 < end { RangeInOrder(start + 1, end, if i == 0 then 0 else i - 1); }
    UsableUnfold([Region(start, end, true)]);
  }

  /** Usable regions do not overlap, and frame 0 is not usable. */
  ghost predicate GoodMap(regions: seq<Region>) {
    && (forall i :: 0 <= i < |regions| && regions[i].isUsable ==> 1 <= regions[i].start)
    && (forall i, j :: 0 <= i < j < |regions| && regions[i].isUsable && regions[j].isUsable ==>
          regions[i].end <= regions[j].start || regions[j].end <= regions[i].start)
  }

  ghost predicate Distinct(s: seq<nat>) {
    forall i, j :: 0 <= i < j < |s| ==> s[i] != s[j]
  }

  lemma DistinctAppend(a: seq<nat>, b: seq<nat>)
    requires Distinct(a) && Distinct(b) && forall f :: f in a ==> f !in b
    ensures Distinct(a + b)
  {
    var s := a + b;
    forall i, j | 0 <= i < j < |s| ensures s[i] != s[j] {
      if i < |a| && |a| <= j { assert a[i] in a && b[j - |a|] in b; }
    }
  }

  lemma {:induction false} RangeDistinct(start: nat, end: nat)
    ensures Distinct(RangeOf(start, end))
    decreases end - start
  {
    if start < end {
      RangeDistinct(start + 1, end);
      DistinctAppend([start], RangeOf(start + 1, end));
    }
  }

  /** On a good map the cursor never meets a frame twice, and never meets frame 0. */
  lemma {:induction false} UsableDistinct(regions: seq<Region>)
    requires GoodMap(regions)
    ensures Distinct(UsableFrames(regions)) && 0 !in UsableFrames(regions)
  {
    if regions != [] {
      var rest := regions[1..];
      assert forall i :: 0 <= i < |rest| ==> rest[i] == regions[i + 1];
      UsableDistinct(rest);
      if regions[0].isUsable {
        RangeDistinct(regions[0].start, regions[0].end);
        forall f | f in RangeOf(regions[0].start, regions[0].end) ensures f !in UsableFrames(rest) {
          UsableExactly(rest, f);
        }
        DistinctAppend(RangeOf(regions[0].start, regions[0].end), UsableFrames(rest));
      } else {
        assert [] + UsableFrames(rest) == UsableFrames(rest);
      }
    }
  }

  // --- runs of adjacent frames ---

  /** Frames `j .. j + n` of the usable order are physically adjacent. */
  ghost predicate Adjacent(usable: seq<nat>, j: nat, n: nat) {
    j + n <= |usable| && forall k :: j < k < j + n ==> Follows(usable, k)
  }

  ghost predicate Follows(usable: seq<nat>, k: nat)
    requires 0 < k < |usable|
  {
    usable[k] == usable[k - 1] + 1
  }

  ghost predicate FirstRun(usable: seq<nat>, from: nat, n: nat, j: nat) {
    from <= j && Adjacent(usable, j, n) && forall i :: from <= i < j ==> !Adjacent(usable, i, n)
  }

  ghost function Elems(s: seq<nat>): set<nat> { set f | f in s }

  type Memory = seq<seq<nat>>

  ghost predicate Paged(mem: Memory) { forall f :: 0 <= f < |mem| ==> |mem[f]| == 512 }

  /** The free list as memory holds it: each link word is the address of the next frame, 0 at the end. */
  ghost predicate Linked(mem: Memory, free: seq<nat>) {
    && Paged(mem)
    && (forall i :: 0 <= i < |free| ==> LinkAt(mem, free, i))
  }

  ghost predicate LinkAt(mem: Memory, free: seq<nat>, i: nat)
    requires i < |free|
  {
    && 0 < free[i] < |mem| && |mem[free[i]]| == 512
    && mem[free[i]][0] == if i + 1 < |free| then free[i + 1] * 4096 else FREE_LIST_END
  }

  lemma LinkedFrame(mem: Memory, mem': Memory, free: seq<nat>)
    requires Linked(mem, free) && Paged(mem') && |mem'| == |mem|
    requires forall f :: f in free && f < |mem| ==> mem'[f] == mem[f]
    ensures Linked(mem', free)
  {
    forall i | 0 <= i < |free| ensures LinkAt(mem', free, i) {
      assert LinkAt(mem, free, i) && free[i] in free;
    }
  }

  function SetWord(mem: Memory, f: nat, i: nat, w: nat): (r: Memory)
    requires f < |mem| && i < |mem[f]|
    ensures |r| == |mem| && (forall x :: 0 <= x < |mem| && x != f ==> r[x] == mem[x])
    ensures r[f] == mem[f][i := w]
  {
    var row: seq<nat> := mem[f][i := w];
    mem[f := row]
  }

  /** The cursor has passed this frame. */
  ghost predicate Issued(usable: seq<nat>, next: nat, f: nat) {
    exists i :: 0 <= i < next && i < |usable| && usable[i] == f
  }

  /** The allocator invariant over its fields and the memory it threads its list through. */
  ghost predicate Inv(usable: seq<nat>, mem: Memory, next: nat, freeList: Option<nat>, free: seq<nat>, live: set<nat>) {
    && Distinct(usable) && Paged(mem)
    && (forall f :: f in usable ==> 0 < f < |mem|)
    && Linked(mem, free) && Distinct(free)
    && freeList == (if free == [] then None else Some(free[0] * 4096))
    && (forall f :: f in free ==> f !in live)
    && (forall f :: f in free ==> f in usable && Issued(usable, next, f))
    && (forall f :: f in live ==> f in usable && Issued(usable, next, f))
  }

  ghost function From(usable: seq<nat>, next: nat): set<nat> { set i | next <= i < |usable| :: usable[i] }

  lemma PopInv(usable: seq<nat>, mem: Memory, next: nat, freeList: Option<nat>, free: seq<nat>, live: set<nat>)
    requires Inv(usable, mem, next, freeList, free, live) && free != []
    ensures 0 < free[0] < |mem| && |mem[free[0]]| == 512
    ensures var f, link := free[0], mem[free[0]][0];
            && freeList == Some(f * 4096) && f !in live && 0 < f < |mem|
            && Inv(usable, mem, next, if link != FREE_LIST_END then Some(link) else None, free[1..], live + {f})
            && Elems(free) == {f} + Elems(free[1..]) && f !in Elems(free[1..]) && f !in From(usable, next)
  {
    var rest := free[1..];
    assert free[0] in free;
    PopLinked(mem, free);
    assert forall f :: f in rest ==> f in free;
    assert Distinct(rest) by { assert forall i :: 0 <= i < |rest| ==> rest[i] == free[i + 1]; }
    hide Linked, LinkAt;
    PopSets(usable, next, free);
  }

  lemma PopSets(usable: seq<nat>, next: nat, free: seq<nat>)
    requires Distinct(usable) && Distinct(free) && free != [] && Issued(usable, next, free[0])
    ensures Elems(free) == {free[0]} + Elems(free[1..]) && free[0] !in Elems(free[1..])
    ensures free[0] !in From(usable, next)
  {
    assert free == [free[0]] + free[1..];
    var i :| 0 <= i < next && i < |usable| && usable[i] == free[0];
  }

  lemma PopLinked(mem: Memory, free: seq<nat>)
    requires Linked(mem, free) && free != []
    ensures free[0] in free && Linked(mem, free[1..]) && 0 < free[0] < |mem| && |mem[free[0]]| == 512
    ensures |free| > 1 ==> free[1] > 0
    ensures mem[free[0]][0] == if |free| > 1 then free[1] * 4096 else FREE_LIST_END
  {
    var rest := free[1..];
    assert LinkAt(mem, free, 0);
    if |free| > 1 { assert LinkAt(mem, free, 1); }
    forall i | 0 <= i < |rest| ensures LinkAt(mem, rest, i) {
      assert rest[i] == free[i + 1] && LinkAt(mem, free, i + 1);
    }
  }

  lemma PushInv(usable: seq<nat>, mem: Memory, next: nat, freeList: Option<nat>, free: seq<nat>, live: set<nat>, f: nat)
    requires Inv(usable, mem, next, freeList, free, live) && f in live
    ensures 0 < f < |mem| && |mem[f]| == 512
    ensures var link := if freeList.Some? then freeList.value else FREE_LIST_END;
            && Inv(usable, SetWord(mem, f, 0, link), next, Some(f * 4096), [f] + free, live - {f})
            && Elems([f] + free) == Elems(free) + {f}
  {
    var link := if freeList.Some? then freeList.value else FREE_LIST_END;
    PushLinked(mem, free, f, link);
    DistinctAppend([f], free);
  }

  lemma PushLinked(mem: Memory, free: seq<nat>, f: nat, link: nat)
    requires Linked(mem, free) && 0 < f < |mem| && f !in free
    requires link == if free == [] then FREE_LIST_END else free[0] * 4096
    ensures |mem[f]| == 512 && Linked(SetWord(mem, f, 0, link), [f] + free)
  {
    var mem', more := SetWord(mem, f, 0, link), [f] + free;
    LinkedFrame(mem, mem', free);
    forall i | 0 <= i < |more| ensures LinkAt(mem', more, i) {
      if i > 0 {
        assert more[i] == free[i - 1] && LinkAt(mem', free, i - 1);
      }
    }
  }

  lemma BumpInv(usable: seq<nat>, mem: Memory, next: nat, live: set<nat>)
    requires Inv(usable, mem, next, None, [], live)
    ensures Inv(usable, mem, next + 1, None, [], if next < |usable| then live + {usable[next]} else live)
    ensures next < |usable| ==> 0 < usable[next] < |mem| && usable[next] !in live
    ensures next < |usable| ==>
              From(usable, next) == From(usable, next + 1) + {usable[next]} && usable[next] !in From(usable, next + 1)
    ensures next >= |usable| ==> From(usable, next) == {} && From(usable, next + 1) == {}
  {
    forall f | Issued(usable, next, f) ensures Issued(usable, next + 1, f) {}
    if next < |usable| {
      assert usable[next] in usable && Issued(usable, next + 1, usable[next]);
      NotIssued(usable, next, next);
      forall f | f in From(usable, next) ensures f in From(usable, next + 1) + {usable[next]} {}
    }
  }

  lemma RunInv(
    usable: seq<nat>, mem: Memory, next: nat, freeList: Option<nat>, free: seq<nat>, live: set<nat>, j: nat, n: nat)
    requires Inv(usable, mem, next, freeList, free, live) && next <= j && j + n <= |usable|
    ensures Elems(usable[j..j + n]) !! live
    ensures Inv(usable, mem, j + n, freeList, free, live + Elems(usable[j..j + n]))
  {
    forall f | Issued(usable, next, f) ensures Issued(usable, j + n, f) {}
    forall f | f in usable[j..j + n]
      ensures f in usable && f !in live && f !in free && Issued(usable, j + n, f)
    {
      var k :| 0 <= k < n && usable[j..j + n][k] == f;
      assert usable[j + k] == f;
      NotIssued(usable, next, j + k);
    }
  }

  lemma NotIssued(usable: seq<nat>, next: nat, i: nat)
    requires Distinct(usable) && next <= i < |usable|
    ensures !Issued(usable, next, usable[i])
  {
  }

  lemma StoreInv(
    usable: seq<nat>, mem: Memory, mem': Memory, next: nat, freeList: Option<nat>, free: seq<nat>, live: set<nat>,
    f: nat)
    requires Inv(usable, mem, next, freeList, free, live) && f in live
    requires |mem'| == |mem| && Paged(mem') && forall x :: 0 <= x < |mem| && x != f ==> mem'[x] == mem[x]
    ensures Inv(usable, mem', next, freeList, free, live)
  {
    LinkedFrame(mem, mem', free);
  }

  class Machine {
    /** Usable frames in cursor order. */
    const usable: seq<nat>
    /** Physical memory: 512 words per frame. */
    var mem: Memory
    var next: nat
    /** Address of the first free frame. */
    var freeList: Option<nat>

    /** The frames on the free list, head first. */
    ghost var free: seq<nat>
    /** Frames handed out and not given back. */
    ghost var live: set<nat>

    ghost predicate Valid()
      reads this
    {
      Inv(usable, mem, next, freeList, free, live)
    }

    /** What an allocation can still return. */
    ghost function Available(): set<nat>
      reads this
    {
      Elems(free) + From(usable, next)
    }

    constructor (regions: seq<Region>, memory: Memory)
      requires GoodMap(regions) && Paged(memory)
      requires forall f :: f in UsableFrames(regions) ==> f < |memory|
      ensures Valid() && usable == UsableFrames(regions) && mem == memory && next == 0 && free == [] && live == {}
    {
      UsableDistinct(regions);
      usable, mem, next, freeList := UsableFrames(regions), memory, 0, None;
      free, live := [], {};
    }

    /** Pops the free list, or takes the next usable frame. */
    method AllocateFrame() returns (r: Option<nat>)
      requires Valid()
      modifies this`next, this`freeList, this`free, this`live
      ensures Valid()
      ensures old(free) != [] ==> r == Some(old(free)[0]) && free == old(free)[1..] && next == old(next)
      ensures old(free) == [] ==> free == [] && next == old(next) + 1
      ensures old(free) == [] ==> r == if old(next) < |usable| then Some(usable[old(next)]) else None
      ensures r.Some? ==> r.value !in old(live) && 0 < r.value < |mem| && live == old(live) + {r.value}
      ensures r.None? ==> live == old(live)
      ensures r.None? <==> old(Available()) == {}
      ensures r.Some? ==> r.value in old(Available()) && Available() == old(Available()) - {r.value}
      ensures r.None? ==> Available() == {}
    {
      if free != [] { PopInv(usable, mem, next, freeList, free, live); } else { BumpInv(usable, mem, next, live); }
      ghost var empty := free == [];
      assert freeList.Some? <==> !empty;
      hide From, Elems;
      if freeList.Some? {
        var head := freeList.value;
        var link := mem[head / 4096][0];
        freeList := if link != FREE_LIST_END then Some(link) else None;
        r := Some(head / 4096);
        live := live + {free[0]};
        free := free[1..];
        return;
      }
      r := if next < |usable| then Some(usable[next]) else None;
      next := next + 1;
      if r.Some? { live := live + {r.value}; }
      NoElems();
    }

    /** Pushes a frame: the old head goes into its first word. */
    method DeallocateFrame(f: nat)
      requires Valid() && f in live
      modifies this`mem, this`freeList, this`free, this`live
      ensures Valid()
      ensures free == [f] + old(free) && live == old(live) - {f}
      ensures |mem| == |old(mem)| && forall x :: 0 <= x < |mem| && x != f ==> mem[x] == old(mem)[x]
      ensures Available() == old(Available()) + {f}
    {
      PushInv(usable, mem, next, freeList, free, live, f);
      var link := if freeList.Some? then freeList.value else FREE_LIST_END;
      hide Inv;
      mem := SetWord(mem, f, 0, link);
      freeList := Some(f * 4096);
      free := [f] + free;
      live := live - {f};
    }

    /** Takes the first run of `count` adjacent frames at or after the cursor. */
    method AllocateContiguous(count: nat) returns (r: Option<nat>, ghost j: nat)
      requires Valid()
      modifies this`next, this`live
      ensures Valid()
      ensures r.Some? ==>
                && 0 < count && FirstRun(usable, old(next), count, j) && r.value == usable[j] && next == j + count
                && live == old(live) + Elems(usable[j..j + count]) && Elems(usable[j..j + count]) !! old(live)
      ensures r.None? ==> next == old(next) && live == old(live)
      ensures r.None? <==> count == 0 || forall i :: old(next) <= i ==> !Adjacent(usable, i, count)
    {
      hide Inv;
      j := 0;
      if count == 0 { return None, j; }
      var runStart, runLen := next, 0;
      var i := next;
      while i < |usable|
        invariant Valid() && next == old(next) && live == old(live)
        invariant next <= i && (i <= |usable| || i == next)
        invariant 0 <= runLen < count && next <= runStart && runStart + runLen == i
        invariant i <= |usable| ==> Adjacent(usable, runStart, runLen)
        invariant runLen == 0 ==> i == next
        invariant runStart == next || (runStart < |usable| && !Follows(usable, runStart))
        invariant forall k :: next <= k && k + count <= i ==> !Adjacent(usable, k, count)
        decreases |usable| - i
      {
        var contiguous := i > next && usable[i] == usable[i - 1] + 1;
        if contiguous {
          runLen := runLen + 1;
        } else {
          runStart, runLen := i, 1;
        }
        if runLen == count {
          RunInv(usable, mem, next, freeList, free, live, runStart, count);
          NoRunAcross(usable, next, count, runStart);
          j := runStart;
          next := runStart + count;
          live := live + Elems(usable[j..j + count]);
          r := Some(usable[runStart]);
          return;
        }
        NoRunAcross(usable, next, count, runStart);
        i := i + 1;
      }
      r := None;
    }

    /** Stores one word of a frame that is in use. */
    method WriteWord(f: nat, i: nat, w: nat)
      requires Valid() && f in live && i < 512
      modifies this`mem
      ensures Valid() && f < |old(mem)| && |old(mem)[f]| == 512 && mem == SetWord(old(mem), f, i, w)
    {
      StoreInv(usable, mem, SetWord(mem, f, i, w), next, freeList, free, live, f);
      mem := SetWord(mem, f, i, w);
    }

    /** Overwrites a whole frame that is in use. */
    method WriteFrame(f: nat, words: seq<nat>)
      requires Valid() && f in live && |words| == 512
      modifies this`mem
      ensures Valid() && f < |old(mem)| && mem == old(mem)[f := words]
    {
      StoreInv(usable, mem, mem[f := words], next, freeList, free, live, f);
      mem := mem[f := words];
    }
  }

  lemma NoElems()
    ensures Elems([]) == {}
  {
  }

  /** A window that starts before the current run and reaches into it crosses its broken edge. */
  lemma NoRunAcross(usable: seq<nat>, from: nat, count: nat, runStart: nat)
    requires from <= runStart < |usable|
    requires runStart == from || !Follows(usable, runStart)
    ensures forall k :: from <= k < runStart && runStart < k + count ==> !Adjacent(usable, k, count)
  {
  }

  datatype FrameOp = Take | TakeRun(count: nat) | Give(which: nat)

  /** The frames of the runs, given by first frame and length. */
  ghost function InRuns(runs: seq<(nat, nat)>): seq<nat> {
    if runs == [] then [] else
    var last := runs[|runs| - 1];
    InRuns(runs[..|runs| - 1]) + RangeOf(last.0, last.0 + last.1)
  }

  lemma {:induction false} RunIsRange(usable: seq<nat>, j: nat, n: nat)
    requires Adjacent(usable, j, n) && 0 < n
    ensures usable[j..j + n] == RangeOf(usable[j], usable[j] + n)
    decreases n
  {
    assert usable[j..j + n] == [usable[j]] + usable[j + 1..j + n];
    if n > 1 {
      assert Follows(usable, j + 1);
      assert forall k :: j + 1 < k < j + n ==> Follows(usable, k);
      RunIsRange(usable, j + 1, n - 1);
    }
  }

  lemma ElemsAppend(a: seq<nat>, b: seq<nat>)
    ensures Elems(a + b) == Elems(a) + Elems(b)
  {
  }

  /** One more frame or run, new to all those handed out. */
  lemma HandOut(held: seq<nat>, more: seq<nat>, live: set<nat>)
    requires Distinct(held) && live == Elems(held) && Distinct(more) && Elems(more) !! live
    ensures Distinct(held + more) && live + Elems(more) == Elems(held + more)
  {
    ElemsAppend(held, more);
    forall f | f in held ensures f !in more { assert f in Elems(held); }
    DistinctAppend(held, more);
  }

  /** Order does not matter to being distinct. */
  lemma Reordered(a: seq<nat>, x: seq<nat>, b: seq<nat>)
    requires Distinct(a + b + x)
    ensures Distinct(a + x + b) && Elems(a + x + b) == Elems(a + b + x)
  {
    var s, t := a + b + x, a + x + b;
    forall i, j | 0 <= i < j < |t| ensures t[i] != t[j] {
      var i' := if i < |a| then i else if i < |a| + |x| then i + |b| else i - |x|;
      var j' := if j < |a| then j else if j < |a| + |x| then j + |b| else j - |x|;
      assert t[i] == s[i'] && t[j] == s[j'];
    }
    ElemsAppend(a + b, x);
    ElemsAppend(a, b);
    ElemsAppend(a + x, b);
    ElemsAppend(a, x);
  }

  /** One frame less. */
  lemma HandBack(s: seq<nat>, which: nat)
    requires Distinct(s) && which < |s|
    ensures Distinct(s[..which] + s[which + 1..]) && Elems(s[..which] + s[which + 1..]) == Elems(s) - {s[which]}
  {
    var left := s[..which] + s[which + 1..];
    assert forall i :: 0 <= i < |left| ==> left[i] == if i < which then s[i] else s[i + 1];
    forall f | f in Elems(s) - {s[which]} ensures f in Elems(left) {
      var i :| 0 <= i < |s| && s[i] == f;
      assert left[if i < which then i else i - 1] == f;
    }
  }

  /** What is handed out: frames held one by one, and runs. */
  datatype Out = Out(held: seq<nat>, runs: seq<(nat, nat)>)

  /** What an operation does to that; `could` says whether there was something to hand out. */
  ghost predicate Moved(op: FrameOp, could: bool, a: Out, b: Out) {
    match op
    case Take =>
      if could then b.runs == a.runs && |b.held| == |a.held| + 1 && b.held[..|a.held|] == a.held else b == a
    case TakeRun(count) =>
      if could then b.held == a.held && |b.runs| == |a.runs| + 1 && b.runs[..|a.runs|] == a.runs &&
           b.runs[|a.runs|].1 == count
      else b == a
    case Give(which) =>
      if which < |a.held| then b == a.(held := a.held[..which] + a.held[which + 1..]) else b == a
  }

  ghost predicate Moves(op: FrameOp, a: Out, b: Out) { Moved(op, true, a, b) || Moved(op, false, a, b) }

  /** There is a frame, or a run, to hand out. */
  ghost predicate Could(m: Machine, op: FrameOp)
    reads m
  {
    match op
    case Take => m.Available() != {}
    case TakeRun(count) => count > 0 && exists i :: m.next <= i && Adjacent(m.usable, i, count)
    case Give(_) => true
  }

  /** Any legal interleaving: single frames are given back only while held, runs are kept. After every
      step all frames handed out, singly or in runs, are pairwise distinct. */
  method Interleave(m: Machine, ops: seq<FrameOp>)
      returns (held: seq<nat>, runs: seq<(nat, nat)>, ghost trace: seq<Out>)
    requires m.Valid() && m.live == {}
    modifies m
    ensures m.Valid() && Distinct(held + InRuns(runs)) && m.live == Elems(held + InRuns(runs))
    ensures |trace| == |ops| + 1 && trace[0] == Out([], []) && trace[|ops|] == Out(held, runs)
    ensures forall k :: 0 <= k < |trace| ==> Distinct(trace[k].held + InRuns(trace[k].runs))
    ensures forall k :: 0 <= k < |ops| ==> Moves(ops[k], trace[k], trace[k + 1])
  {
    hide Inv, Elems, Distinct, RangeOf, Moved, Moves, Could, Machine.Available;
    held, runs, trace := [], [], [Out([], [])];
    NoneHeld();
    for k := 0 to |ops|
      invariant m.Valid() && Distinct(held + InRuns(runs)) && m.live == Elems(held + InRuns(runs))
      invariant |trace| == k + 1 && trace[0] == Out([], []) && trace[k] == Out(held, runs)
      invariant forall j :: 0 <= j <= k ==> Distinct(trace[j].held + InRuns(trace[j].runs))
      invariant forall j :: 0 <= j < k ==> Moves(ops[j], trace[j], trace[j + 1])
    {
      held, runs := Act(m, held, runs, ops[k]);
      trace := trace + [Out(held, runs)];
    }
  }

  /** One operation: it hands something out exactly when there is something. */
  method Act(m: Machine, held: seq<nat>, runs: seq<(nat, nat)>, op: FrameOp)
      returns (held': seq<nat>, runs': seq<(nat, nat)>)
    requires m.Valid() && Distinct(held + InRuns(runs)) && m.live == Elems(held + InRuns(runs))
    modifies m
    ensures m.Valid() && Distinct(held' + InRuns(runs')) && m.live == Elems(held' + InRuns(runs'))
    ensures Moved(op, old(Could(m, op)), Out(held, runs), Out(held', runs'))
    ensures Moves(op, Out(held, runs), Out(held', runs'))
  {
    hide Inv, Elems, Distinct, RangeOf, Machine.Available;
    held', runs' := held, runs;
    match op {
      case Take => held' := TakeOne(m, held, runs);
      case TakeRun(count) => runs' := TakeMany(m, held, runs, count);
      case Give(which) => if which < |held| { held' := GiveOne(m, held, which, runs); }
    }
  }

  lemma NoneHeld()
    ensures Distinct([] + InRuns([])) && Elems([] + InRuns([])) == {}
  {
  }

  method TakeOne(m: Machine, held: seq<nat>, ghost runs: seq<(nat, nat)>) returns (held': seq<nat>)
    requires m.Valid() && Distinct(held + InRuns(runs)) && m.live == Elems(held + InRuns(runs))
    modifies m
    ensures m.Valid() && Distinct(held' + InRuns(runs)) && m.live == Elems(held' + InRuns(runs))
    ensures held' == held <==> old(m.Available()) == {}
    ensures held' != held ==> |held'| == |held| + 1 && held'[..|held|] == held
  {
    hide Inv, Distinct;
    ghost var live := m.live;
    var f := m.AllocateFrame();
    held' := held;
    if f.Some? {
      assert Distinct([f.value]) by { OneDistinct(f.value); }
      HandOut(held + InRuns(runs), [f.value], live);
      Reordered(held, [f.value], InRuns(runs));
      held' := held + [f.value];
    }
  }

  lemma OneDistinct(f: nat)
    ensures Distinct([f])
  {
  }

  method TakeMany(m: Machine, ghost held: seq<nat>, runs: seq<(nat, nat)>, count: nat) returns (runs': seq<(nat, nat)>)
    requires m.Valid() && Distinct(held + InRuns(runs)) && m.live == Elems(held + InRuns(runs))
    modifies m
    ensures m.Valid() && Distinct(held + InRuns(runs')) && m.live == Elems(held + InRuns(runs'))
    ensures runs' == runs <==> old(count == 0 || forall i :: m.next <= i ==> !Adjacent(m.usable, i, count))
    ensures runs' != runs ==> |runs'| == |runs| + 1 && runs'[..|runs|] == runs && runs'[|runs|].1 == count
  {
    hide Inv, Distinct;
    ghost var live := m.live;
    var f, j := m.AllocateContiguous(count);
    runs' := runs;
    if f.Some? {
      RunIsRange(m.usable, j, count);
      RangeDistinct(f.value, f.value + count);
      runs' := runs + [(f.value, count)];
      assert runs'[..|runs|] == runs;
      HandOut(held + InRuns(runs), RangeOf(f.value, f.value + count), live);
      assert held + InRuns(runs') == held + InRuns(runs) + RangeOf(f.value, f.value + count);
    }
  }

  method GiveOne(m: Machine, held: seq<nat>, which: nat, ghost runs: seq<(nat, nat)>) returns (held': seq<nat>)
    requires m.Valid() && which < |held| && Distinct(held + InRuns(runs)) && m.live == Elems(held + InRuns(runs))
    modifies m
    ensures m.Valid() && Distinct(held' + InRuns(runs)) && m.live == Elems(held' + InRuns(runs))
    ensures held' == held[..which] + held[which + 1..]
  {
    hide Inv, Distinct;
    ghost var all := held + InRuns(runs);
    assert all[which] in all;
    HandBack(all, which);
    m.DeallocateFrame(held[which]);
    held' := held[..which] + held[which + 1..];
    assert all[..which] + all[which + 1..] == held' + InRuns(runs);
  }
}
