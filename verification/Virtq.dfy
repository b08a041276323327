/** A virtio split ring with 16-bit indices that wrap, shared with a device that may do anything except
    complete a buffer it was not given. */
module Virtq {
  import opened Basics

  const WRAP := 0x1_0000
  const QUEUE_ALIGN := 4096

  /** A queue size the device may announce: a power of two, so that it divides the index range. */
  predicate GoodSize(q: nat) {
    0 < q <= 0x8000 && WRAP % q == 0
  }

  function PowerOfTwo(k: nat): nat { if k == 0 then 1 else 2 * PowerOfTwo(k - 1) }

  /** Only a power of two divides one. */
  lemma {:induction false} DividesPower(q: nat, k: nat, n: nat)
    requires q * k == PowerOfTwo(n)
    ensures exists m :: 0 <= m <= n && q == PowerOfTwo(m)
    decreases n
  {
    if n == 0 {
      DividesOne(q, k);
      assert q == PowerOfTwo(0);
    } else if q % 2 == 0 {
      HalfLeft(q, k, n);
      DividesPower(q / 2, k, n - 1);
      var m :| 0 <= m <= n - 1 && q / 2 == PowerOfTwo(m);
      assert q == PowerOfTwo(m + 1);
    } else {
      HalfRight(q, k, n);
      DividesPower(q, k / 2, n - 1);
    }
  }

  lemma DividesOne(q: nat, k: nat)
    requires q * k == 1
    ensures q == 1
  {
    if k > 0 { NoSmaller(q, k); }
  }

  lemma NoSmaller(q: nat, k: nat)
    requires k > 0
    ensures q * k >= q
  {
  }

  lemma HalfLeft(q: nat, k: nat, n: nat)
    requires n > 0 && q % 2 == 0 && q * k == PowerOfTwo(n)
    ensures q / 2 * k == PowerOfTwo(n - 1)
  {
    var h := q / 2;
    assert q == 2 * h;
    assert 2 * h * k == 2 * (h * k);
  }

  lemma HalfRight(q: nat, k: nat, n: nat)
    requires n > 0 && q % 2 == 1 && q * k == PowerOfTwo(n)
    ensures q * (k / 2) == PowerOfTwo(n - 1)
  {
    OddTimes(q, k);
    var h := k / 2;
    assert k == 2 * h;
    assert q * (2 * h) == 2 * (q * h);
  }

  lemma OddTimes(q: nat, k: nat)
    requires q % 2 == 1 && q * k % 2 == 0
    ensures k % 2 == 0
  {
    if k % 2 == 1 { OddOdd(q, k); }
  }

  lemma OddOdd(q: nat, k: nat)
    requires q % 2 == 1 && k % 2 == 1
    ensures q * k % 2 == 1
  {
    var a, b := q / 2, k / 2;
    assert q * k == 2 * (2 * a * b + a + b) + 1;
  }

  const SIZES: seq<nat> := [1, 2, 4, 8, 16, 32, 64, 128, 256, 512, 1024, 2048, 4096, 8192, 16384, 32768]

  /** The sizes accepted are the powers of two up to 32768. */
  lemma GoodSizes(q: nat)
    ensures GoodSize(q) <==> q in SIZES
  {
    if GoodSize(q) {
      OnlySizes(q);
    }
    if q in SIZES {
      var m: nat :| m < 16 && q == SIZES[m];
      SizeDivides(m);
    }
  }

  lemma OnlySizes(q: nat)
    requires GoodSize(q)
    ensures q in SIZES
  {
    var k := WRAP / q;
    assert q * k == WRAP;
    Powers(16);
    DividesPower(q, k, 16);
    var m: nat :| m <= 16 && q == PowerOfTwo(m);
    Powers(m);
    assert q == SIZES[m];
  }

  lemma SizeDivides(m: nat)
    requires m < 16
    ensures WRAP % SIZES[m] == 0
  {
    assert WRAP == SIZES[m] * (2 * SIZES[15 - m]);
  }

  lemma Powers(m: nat)
    requires m <= 16
    ensures PowerOfTwo(m) == if m < 16 then SIZES[m] else WRAP
  {
    if m > 0 { Powers(m - 1); }
  }

  // --- layout of the queue memory ---

  function AlignUp(x: nat, align: nat): nat
    requires align > 0
  {
    (x + align - 1) / align * align
  }

  datatype Layout = Layout(avail: nat, used: nat, pages: nat)

  function Pages(bytes: nat): nat { AlignUp(bytes, QUEUE_ALIGN) / QUEUE_ALIGN }

  function LayoutOf(q: nat): Layout {
    var used := AlignUp(16 * q + 6 + 2 * q, QUEUE_ALIGN);
    Layout(16 * q, used, Pages(used + 6 + 8 * q))
  }

  lemma AlignUpPage(x: nat)
    ensures var y := AlignUp(x, QUEUE_ALIGN); x <= y < x + QUEUE_ALIGN && y % QUEUE_ALIGN == 0
  {
  }

  lemma PagesEnough(bytes: nat)
    ensures bytes <= Pages(bytes) * QUEUE_ALIGN < bytes + QUEUE_ALIGN
  {
  }

  /** The three parts do not overlap, the used ring starts a page, and all fit the pages taken. */
  lemma LayoutFits(q: nat)
    ensures var l := LayoutOf(q);
            && l.avail == 16 * q && l.avail + 6 + 2 * q <= l.used && l.used % QUEUE_ALIGN == 0
            && l.used + 6 + 8 * q <= l.pages * QUEUE_ALIGN < l.used + 6 + 8 * q + QUEUE_ALIGN
  {
    hide AlignUp, Pages;
    AlignUpPage(16 * q + 6 + 2 * q);
    PagesEnough(LayoutOf(q).used + 6 + 8 * q);
  }

  // --- wrapping indices ---

  function Index(n: nat): nat { n % WRAP }

  /** A slot number computed from a wrapped index is the slot of the count itself. */
  lemma SlotOf(n: nat, q: nat)
    requires GoodSize(q)
    ensures Index(n) % q == n % q
  {
    var k, w := n / WRAP, WRAP / q;
    assert WRAP == w * q by { DivExact(WRAP, q); }
    Multiple(n % WRAP, k * w, q);
    assert n == WRAP * k + n % WRAP;
    assert WRAP * k == k * w * q;
  }

  lemma DivExact(a: nat, q: nat)
    requires q > 0 && a % q == 0
    ensures a == a / q * q
  {
  }

  lemma AtLeast(q: nat, d: int)
    requires q > 0
    ensures d >= 1 ==> q * d >= q
    ensures d <= -1 ==> q * d + q <= 0
  {
  }

  /** Quotient and remainder are unique. */
  lemma Remainder(a: int, q: nat, k: int, r: nat)
    requires r < q && a == q * k + r
    ensures a % q == r
  {
    var d := k - a / q;
    assert q * d == q * k - q * (a / q);
    assert a == q * (a / q) + a % q;
    AtLeast(q, d);
  }

  lemma Multiple(r: nat, m: nat, q: nat)
    requires q > 0
    ensures (r + m * q) % q == r % q
  {
    assert r == q * (r / q) + r % q;
    assert r + m * q == q * (r / q + m) + r % q;
    Remainder(r + m * q, q, r / q + m, r % q);
  }

  /** Counts less than one wrap apart have equal indices only if they are equal. */
  lemma IndexInjective(a: nat, b: nat)
    requires a <= b < a + WRAP
    ensures Index(a) == Index(b) <==> a == b
  {
  }

  /** Counts less than a queue apart have different slots. */
  lemma SlotsApart(a: nat, b: nat, q: nat)
    requires q > 0 && a < b < a + q
    ensures a % q != b % q
  {
    var d := b / q - a / q;
    assert a == q * (a / q) + a % q && b == q * (b / q) + b % q;
    assert q * d == q * (b / q) - q * (a / q);
    AtLeast(q, d);
  }

  // --- the ring ---

  datatype Used = Used(id: nat, len: nat)

  ghost function Ids(completed: seq<Used>): seq<nat> {
    seq(|completed|, i requires 0 <= i < |completed| => completed[i].id)
  }

  /** Buffers the device has taken from the available ring and not completed. */
  ghost function Owned(posted: seq<nat>, fetched: nat, completed: seq<Used>): multiset<nat>
    requires fetched <= |posted|
  {
    multiset(posted[..fetched]) - multiset(Ids(completed))
  }

  /** The device completed only what it had taken, each buffer as often as it was posted. */
  ghost predicate Honest(posted: seq<nat>, fetched: nat, completed: seq<Used>) {
    fetched <= |posted| && multiset(Ids(completed)) <= multiset(posted[..fetched])
  }

  lemma OwnedPush(posted: seq<nat>, head: nat, fetched: nat, completed: seq<Used>)
    requires Honest(posted, fetched, completed)
    ensures Honest(posted + [head], fetched, completed)
    ensures Owned(posted + [head], fetched, completed) == Owned(posted, fetched, completed)
  {
    assert (posted + [head])[..fetched] == posted[..fetched];
  }

  lemma OwnedFetch(posted: seq<nat>, fetched: nat, completed: seq<Used>)
    requires Honest(posted, fetched, completed) && fetched < |posted|
    ensures Honest(posted, fetched + 1, completed)
    ensures Owned(posted, fetched + 1, completed) == Owned(posted, fetched, completed) + multiset{posted[fetched]}
  {
    assert posted[..fetched + 1] == posted[..fetched] + [posted[fetched]];
    FetchMore(multiset(posted[..fetched]), multiset(Ids(completed)), posted[fetched]);
  }

  lemma FetchMore(taken: multiset<nat>, done: multiset<nat>, x: nat)
    requires done <= taken
    ensures taken + multiset{x} - done == taken - done + multiset{x} && done <= taken + multiset{x}
  {
  }

  lemma OwnedComplete(posted: seq<nat>, fetched: nat, completed: seq<Used>, u: Used)
    requires Honest(posted, fetched, completed) && u.id in Owned(posted, fetched, completed)
    ensures Honest(posted, fetched, completed + [u]) && |completed| < fetched
    ensures Owned(posted, fetched, completed + [u]) == Owned(posted, fetched, completed) - multiset{u.id}
  {
    IdsMore(completed, u);
    OwnedRoom(posted, fetched, completed, u.id);
    DoneMore(multiset(posted[..fetched]), multiset(Ids(completed)), u.id);
  }

  lemma DoneMore(taken: multiset<nat>, done: multiset<nat>, x: nat)
    requires done <= taken && x in taken - done
    ensures done + multiset{x} <= taken && taken - (done + multiset{x}) == taken - done - multiset{x}
  {
  }

  /** Ring memory holds the last `q` entries of the history. */
  ghost predicate Recent<T>(ring: seq<T>, history: seq<T>, q: nat) {
    |ring| == q > 0 && forall j :: 0 <= j < |history| && |history| - q <= j ==> ring[j % q] == history[j]
  }

  lemma RecentMore<T>(ring: seq<T>, history: seq<T>, q: nat, x: T)
    requires Recent(ring, history, q)
    ensures Recent(ring[|history| % q := x], history + [x], q)
  {
    var ring', h' := ring[|history| % q := x], history + [x];
    forall j | 0 <= j < |h'| && |h'| - q <= j ensures ring'[j % q] == h'[j] {
      if j < |history| { SlotsApart(j, |history|, q); }
    }
  }

  class Ring {
    const size: nat
    /** Shared memory: the available ring and its index, the used ring and its index. */
    var avail: seq<nat>
    var availIdx: nat
    var used: seq<Used>
    var usedIdx: nat
    /** The driver's own: how far it has read the used ring. */
    var lastUsed: nat
    /** The device's own: how far it has read the available ring, and the buffers it holds. */
    var deviceIdx: nat
    var held: multiset<nat>

    /** Everything ever posted and completed, and how much of it the other side has taken. */
    ghost var posted: seq<nat>
    ghost var fetched: nat
    ghost var completed: seq<Used>
    ghost var consumed: nat

    /** At most a queue's worth is under way, so no entry is overwritten before the other side took it. */
    ghost predicate Valid()
      reads this
    {
      && GoodSize(size) && consumed <= |completed| <= fetched <= |posted| <= consumed + size
      && availIdx == Index(|posted|) && usedIdx == Index(|completed|) && lastUsed == Index(consumed)
      && deviceIdx == Index(fetched) && held == Owned(posted, fetched, completed)
      && Recent(avail, posted, size) && Recent(used, completed, size)
      && Honest(posted, fetched, completed)
    }

    constructor (q: nat)
      requires GoodSize(q)
      ensures Valid() && size == q && posted == [] && fetched == 0 && completed == [] && consumed == 0
    {
      size := q;
      avail, used := seq(q, _ => 0), seq(q, _ => Used(0, 0));
      availIdx, usedIdx, lastUsed, deviceIdx := 0, 0, 0, 0;
      held := multiset{};
      posted, fetched, completed, consumed := [], 0, [], 0;
    }

    /** Gives a buffer to the device; the new index is how many were ever given, wrapped. */
    method PushAvail(head: nat) returns (idx: nat)
      requires Valid() && |posted| < consumed + size
      modifies this`avail, this`availIdx, this`posted
      ensures Valid() && posted == old(posted) + [head] && idx == Index(|posted|)
    {
      hide Owned, Honest;
      SlotOf(|posted|, size);
      IndexNext(|posted|);
      RecentMore(avail, posted, size, head);
      OwnedPush(posted, head, fetched, completed);
      hide Recent, Owned, Honest;
      avail := avail[availIdx % size := head];
      availIdx := (availIdx + 1) % WRAP;
      posted := posted + [head];
      idx := availIdx;
    }

    /** The next completion the driver has not seen, if any. */
    method TakeUsed() returns (r: Option<Used>)
      requires Valid()
      modifies this`lastUsed, this`consumed
      ensures Valid()
      ensures if old(consumed) < |completed| then r == Some(completed[old(consumed)]) && consumed == old(consumed) + 1
              else r == None && consumed == old(consumed)
    {
      hide Owned, Honest;
      IndexInjective(consumed, |completed|);
      SlotOf(consumed, size);
      IndexNext(consumed);
      if usedIdx == lastUsed { return None; }
      r := Some(used[lastUsed % size]);
      lastUsed := (lastUsed + 1) % WRAP;
      consumed := consumed + 1;
    }

    /** The device takes the next available buffer, if any: always the one posted at that position. */
    method Fetch() returns (head: Option<nat>)
      requires Valid()
      modifies this`deviceIdx, this`fetched, this`held
      ensures Valid()
      ensures if old(fetched) < |posted| then head == Some(posted[old(fetched)]) && fetched == old(fetched) + 1
              else head == None && fetched == old(fetched)
    {
      hide Owned, Honest;
      IndexInjective(fetched, |posted|);
      SlotOf(fetched, size);
      IndexNext(fetched);
      if deviceIdx == availIdx { return None; }
      head := Some(avail[deviceIdx % size]);
      deviceIdx := (deviceIdx + 1) % WRAP;
      OwnedFetch(posted, fetched, completed);
      held := held + multiset{head.value};
      fetched := fetched + 1;
    }

    /** The device completes a buffer it has taken. */
    method Complete(u: Used)
      requires Valid() && u.id in held
      modifies this`used, this`usedIdx, this`completed, this`held
      ensures Valid() && completed == old(completed) + [u]
    {
      hide Owned, Honest;
      OwnedComplete(posted, fetched, completed, u);
      SlotOf(|completed|, size);
      IndexNext(|completed|);
      RecentMore(used, completed, size, u);
      used := used[usedIdx % size := u];
      usedIdx := (usedIdx + 1) % WRAP;
      completed := completed + [u];
      held := held - multiset{u.id};
    }
  }

  lemma IndexNext(n: nat)
    ensures Index(n + 1) == (Index(n) + 1) % WRAP
  {
  }

  lemma IdsMore(completed: seq<Used>, u: Used)
    ensures Ids(completed + [u]) == Ids(completed) + [u.id]
  {
  }

  /** A device that owns a buffer has completed fewer than it took. */
  lemma OwnedRoom(posted: seq<nat>, fetched: nat, completed: seq<Used>, id: nat)
    requires fetched <= |posted| && multiset(Ids(completed)) <= multiset(posted[..fetched])
    requires id in Owned(posted, fetched, completed)
    ensures |completed| < fetched
  {
    var taken, done := multiset(posted[..fetched]), multiset(Ids(completed));
    assert taken == done + (taken - done);
    assert |taken| == fetched && |done| == |completed|;
  }
}
