/** The network card's two rings: buffers posted for receiving, frames posted for sending. */
module NetRings {
  import opened Basics
  import opened Virtq

  const RX_BUF_COUNT := 8
  const RX_BUF_STRIDE := 2048
  const NET_HDR_LEN := 10
  const TX_BUF_SIZE := 4096
  const SPIN_LIMIT := 100_000_000

  /** What a device may do on its own: take the next buffer, or finish one it holds. */
  datatype Act = Fetch | Finish(u: Used, data: seq<byte>)

  // --- sending ---

  /** A zero header followed by the frame. */
  function Framed(frame: seq<byte>): (s: seq<byte>)
    ensures |s| == NET_HDR_LEN + |frame| && s[NET_HDR_LEN..] == frame
    ensures forall i :: 0 <= i < NET_HDR_LEN ==> s[i] == 0
  {
    seq(NET_HDR_LEN, _ => 0) + frame
  }

  function Least(a: nat, b: nat): nat { if a < b then a else b }

  ghost function First(s: seq<nat>, n: nat): seq<nat> { if n < |s| then s[..n] else s }

  ghost function Sum(s: seq<nat>): nat { if s == [] then 0 else Sum(s[..|s| - 1]) + s[|s| - 1] }

  lemma SumFirst(s: seq<nat>, n: nat)
    ensures Sum(First(s, n + 1)) == Sum(First(s, n)) + if n < |s| then s[n] else 0
    ensures Sum(First(s, 0)) == 0
  {
    if n < |s| { assert First(s, n + 1)[..n] == First(s, n); }
  }

  lemma {:induction false} SumGrows(s: seq<nat>, n: nat, m: nat)
    requires n <= m
    ensures Sum(First(s, n)) <= Sum(First(s, m))
    decreases m
  {
    if n < m {
      SumGrows(s, n, m - 1);
      SumFirst(s, m - 1);
    }
  }

  /** The sending ring. There is one buffer, number 0, so a slot that is filled again before the device came
      to it says what it said; all that matters is how far the wrapped indices are apart. */
  class Sender {
    const size: nat
    /** Shared memory: the available ring, its index, and the index of the used ring. */
    var avail: seq<nat>
    var availIdx: nat
    var usedIdx: nat
    /** The driver's own: how far it has read the used ring. */
    var lastUsed: nat

    /** How many frames were ever posted, completed by the device, and seen completed by the driver. */
    ghost var posted: nat
    ghost var completed: nat
    ghost var consumed: nat

    ghost predicate Valid()
      reads this
    {
      && 0 < size && |avail| == size && (forall i :: 0 <= i < size ==> avail[i] == 0)
      && consumed <= completed <= posted
      && availIdx == Index(posted) && usedIdx == Index(completed) && lastUsed == Index(consumed)
    }

    constructor (q: nat)
      requires 0 < q
      ensures Valid() && size == q && posted == 0
    {
      size, avail := q, seq(q, _ => 0);
      availIdx, usedIdx, lastUsed := 0, 0, 0;
      posted, completed, consumed := 0, 0, 0;
    }

    method PushAvail() returns (idx: nat)
      requires Valid()
      modifies this`avail, this`availIdx, this`posted
      ensures Valid() && posted == old(posted) + 1 && idx == Index(posted)
    {
      IndexNext(posted);
      avail := avail[availIdx % size := 0];
      availIdx := (availIdx + 1) % WRAP;
      posted := posted + 1;
      idx := availIdx;
    }

    /** Takes one completion, unless the two indices agree. */
    method TakeUsed() returns (taken: bool)
      requires Valid()
      modifies this`lastUsed, this`consumed
      ensures Valid() && consumed == old(consumed) + if taken then 1 else 0
      ensures taken <==> Index(old(consumed)) != Index(completed)
    {
      if usedIdx == lastUsed { return false; }
      IndexNext(consumed);
      lastUsed := (lastUsed + 1) % WRAP;
      consumed := consumed + 1;
      taken := true;
    }

    /** The device, whose indices wrap as well, completes some of what it was given. */
    method RunDevice(n: nat)
      requires Valid()
      modifies this`usedIdx, this`completed
      ensures Valid() && completed >= old(completed)
      ensures posted < old(completed) + WRAP ==> completed == Least(old(completed) + n, posted)
    {
      for i := 0 to n
        invariant Valid() && completed >= old(completed)
        invariant posted < old(completed) + WRAP ==> completed == Least(old(completed) + i, posted)
      {
        FarApart(completed, posted);
        if usedIdx != availIdx {
          IndexNext(completed);
          usedIdx := (usedIdx + 1) % WRAP;
          completed := completed + 1;
        }
      }
    }

    /** Posts a frame and waits, up to a limit, for the device to have completed everything posted. The wait
        is for an index: it is for all frames posted as long as fewer than 65536 of them are unseen, and it
        is for none of them when there are exactly that many. `device` says how many frames the device
        completes between one look of the driver and the next; the driver gives up at the first look that
        finds nothing once a hundred million have, and so not while the device keeps up. */
    method Send(frame: seq<byte>, device: seq<nat>) returns (ok: bool, sent: seq<byte>, ghost looks: nat)
      requires Valid()
      modifies this
      ensures Valid()
      ensures |frame| > TX_BUF_SIZE - NET_HDR_LEN ==> !ok && posted == old(posted) && consumed == old(consumed)
      ensures |frame| <= TX_BUF_SIZE - NET_HDR_LEN ==>
                && posted == old(posted) + 1 && sent == Framed(frame)
                && (ok <==> Index(consumed) == Index(posted))
                && (!ok ==> Index(consumed) == Index(completed))
      ensures |frame| <= TX_BUF_SIZE - NET_HDR_LEN && posted < old(consumed) + WRAP ==>
                && (ok <==> consumed == posted) && (!ok ==> consumed == completed)
                && completed == Least(old(completed) + Sum(First(device, looks)), posted)
                && (ok ==> looks <= 100_000_000 + (consumed - old(consumed)))
                && (!ok ==> looks == 100_000_000 + 1 + (consumed - old(consumed)))
                && (old(completed) + Sum(First(device, 100_000_000 + 1)) >= posted ==> ok)
      ensures |frame| <= TX_BUF_SIZE - NET_HDR_LEN && posted == old(consumed) + WRAP ==>
                ok && consumed == old(consumed) && completed == old(completed)
    {
      hide Index;
      sent, looks := [], 0;
      if |frame| > TX_BUF_SIZE - NET_HDR_LEN { return false, sent, looks; }
      sent := Framed(frame);
      ghost var seen := consumed;
      var target := PushAvail();
      FarApart(seen, posted);
      ghost var total, done := posted, completed;
      var spins, round := 0, 0;
      while lastUsed != target
        invariant Valid() && posted == total && seen <= consumed && 0 <= spins <= SPIN_LIMIT && target == Index(total)
        invariant total == seen + WRAP ==> consumed == seen && completed == done && lastUsed == target
        invariant round == spins + consumed - seen && looks == round
        invariant total < seen + WRAP ==> completed == Least(done + Sum(First(device, round)), total)
        decreases SPIN_LIMIT - spins + total - consumed
      {
        SumFirst(device, round);
        if round < |device| { RunDevice(device[round]); }
        round := round + 1;
        looks := round;
        FarApart(consumed, completed);
        var taken := TakeUsed();
        if !taken {
          if spins == SPIN_LIMIT {
            ok := false;
            SumGrows(device, SPIN_LIMIT + 1, round);
            return;
          }
          spins := spins + 1;
        }
      }
      FarApart(consumed, total);
      ok := true;
    }
  }

  /** Wrapped indices less than a whole turn apart agree only when they are equal; a whole turn apart, they
      agree. */
  lemma FarApart(a: nat, b: nat)
    ensures a <= b < a + WRAP ==> (Index(a) == Index(b) <==> a == b)
    ensures b == a + WRAP ==> Index(a) == Index(b)
  {
    if a <= b < a + WRAP { IndexInjective(a, b); }
  }

  /** The frame that is taken for sent: with 65535 frames unseen, one more reports success though the device
      has done nothing. */
  method SilentDevice(tx: Sender, frame: seq<byte>) returns (ok: bool)
    requires tx.Valid() && tx.posted == tx.consumed + WRAP - 1 && |frame| <= TX_BUF_SIZE - NET_HDR_LEN
    modifies tx
    ensures ok && tx.completed == old(tx.completed) < tx.posted
  {
    var sent;
    ghost var looks;
    ok, sent, looks := tx.Send(frame, []);
  }

  // --- receiving ---

  /** The buffer numbers, once each. */
  ghost function AllBuffers(): multiset<nat> { multiset{0, 1, 2, 3, 4, 5, 6, 7} }

  lemma BuffersOnce(id: nat)
    ensures AllBuffers()[id] == if id < RX_BUF_COUNT then 1 else 0
  {
  }

  /** Whatever the driver has not seen completed is each buffer exactly once. */
  ghost predicate EachOnce(posted: seq<nat>, completed: seq<Used>, consumed: nat) {
    consumed <= |completed| && multiset(posted) == multiset(Ids(completed[..consumed])) + AllBuffers()
  }

  lemma IdsSplit(completed: seq<Used>, c: nat, id: nat)
    requires c <= |completed|
    ensures multiset(Ids(completed))[id] == multiset(Ids(completed[..c]))[id] + multiset(Ids(completed[c..]))[id]
  {
    assert Ids(completed) == Ids(completed[..c]) + Ids(completed[c..]);
  }

  lemma PrefixCount(posted: seq<nat>, fetched: nat, id: nat)
    requires fetched <= |posted|
    ensures multiset(posted[..fetched])[id] <= multiset(posted)[id]
  {
    assert posted == posted[..fetched] + posted[fetched..];
  }

  /** A buffer the device holds is no completion the driver still has to look at. */
  lemma HeldApart(posted: seq<nat>, fetched: nat, completed: seq<Used>, consumed: nat, id: nat)
    requires EachOnce(posted, completed, consumed) && Honest(posted, fetched, completed)
    requires id in Owned(posted, fetched, completed)
    ensures id < RX_BUF_COUNT && forall j :: consumed <= j < |completed| ==> completed[j].id != id
  {
    IdsSplit(completed, consumed, id);
    PrefixCount(posted, fetched, id);
    BuffersOnce(id);
    hide AllBuffers;
    var rest := completed[consumed..];
    assert multiset(Ids(rest))[id] == 0;
    forall j | consumed <= j < |completed| ensures completed[j].id != id {
      assert Ids(rest)[j - consumed] == completed[j].id;
    }
  }

  /** Completions the driver still has to look at are of different buffers. */
  lemma PendingApart(posted: seq<nat>, fetched: nat, completed: seq<Used>, consumed: nat)
    requires EachOnce(posted, completed, consumed) && Honest(posted, fetched, completed) && consumed < |completed|
    ensures completed[consumed].id < RX_BUF_COUNT
    ensures forall j :: consumed < j < |completed| ==> completed[j].id != completed[consumed].id
  {
    var id, rest := completed[consumed].id, completed[consumed..];
    IdsSplit(completed, consumed, id);
    PrefixCount(posted, fetched, id);
    BuffersOnce(id);
    hide AllBuffers;
    assert multiset(Ids(completed))[id] <= multiset(posted[..fetched])[id];
    assert Ids(rest) == [id] + Ids(rest[1..]);
    assert multiset(Ids(rest[1..]))[id] == 0;
    forall j | consumed < j < |completed| ensures completed[j].id != id {
      assert Ids(rest[1..])[j - consumed - 1] == completed[j].id;
    }
  }

  /** Seeing one completion and posting its buffer again. */
  lemma Reposted(posted: seq<nat>, completed: seq<Used>, consumed: nat)
    requires EachOnce(posted, completed, consumed) && consumed < |completed|
    ensures EachOnce(posted + [completed[consumed].id], completed, consumed + 1)
  {
    IdsMore(completed[..consumed], completed[consumed]);
    assert completed[..consumed + 1] == completed[..consumed] + [completed[consumed]];
  }

  lemma EachOnceCount(posted: seq<nat>, completed: seq<Used>, consumed: nat)
    requires EachOnce(posted, completed, consumed)
    ensures |posted| == consumed + RX_BUF_COUNT
  {
    assert |multiset(posted)| == |posted| && |multiset(Ids(completed[..consumed]))| == consumed;
  }

  datatype Desc = Desc(addr: nat, len: nat, deviceWrites: bool)

  function BufferDesc(base: nat, id: nat): Desc { Desc(base + id * RX_BUF_STRIDE, RX_BUF_STRIDE, true) }

  /** A completed buffer keeps what the device put there until the driver has read it. */
  ghost predicate Intact(buffers: seq<seq<byte>>, completed: seq<Used>, consumed: nat, wrote: seq<seq<byte>>) {
    && |wrote| == |completed|
    && forall j :: consumed <= j < |completed| ==>
         completed[j].id < |buffers| && buffers[completed[j].id] == wrote[j]
  }

  lemma IntactMore(
    buffers: seq<seq<byte>>, completed: seq<Used>, consumed: nat, wrote: seq<seq<byte>>, u: Used, data: seq<byte>)
    requires Intact(buffers, completed, consumed, wrote) && u.id < |buffers|
    requires forall j :: consumed <= j < |completed| ==> completed[j].id != u.id
    ensures Intact(buffers[u.id := data], completed + [u], consumed, wrote + [data])
  {
  }

  lemma EachOnceMore(posted: seq<nat>, completed: seq<Used>, consumed: nat, u: Used)
    requires EachOnce(posted, completed, consumed)
    ensures EachOnce(posted, completed + [u], consumed)
  {
    assert (completed + [u])[..consumed] == completed[..consumed];
  }

  lemma RingFacts(ring: Ring)
    requires ring.Valid()
    ensures Honest(ring.posted, ring.fetched, ring.completed) && ring.consumed <= |ring.completed|
    ensures ring.held == Owned(ring.posted, ring.fetched, ring.completed)
  {
  }

  ghost predicate Buffers(buffers: seq<seq<byte>>) {
    |buffers| == RX_BUF_COUNT && forall i :: 0 <= i < RX_BUF_COUNT ==> |buffers[i]| == RX_BUF_STRIDE
  }

  ghost predicate Described(descs: seq<Desc>, base: nat) {
    |descs| == RX_BUF_COUNT && forall i :: 0 <= i < RX_BUF_COUNT ==> descs[i] == BufferDesc(base, i)
  }

  /** The buffers the device is given are 2048 bytes each, for it to write, one after the other and apart. */
  lemma BuffersApart(descs: seq<Desc>, base: nat, i: nat, j: nat)
    requires Described(descs, base) && i < j < 8
    ensures descs[i] == Desc(base + 2048 * i, 2048, true) && descs[j] == Desc(base + 2048 * j, 2048, true)
    ensures base <= descs[i].addr && descs[i].addr + 2048 <= descs[j].addr && descs[j].addr + 2048 <= base + 0x4000
  {
    assert descs[i] == BufferDesc(base, i) && descs[j] == BufferDesc(base, j);
  }

  class Receiver {
    const ring: Ring
    const base: nat
    var descs: seq<Desc>
    /** Buffer memory, written by the device. */
    var buffers: seq<seq<byte>>
    /** What each completed buffer held when the device completed it. */
    ghost var wrote: seq<seq<byte>>

    ghost predicate Valid()
      reads this, ring
    {
      && ring.Valid() && ring.size >= RX_BUF_COUNT && EachOnce(ring.posted, ring.completed, ring.consumed)
      && Buffers(buffers) && Described(descs, base) && Intact(buffers, ring.completed, ring.consumed, wrote)
    }

    /** Start-up: every buffer is posted, in order. */
    constructor (q: nat, base: nat)
      requires GoodSize(q) && q >= RX_BUF_COUNT
      ensures Valid() && fresh(ring) && ring.consumed == 0 && ring.completed == []
    {
      hide Recent, Owned, Honest;
      var r := new Ring(q);
      var table := PostAll(r, base);
      ring, this.base, descs := r, base, table;
      buffers := seq(RX_BUF_COUNT, _ => seq(RX_BUF_STRIDE, _ => 0));
      wrote := [];
    }

    /** The device runs for a while: it may fill and complete any buffer it holds. */
    method RunDevice(acts: seq<Act>)
      requires Valid()
      modifies this, ring
      ensures Valid() && ring.posted == old(ring.posted) && ring.consumed == old(ring.consumed)
      ensures old(ring.completed) <= ring.completed && old(wrote) <= wrote
    {
      hide Ring.Valid, EachOnce, Intact, Buffers, Described;
      for i := 0 to |acts|
        invariant Valid() && ring.posted == old(ring.posted) && ring.consumed == old(ring.consumed)
        invariant old(ring.completed) <= ring.completed && old(wrote) <= wrote
      {
        match acts[i] {
          case Fetch => var _ := ring.Fetch();
          case Finish(u, data) => if u.id in ring.held && |data| == RX_BUF_STRIDE { Deliver(u, data); }
        }
      }
    }

    /** The device fills a buffer it holds and completes it. */
    method Deliver(u: Used, data: seq<byte>)
      requires Valid() && u.id in ring.held && |data| == RX_BUF_STRIDE
      modifies this, ring
      ensures Valid() && ring.posted == old(ring.posted) && ring.consumed == old(ring.consumed)
      ensures ring.completed == old(ring.completed) + [u] && wrote == old(wrote) + [data]
    {
      hide Ring.Valid, EachOnce, Intact, Described, Honest, Owned;
      RingFacts(ring);
      HeldApart(ring.posted, ring.fetched, ring.completed, ring.consumed, u.id);
      IntactMore(buffers, ring.completed, ring.consumed, wrote, u, data);
      EachOnceMore(ring.posted, ring.completed, ring.consumed, u);
      buffers := buffers[u.id := data];
      ring.Complete(u);
      wrote := wrote + [data];
    }

    /** The oldest frame not yet received, cut to fit; its buffer goes back to the device. */
    method Recv(capacity: nat) returns (r: Option<seq<byte>>)
      requires Valid()
      modifies this, ring
      ensures Valid() && ring.completed == old(ring.completed) && wrote == old(wrote) && |wrote| == |ring.completed|
      ensures old(ring.consumed) == |ring.completed| ==>
                r == None && ring.posted == old(ring.posted) && ring.consumed == old(ring.consumed)
      ensures old(ring.consumed) < |ring.completed| ==>
                && ring.consumed == old(ring.consumed) + 1
                && ring.posted == old(ring.posted) + [ring.completed[old(ring.consumed)].id]
                && |wrote[old(ring.consumed)]| == RX_BUF_STRIDE
                && r == Some(FrameIn(wrote[old(ring.consumed)], ring.completed[old(ring.consumed)].len, capacity))
    {
      hide Ring.Valid, EachOnce, Honest, Owned, FrameIn;
      RingFacts(ring);
      if ring.consumed < |ring.completed| {
        EachOnceCount(ring.posted, ring.completed, ring.consumed);
        PendingApart(ring.posted, ring.fetched, ring.completed, ring.consumed);
        Reposted(ring.posted, ring.completed, ring.consumed);
      }
      var u := ring.TakeUsed();
      if u.None? { return None; }
      var id := u.value.id;
      r := Some(FrameIn(buffers[id], u.value.len, capacity));
      descs := descs[id := BufferDesc(base, id)];
      var _ := ring.PushAvail(id);
    }
  }

  /** Describes and posts every buffer. */
  method PostAll(r: Ring, base: nat) returns (table: seq<Desc>)
    requires r.Valid() && r.size >= RX_BUF_COUNT && r.posted == [] && r.consumed == 0 && r.completed == []
    modifies r
    ensures r.Valid() && r.consumed == 0 && r.completed == [] && EachOnce(r.posted, r.completed, r.consumed)
    ensures Described(table, base)
  {
    hide Ring.Valid, EachOnce;
    table := [];
    var i := 0;
    while i < RX_BUF_COUNT
      invariant 0 <= i <= RX_BUF_COUNT && r.Valid() && r.posted == seq(i, k => k) && r.consumed == 0
      invariant r.completed == []
      invariant |table| == i && forall k :: 0 <= k < i ==> table[k] == BufferDesc(base, k)
    {
      table := table + [BufferDesc(base, i)];
      var _ := r.PushAvail(i);
      i := i + 1;
    }
    FirstPosts(r.posted, r.completed);
  }

  /** The frame in a buffer: the header is skipped, and lengths are cut to the buffer and to the reader. */
  function FrameIn(buffer: seq<byte>, len: nat, capacity: nat): (f: seq<byte>)
    requires |buffer| == RX_BUF_STRIDE
    ensures |f| == capacity || (|f| < capacity && |f| == if len <= 10 then 0 else if len < 2048 then len - 10 else 2038)
    ensures |f| <= 2038 && (len <= 10 ==> f == []) && (len > 10 ==> |f| <= len - 10)
    ensures forall i :: 0 <= i < |f| ==> f[i] == buffer[10 + i]
  {
    var total := if len < RX_BUF_STRIDE then len else RX_BUF_STRIDE;
    var frameLen := if total < NET_HDR_LEN then 0 else total - NET_HDR_LEN;
    var n := if frameLen < capacity then frameLen else capacity;
    buffer[NET_HDR_LEN..NET_HDR_LEN + n]
  }

  lemma FirstPosts(posted: seq<nat>, completed: seq<Used>)
    requires posted == seq(RX_BUF_COUNT, k => k) && completed == []
    ensures EachOnce(posted, completed, 0)
  {
    assert posted == [0, 1, 2, 3, 4, 5, 6, 7];
    assert Ids(completed[..0]) == [];
  }
}
