/** Descriptor tables and pipes: counted ends, bytes in order, readers that never sleep for nothing. */
module Pipes {
  import opened Basics

  const MAX_FDS := 16
  const EBADF := 9
  const EFAULT := 14
  const EINVAL := 22
  const EMFILE := 24
  const EPIPE := 32

  /** What a descriptor leads to; files and sockets matter here only by not being pipe ends. */
  datatype Fd = Console | Vga | Serial | Other(id: nat) | ReadEnd(pipe: nat) | WriteEnd(pipe: nat)

  type Slot = Option<Fd>
  type Table = seq<Slot>

  datatype Pipe = Pipe(data: seq<byte>, readers: nat, writers: nat)

  predicate IsEnd(e: Fd) { e.ReadEnd? || e.WriteEnd? }

  // --- where ends are ---

  datatype Place = Place(key: nat, slot: nat)

  ghost predicate Has(tables: map<nat, Table>, x: Place, e: Fd) {
    x.key in tables && x.slot < |tables[x.key]| && tables[x.key][x.slot] == Some(e)
  }

  ghost function Where(tables: map<nat, Table>, e: Fd): (s: set<Place>)
    ensures forall x :: x in s <==> Has(tables, x, e)
  {
    set k, i | k in tables && 0 <= i < |tables[k]| && tables[k][i] == Some(e) :: Place(k, i)
  }

  ghost function Held(slot: Slot, e: Fd): nat { if slot == Some(e) then 1 else 0 }

  lemma DifferAt(a: set<Place>, b: set<Place>, x: Place)
    requires a - {x} == b - {x}
    ensures |b| + (if x in a then 1 else 0) == |a| + (if x in b then 1 else 0)
  {
    assert x in a ==> a == (a - {x}) + {x};
    assert x in b ==> b == (b - {x}) + {x};
    assert x !in a ==> a == a - {x};
    assert x !in b ==> b == b - {x};
  }

  lemma WhereDiffer(a: map<nat, Table>, b: map<nat, Table>, e: Fd, x: Place)
    requires forall y :: y != x ==> (Has(a, y, e) <==> Has(b, y, e))
    ensures |Where(b, e)| + (if Has(a, x, e) then 1 else 0) == |Where(a, e)| + (if Has(b, x, e) then 1 else 0)
  {
    hide Where, Has;
    assert Where(a, e) - {x} == Where(b, e) - {x};
    DifferAt(Where(a, e), Where(b, e), x);
  }

  lemma SlotCount(tables: map<nat, Table>, k: nat, i: nat, slot: Slot, e: Fd)
    requires k in tables && i < |tables[k]|
    ensures |Where(tables[k := tables[k][i := slot]], e)| + Held(tables[k][i], e) == |Where(tables, e)| + Held(slot, e)
  {
    hide Where;
    WhereDiffer(tables, tables[k := tables[k][i := slot]], e, Place(k, i));
  }

  lemma PushCount(tables: map<nat, Table>, k: nat, slot: Slot, e: Fd)
    requires k in tables
    ensures |Where(tables[k := tables[k] + [slot]], e)| == |Where(tables, e)| + Held(slot, e)
  {
    hide Where;
    WhereDiffer(tables, tables[k := tables[k] + [slot]], e, Place(k, |tables[k]|));
  }

  lemma SameWhere(a: map<nat, Table>, b: map<nat, Table>, e: Fd)
    requires forall y :: Has(a, y, e) <==> Has(b, y, e)
    ensures Where(a, e) == Where(b, e)
  {
    hide Has;
  }

  // --- the registry as a value ---

  /** Tables by address-space root; pipes; who is blocked reading what. `limbo` holds the ends that are in
      no table at the moment, `written` and `taken` all bytes that ever went into and out of a pipe. */
  datatype Reg = Reg(
    tables: map<nat, Table>, pipes: map<nat, Pipe>, nextPipe: nat, blocked: map<nat, nat>,
    limbo: multiset<Fd>, written: map<nat, seq<byte>>, taken: map<nat, seq<byte>>)

  ghost function Total(r: Reg, e: Fd): nat { |Where(r.tables, e)| + r.limbo[e] }

  ghost predicate CountedAt(r: Reg, p: nat)
    requires p in r.pipes
  {
    && p < r.nextPipe && p in r.written && p in r.taken
    && r.pipes[p].readers == Total(r, ReadEnd(p)) && r.pipes[p].writers == Total(r, WriteEnd(p))
    && r.written[p] == r.taken[p] + r.pipes[p].data
  }

  /** Counters are the number of ends, and bytes come out as they went in. */
  ghost predicate Counts(r: Reg) {
    forall p :: p in r.pipes ==> CountedAt(r, p)
  }

  ghost predicate KnownEnd(r: Reg, e: Fd) { IsEnd(e) ==> e.pipe in r.pipes }

  ghost predicate Known(r: Reg) {
    && (forall x, e :: Has(r.tables, x, e) ==> KnownEnd(r, e))
    && (forall e :: e in r.limbo ==> IsEnd(e) && KnownEnd(r, e))
  }

  /** A blocked reader's pipe is empty and still has a writer. */
  ghost predicate Awake(r: Reg) {
    forall k :: k in r.blocked ==>
      r.blocked[k] in r.pipes && r.pipes[r.blocked[k]].data == [] && r.pipes[r.blocked[k]].writers > 0
  }

  ghost predicate Sized(r: Reg) {
    forall k :: k in r.tables ==> |r.tables[k]| <= MAX_FDS
  }

  ghost predicate Sound(r: Reg) { Counts(r) && Known(r) && Awake(r) && Sized(r) }

  /** Only reads and writes change what is in the pipes. */
  ghost predicate SameBytes(r: Reg, r': Reg) {
    && r'.pipes.Keys == r.pipes.Keys && (forall p :: p in r.pipes ==> r'.pipes[p].data == r.pipes[p].data)
    && r'.nextPipe == r.nextPipe && r'.written == r.written && r'.taken == r.taken
    && (r'.blocked == r.blocked || r'.blocked == map[])
  }

  lemma SameBytesTwice(a: Reg, b: Reg, c: Reg)
    requires SameBytes(a, b) && SameBytes(b, c)
    ensures SameBytes(a, c)
  {
  }

  /** Moving ends around changes no total. */
  lemma MoveKeeps(r: Reg, r': Reg)
    requires Sound(r) && r' == r.(tables := r'.tables, limbo := r'.limbo) && Known(r') && Sized(r')
    requires forall e :: IsEnd(e) ==> Total(r', e) == Total(r, e)
    ensures Sound(r') && SameBytes(r, r')
  {
    hide Total, Known, Sized;
    forall p | p in r'.pipes ensures CountedAt(r', p) { assert CountedAt(r, p); }
  }

  lemma SizedSame(r: Reg, r': Reg)
    requires Sized(r) && r'.tables == r.tables
    ensures Sized(r')
  {
  }

  // --- one end ---

  function Cloned(r: Reg, e: Fd): Reg
    requires KnownEnd(r, e)
  {
    if !IsEnd(e) then r else
    var b := r.pipes[e.pipe];
    r.(
      pipes := r.pipes[e.pipe := if e.ReadEnd? then b.(readers := b.readers + 1) else b.(writers := b.writers + 1)],
      limbo := r.limbo + multiset{e})
  }

  lemma CloneKeeps(r: Reg, e: Fd)
    requires Sound(r) && KnownEnd(r, e)
    ensures Sound(Cloned(r, e)) && SameBytes(r, Cloned(r, e))
  {
    hide Where, Known, Counts, Sized;
    var r' := Cloned(r, e);
    KnownPipes(r, r');
    CloneCounts(r, e);
    SizedSame(r, r');
  }

  lemma CloneCounts(r: Reg, e: Fd)
    requires Counts(r) && KnownEnd(r, e)
    ensures Counts(Cloned(r, e))
  {
    hide Where;
    var r' := Cloned(r, e);
    forall p | p in r'.pipes ensures CountedAt(r', p) {
      assert CountedAt(r, p);
      assert Total(r', ReadEnd(p)) == Total(r, ReadEnd(p)) + (if e == ReadEnd(p) then 1 else 0);
      assert Total(r', WriteEnd(p)) == Total(r, WriteEnd(p)) + (if e == WriteEnd(p) then 1 else 0);
    }
  }

  lemma KnownPipes(r: Reg, r': Reg)
    requires Known(r) && r'.tables == r.tables && r'.pipes.Keys == r.pipes.Keys
    requires forall e :: e in r'.limbo && e !in r.limbo ==> IsEnd(e) && KnownEnd(r, e)
    ensures Known(r')
  {
    forall x, e | Has(r'.tables, x, e) ensures KnownEnd(r', e) {
      assert Has(r.tables, x, e);
      assert KnownEnd(r, e);
    }
    forall e | e in r'.limbo ensures IsEnd(e) && KnownEnd(r', e) {
      assert KnownEnd(r, e);
    }
  }

  /** The last end to go wakes everybody. */
  function Dropped(r: Reg, e: Fd): Reg
    requires KnownEnd(r, e)
    requires e.ReadEnd? ==> r.pipes[e.pipe].readers > 0
    requires e.WriteEnd? ==> r.pipes[e.pipe].writers > 0
  {
    if !IsEnd(e) then r else
    var b := r.pipes[e.pipe];
    var b' := if e.ReadEnd? then b.(readers := b.readers - 1) else b.(writers := b.writers - 1);
    r.(
      pipes := r.pipes[e.pipe := b'], limbo := r.limbo - multiset{e},
      blocked := if (if e.ReadEnd? then b'.readers else b'.writers) == 0 then map[] else r.blocked)
  }

  lemma CanDrop(r: Reg, e: Fd)
    requires Sound(r) && (IsEnd(e) ==> e in r.limbo)
    ensures KnownEnd(r, e)
    ensures e.ReadEnd? ==> r.pipes[e.pipe].readers > 0
    ensures e.WriteEnd? ==> r.pipes[e.pipe].writers > 0
  {
    hide Where;
    if IsEnd(e) {
      assert KnownEnd(r, e);
      assert CountedAt(r, e.pipe);
    }
  }

  lemma DropKeeps(r: Reg, e: Fd)
    requires Sound(r) && (IsEnd(e) ==> e in r.limbo) && KnownEnd(r, e)
    requires e.ReadEnd? ==> r.pipes[e.pipe].readers > 0
    requires e.WriteEnd? ==> r.pipes[e.pipe].writers > 0
    ensures Sound(Dropped(r, e)) && SameBytes(r, Dropped(r, e))
  {
    hide Where, Known, Counts, Sized;
    var r' := Dropped(r, e);
    KnownPipes(r, r');
    DropCounts(r, e);
    SizedSame(r, r');
  }

  lemma DropCounts(r: Reg, e: Fd)
    requires Counts(r) && (IsEnd(e) ==> e in r.limbo) && KnownEnd(r, e)
    requires e.ReadEnd? ==> r.pipes[e.pipe].readers > 0
    requires e.WriteEnd? ==> r.pipes[e.pipe].writers > 0
    ensures Counts(Dropped(r, e))
  {
    hide Where;
    var r' := Dropped(r, e);
    forall p | p in r'.pipes ensures CountedAt(r', p) {
      assert CountedAt(r, p);
      assert Total(r, ReadEnd(p)) == Total(r', ReadEnd(p)) + (if e == ReadEnd(p) then 1 else 0);
      assert Total(r, WriteEnd(p)) == Total(r', WriteEnd(p)) + (if e == WriteEnd(p) then 1 else 0);
    }
  }

  // --- slots ---

  function Plus(limbo: multiset<Fd>, slot: Slot): multiset<Fd> {
    if slot.Some? && IsEnd(slot.value) then limbo + multiset{slot.value} else limbo
  }

  function Minus(limbo: multiset<Fd>, slot: Slot): multiset<Fd> {
    if slot.Some? && IsEnd(slot.value) then limbo - multiset{slot.value} else limbo
  }

  function TakenOut(r: Reg, k: nat, i: nat): Reg
    requires k in r.tables && i < |r.tables[k]|
  {
    r.(tables := r.tables[k := r.tables[k][i := None]], limbo := Plus(r.limbo, r.tables[k][i]))
  }

  lemma TakeKeeps(r: Reg, k: nat, i: nat)
    requires Sound(r) && k in r.tables && i < |r.tables[k]|
    ensures Sound(TakenOut(r, k, i)) && SameBytes(r, TakenOut(r, k, i))
  {
    hide Where;
    var r' := TakenOut(r, k, i);
    forall e | IsEnd(e) ensures Total(r', e) == Total(r, e) { SlotCount(r.tables, k, i, None, e); }
    forall x, e | Has(r'.tables, x, e) ensures KnownEnd(r', e) {
      assert Has(r.tables, x, e);
      assert KnownEnd(r, e);
    }
    forall e | e in r'.limbo ensures IsEnd(e) && KnownEnd(r', e) {
      if e !in r.limbo {
        assert Has(r.tables, Place(k, i), e);
        assert KnownEnd(r, e);
      }
    }
    hide Total;
    MoveKeeps(r, r');
  }

  lemma KnownMore(r: Reg, r': Reg, at: Place, slot: Slot)
    requires Known(r) && r'.pipes == r.pipes && r'.limbo <= r.limbo
    requires forall x, f :: Has(r'.tables, x, f) ==> x == at || Has(r.tables, x, f)
    requires forall f :: Has(r'.tables, at, f) ==> slot == Some(f)
    requires slot.Some? && IsEnd(slot.value) ==> slot.value in r.limbo
    ensures Known(r')
  {
    hide Has;
    forall x, f | Has(r'.tables, x, f) ensures KnownEnd(r', f) {
      assert Has(r.tables, x, f) ==> KnownEnd(r, f);
      assert f in r.limbo ==> KnownEnd(r, f);
    }
    forall f | f in r'.limbo ensures IsEnd(f) && KnownEnd(r', f) { assert f in r.limbo && KnownEnd(r, f); }
  }

  function PutIn(r: Reg, k: nat, i: nat, slot: Slot): Reg
    requires k in r.tables && i < |r.tables[k]|
  {
    r.(tables := r.tables[k := r.tables[k][i := slot]], limbo := Minus(r.limbo, slot))
  }

  lemma PutTotal(r: Reg, k: nat, i: nat, e: Fd, f: Fd)
    requires k in r.tables && i < |r.tables[k]| && r.tables[k][i] == None && (IsEnd(e) ==> e in r.limbo) && IsEnd(f)
    ensures Total(PutIn(r, k, i, Some(e)), f) == Total(r, f)
  {
    hide Where;
    SlotCount(r.tables, k, i, Some(e), f);
  }

  lemma PutKeeps(r: Reg, k: nat, i: nat, e: Fd)
    requires Sound(r) && k in r.tables && i < |r.tables[k]| && r.tables[k][i] == None && (IsEnd(e) ==> e in r.limbo)
    ensures Sound(PutIn(r, k, i, Some(e))) && SameBytes(r, PutIn(r, k, i, Some(e)))
  {
    hide Where, Total, Counts, Awake, Known;
    var r' := PutIn(r, k, i, Some(e));
    forall f | IsEnd(f) ensures Total(r', f) == Total(r, f) { PutTotal(r, k, i, e, f); }
    assert forall x, f :: Has(r'.tables, x, f) ==> x == Place(k, i) || Has(r.tables, x, f);
    KnownMore(r, r', Place(k, i), Some(e));
    hide Has;
    MoveKeeps(r, r');
  }

  function Pushed(r: Reg, k: nat, slot: Slot): Reg
    requires k in r.tables
  {
    r.(tables := r.tables[k := r.tables[k] + [slot]], limbo := Minus(r.limbo, slot))
  }

  lemma PushKeeps(r: Reg, k: nat, slot: Slot)
    requires Sound(r) && k in r.tables && |r.tables[k]| < MAX_FDS
    requires slot.Some? && IsEnd(slot.value) ==> slot.value in r.limbo
    ensures Sound(Pushed(r, k, slot)) && SameBytes(r, Pushed(r, k, slot))
  {
    hide Where;
    var r' := Pushed(r, k, slot);
    forall f | IsEnd(f) ensures Total(r', f) == Total(r, f) { PushCount(r.tables, k, slot, f); }
    assert forall x, f :: Has(r'.tables, x, f) ==> x == Place(k, |r.tables[k]|) || Has(r.tables, x, f);
    KnownMore(r, r', Place(k, |r.tables[k]|), slot);
    hide Total, Known;
    MoveKeeps(r, r');
  }

  /** Tables with no pipe ends can come and go. */
  ghost predicate NoEnds(table: Table) {
    forall i :: 0 <= i < |table| && table[i].Some? ==> !IsEnd(table[i].value)
  }

  lemma TableKeeps(r: Reg, r': Reg, k: nat)
    requires Sound(r) && r' == r.(tables := r'.tables) && Sized(r')
    requires r'.tables - {k} == r.tables - {k}
    requires (k in r.tables ==> NoEnds(r.tables[k])) && (k in r'.tables ==> NoEnds(r'.tables[k]))
    ensures Sound(r') && SameBytes(r, r')
  {
    hide Where;
    forall x, e | IsEnd(e) ensures Has(r'.tables, x, e) <==> Has(r.tables, x, e) {
      if x.key != k {
        assert x.key in r.tables - {k} <==> x.key in r'.tables - {k};
        assert x.key in r.tables ==> (r.tables - {k})[x.key] == (r'.tables - {k})[x.key];
      }
    }
    forall e | IsEnd(e) ensures Total(r', e) == Total(r, e) { SameWhere(r.tables, r'.tables, e); }
    assert Known(r') by { KnownTables(r, r'); }
    hide Total;
    MoveKeeps(r, r');
  }

  lemma KnownTables(r: Reg, r': Reg)
    requires Known(r) && r'.pipes == r.pipes && r'.limbo == r.limbo
    requires forall x, e :: IsEnd(e) && Has(r'.tables, x, e) ==> Has(r.tables, x, e)
    ensures Known(r')
  {
    forall x, e | Has(r'.tables, x, e) ensures KnownEnd(r', e) {
      if IsEnd(e) { assert Has(r.tables, x, e); assert KnownEnd(r, e); }
    }
    forall e | e in r'.limbo ensures IsEnd(e) && KnownEnd(r', e) { assert KnownEnd(r, e); }
  }

  // --- pipes ---

  function Opened(r: Reg): Reg {
    var p := r.nextPipe;
    r.(
      pipes := r.pipes[p := Pipe([], 1, 1)], nextPipe := p + 1, limbo := r.limbo + multiset{ReadEnd(p), WriteEnd(p)},
      written := r.written[p := []], taken := r.taken[p := []])
  }

  lemma NextUnused(r: Reg)
    requires Counts(r)
    ensures r.nextPipe !in r.pipes
  {
    assert r.nextPipe in r.pipes ==> CountedAt(r, r.nextPipe);
  }

  /** Nothing refers to a pipe that does not exist yet. */
  lemma NoEndsYet(r: Reg, e: Fd)
    requires Sound(r) && IsEnd(e) && e.pipe == r.nextPipe
    ensures Total(r, e) == 0
  {
    NextUnused(r);
    hide Counts, Awake, Sized;
    assert e in r.limbo ==> KnownEnd(r, e);
    assert forall x :: Has(r.tables, x, e) ==> KnownEnd(r, e);
    assert Where(r.tables, e) == {};
  }

  lemma OpenCounts(r: Reg)
    requires Sound(r)
    ensures Counts(Opened(r))
  {
    var r', n := Opened(r), r.nextPipe;
    NoEndsYet(r, ReadEnd(n));
    NoEndsYet(r, WriteEnd(n));
    hide Where, Known, Awake, Sized;
    forall p | p in r'.pipes ensures CountedAt(r', p) {
      assert p in r.pipes ==> CountedAt(r, p);
      assert p != n ==>
          Total(r', ReadEnd(p)) == Total(r, ReadEnd(p)) && Total(r', WriteEnd(p)) == Total(r, WriteEnd(p));
    }
  }

  lemma OpenKnown(r: Reg)
    requires Known(r)
    ensures Known(Opened(r))
  {
    var r' := Opened(r);
    forall x, e | Has(r'.tables, x, e) ensures KnownEnd(r', e) { assert Has(r.tables, x, e) && KnownEnd(r, e); }
    forall e | e in r'.limbo ensures IsEnd(e) && KnownEnd(r', e) { assert e in r.limbo ==> KnownEnd(r, e); }
  }

  lemma OpenKeeps(r: Reg)
    requires Sound(r)
    ensures Sound(Opened(r)) && r.nextPipe !in r.pipes
  {
    NextUnused(r);
    OpenCounts(r);
    OpenKnown(r);
    hide Counts, Known, Where;
  }

  /** Takes the first `n` bytes out. */
  function Drained(r: Reg, p: nat, n: nat): Reg
    requires p in r.pipes && n <= |r.pipes[p].data| && p in r.taken
  {
    var b := r.pipes[p];
    r.(pipes := r.pipes[p := b.(data := b.data[n..])], taken := r.taken[p := r.taken[p] + b.data[..n]])
  }

  /** Puts bytes in, and wakes the readers. */
  function Filled(r: Reg, p: nat, bytes: seq<byte>): Reg
    requires p in r.pipes && p in r.written
  {
    var b := r.pipes[p];
    r.(
      pipes := r.pipes[p := b.(data := b.data + bytes)], written := r.written[p := r.written[p] + bytes],
      blocked := map[])
  }

  /** Changing bytes, not ends. */
  lemma BytesKeep(r: Reg, r': Reg)
    requires Sound(r) && r'.tables == r.tables && r'.limbo == r.limbo && r'.nextPipe == r.nextPipe
    requires r'.pipes.Keys == r.pipes.Keys && Awake(r')
    requires forall p :: p in r.pipes ==>
               && r'.pipes[p].readers == r.pipes[p].readers && r'.pipes[p].writers == r.pipes[p].writers
               && p in r'.written && p in r'.taken && r'.written[p] == r'.taken[p] + r'.pipes[p].data
    ensures Sound(r')
  {
    hide Where;
    forall p | p in r'.pipes ensures CountedAt(r', p) { assert CountedAt(r, p); }
    KnownPipes(r, r');
  }

  lemma DrainKeeps(r: Reg, p: nat, n: nat)
    requires Sound(r) && p in r.pipes && 0 < n <= |r.pipes[p].data| && p in r.taken
    ensures Sound(Drained(r, p, n))
  {
    var r' := Drained(r, p, n);
    forall q | q in r.pipes
      ensures q in r'.written && q in r'.taken && r'.written[q] == r'.taken[q] + r'.pipes[q].data
    {
      assert CountedAt(r, q);
      assert q == p ==> r.pipes[p].data == r.pipes[p].data[..n] + r.pipes[p].data[n..];
    }
    BytesKeep(r, r');
  }

  lemma FillKeeps(r: Reg, p: nat, bytes: seq<byte>)
    requires Sound(r) && p in r.pipes && p in r.written
    ensures Sound(Filled(r, p, bytes))
  {
    var r' := Filled(r, p, bytes);
    forall q | q in r.pipes
      ensures q in r'.written && q in r'.taken && r'.written[q] == r'.taken[q] + r'.pipes[q].data
    {
      assert CountedAt(r, q);
    }
    BytesKeep(r, r');
  }

  lemma BlockKeeps(r: Reg, k: nat, p: nat)
    requires Sound(r) && p in r.pipes && r.pipes[p].data == [] && r.pipes[p].writers > 0
    ensures Sound(r.(blocked := r.blocked[k := p]))
  {
    var r' := r.(blocked := r.blocked[k := p]);
    forall q | q in r.pipes
      ensures q in r'.written && q in r'.taken && r'.written[q] == r'.taken[q] + r'.pipes[q].data
    {
      assert CountedAt(r, q);
    }
    BytesKeep(r, r');
  }

  lemma UnblockKeeps(r: Reg, k: nat)
    requires Sound(r)
    ensures Sound(r.(blocked := r.blocked - {k}))
  {
    var r' := r.(blocked := r.blocked - {k});
    forall q | q in r.pipes
      ensures q in r'.written && q in r'.taken && r'.written[q] == r'.taken[q] + r'.pipes[q].data
    {
      assert CountedAt(r, q);
    }
    BytesKeep(r, r');
  }
}
