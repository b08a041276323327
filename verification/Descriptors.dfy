/** The descriptor system calls over the registry of tables and pipes. */
module Descriptors {
  import opened Basics
  import opened Pipes

  /** The lowest unused descriptor at or after `i`, or the length. */
  function FirstFree(fds: Table, i: nat): (r: nat)
    requires i <= |fds|
    ensures i <= r <= |fds| && (r < |fds| ==> fds[r] == None) && forall j :: i <= j < r ==> fds[j] != None
    decreases |fds| - i
  {
    if i == |fds| || fds[i] == None then i else FirstFree(fds, i + 1)
  }

  function StandardFds(): Table { [Some(Console), Some(Vga), Some(Serial)] }

  /** The table a process works with: its own, or the standard one it gets on first use. */
  function TableOf(tables: map<nat, Table>, k: nat): Table {
    if k in tables then tables[k] else StandardFds()
  }

  /** Slot `i` set, the table made longer if need be. */
  function WithSlot(t: Table, i: nat, slot: Slot): (t': Table)
    ensures |t'| == (if i < |t| then |t| else i + 1) && t'[i] == slot
    ensures forall j :: 0 <= j < |t'| && j != i ==> t'[j] == if j < |t| then t[j] else None
  {
    if i < |t| then t[i := slot] else t + seq(i - |t|, _ => None) + [slot]
  }

  /** The pipe ends in a table. */
  ghost function EndsOf(t: Table): multiset<Fd> {
    if t == [] then multiset{} else Plus(EndsOf(t[..|t| - 1]), t[|t| - 1])
  }

  lemma EndsStep(t: Table, i: nat)
    requires i < |t|
    ensures EndsOf(t[..i + 1]) == Plus(EndsOf(t[..i]), t[i])
  {
    assert t[..i + 1][..i] == t[..i];
  }

  class Registry {
    var tables: map<nat, Table>
    var pipes: map<nat, Pipe>
    var nextPipe: nat
    var blocked: map<nat, nat>
    ghost var limbo: multiset<Fd>
    ghost var written: map<nat, seq<byte>>
    ghost var taken: map<nat, seq<byte>>

    ghost function Now(): Reg
      reads this
    {
      Reg(tables, pipes, nextPipe, blocked, limbo, written, taken)
    }

    /** Between system calls every end is in some table. */
    ghost predicate Valid()
      reads this
    {
      Sound(Now()) && limbo == multiset{}
    }

    constructor ()
      ensures Valid() && tables == map[] && pipes == map[] && blocked == map[]
    {
      tables, pipes, nextPipe, blocked := map[], map[], 0, map[];
      limbo, written, taken := multiset{}, map[], map[];
    }

    // --- single ends and slots ---

    method Clone(e: Fd)
      requires Sound(Now()) && KnownEnd(Now(), e)
      modifies this`pipes, this`limbo
      ensures Sound(Now()) && Now() == Cloned(old(Now()), e) && SameBytes(old(Now()), Now())
    {
      hide Sound, SameBytes;
      CloneKeeps(Now(), e);
      if e.ReadEnd? {
        pipes := pipes[e.pipe := pipes[e.pipe].(readers := pipes[e.pipe].readers + 1)];
        limbo := limbo + multiset{e};
      } else if e.WriteEnd? {
        pipes := pipes[e.pipe := pipes[e.pipe].(writers := pipes[e.pipe].writers + 1)];
        limbo := limbo + multiset{e};
      }
    }

    method DropReader(p: nat)
      requires Sound(Now()) && ReadEnd(p) in limbo
      modifies this`pipes, this`limbo, this`blocked
      ensures Sound(Now()) && SameBytes(old(Now()), Now()) && limbo == old(limbo) - multiset{ReadEnd(p)}
    {
      hide Sound, SameBytes;
      ghost var r0 := Now();
      CanDrop(r0, ReadEnd(p));
      DropKeeps(r0, ReadEnd(p));
      var left := pipes[p].readers - 1;
      pipes := pipes[p := pipes[p].(readers := left)];
      limbo := limbo - multiset{ReadEnd(p)};
      if left == 0 { blocked := map[]; }
      assert Now() == Dropped(r0, ReadEnd(p));
    }

    method DropWriter(p: nat)
      requires Sound(Now()) && WriteEnd(p) in limbo
      modifies this`pipes, this`limbo, this`blocked
      ensures Sound(Now()) && SameBytes(old(Now()), Now()) && limbo == old(limbo) - multiset{WriteEnd(p)}
    {
      hide Sound, SameBytes;
      ghost var r0 := Now();
      CanDrop(r0, WriteEnd(p));
      DropKeeps(r0, WriteEnd(p));
      var left := pipes[p].writers - 1;
      pipes := pipes[p := pipes[p].(writers := left)];
      limbo := limbo - multiset{WriteEnd(p)};
      if left == 0 { blocked := map[]; }
      assert Now() == Dropped(r0, WriteEnd(p));
    }

    method Drop(e: Fd)
      requires Sound(Now()) && (IsEnd(e) ==> e in limbo)
      modifies this`pipes, this`limbo, this`blocked
      ensures Sound(Now()) && SameBytes(old(Now()), Now()) && limbo == Minus(old(limbo), Some(e))
    {
      hide Sound;
      if e.ReadEnd? { DropReader(e.pipe); } else if e.WriteEnd? { DropWriter(e.pipe); }
    }

    method DropSlot(slot: Slot)
      requires Sound(Now()) && (slot.Some? && IsEnd(slot.value) ==> slot.value in limbo)
      modifies this`pipes, this`limbo, this`blocked
      ensures Sound(Now()) && SameBytes(old(Now()), Now()) && limbo == Minus(old(limbo), slot)
    {
      if slot.Some? { Drop(slot.value); }
    }

    method Take(k: nat, i: nat) returns (slot: Slot)
      requires Sound(Now()) && k in tables && i < |tables[k]|
      modifies this`tables, this`limbo
      ensures Sound(Now()) && slot == old(tables)[k][i] && Now() == TakenOut(old(Now()), k, i)
      ensures SameBytes(old(Now()), Now())
    {
      hide Sound, SameBytes;
      TakeKeeps(Now(), k, i);
      slot := tables[k][i];
      limbo := Plus(limbo, tables[k][i]);
      tables := tables[k := tables[k][i := None]];
    }

    method Put(k: nat, i: nat, e: Fd)
      requires Sound(Now()) && k in tables && i < |tables[k]| && tables[k][i] == None && (IsEnd(e) ==> e in limbo)
      modifies this`tables, this`limbo
      ensures Sound(Now()) && Now() == PutIn(old(Now()), k, i, Some(e)) && SameBytes(old(Now()), Now())
    {
      hide Sound, SameBytes;
      PutKeeps(Now(), k, i, e);
      tables := tables[k := tables[k][i := Some(e)]];
      limbo := Minus(limbo, Some(e));
    }

    method Push(k: nat, slot: Slot)
      requires Sound(Now()) && k in tables && |tables[k]| < MAX_FDS
      requires slot.Some? && IsEnd(slot.value) ==> slot.value in limbo
      modifies this`tables, this`limbo
      ensures Sound(Now()) && Now() == Pushed(old(Now()), k, slot) && SameBytes(old(Now()), Now())
    {
      hide Sound, SameBytes;
      PushKeeps(Now(), k, slot);
      tables := tables[k := tables[k] + [slot]];
      limbo := Minus(limbo, slot);
    }

    /** A process without a table gets the standard one. */
    method EnsureTable(k: nat)
      requires Sound(Now())
      modifies this`tables
      ensures Sound(Now()) && tables == old(tables)[k := TableOf(old(tables), k)] && SameBytes(old(Now()), Now())
      ensures |tables[k]| <= MAX_FDS
    {
      ghost var r0 := Now();
      assert k in tables ==> tables == tables[k := tables[k]];
      if k !in tables {
        tables := tables[k := StandardFds()];
        assert tables - {k} == r0.tables - {k};
        TableKeeps(r0, Now(), k);
      }
    }

    /** Puts `e` into the lowest unused descriptor, or drops it if the table is full. */
    method AllocFd(k: nat, e: Fd) returns (r: int)
      requires Sound(Now()) && k in tables && (IsEnd(e) ==> e in limbo)
      modifies this
      ensures Sound(Now()) && SameBytes(old(Now()), Now()) && limbo == Minus(old(limbo), Some(e))
      ensures r >= 0 ==> r == FirstFree(old(tables)[k], 0) < MAX_FDS
      ensures r >= 0 ==> tables == old(tables)[k := WithSlot(old(tables)[k], r, Some(e))]
      ensures r < 0 ==> r == -EMFILE && tables == old(tables) && |tables[k]| == MAX_FDS
      ensures r < 0 ==> forall i :: 0 <= i < |tables[k]| ==> tables[k][i] != None
    {
      hide Sound, SameBytes, FirstFree, Where, Cloned, Dropped;
      SizedAt(Now(), k);
      var fds := tables[k];
      var i := FindFree(fds);
      if i < |fds| {
        Put(k, i, e);
        r := i;
      } else if |fds| < MAX_FDS {
        Push(k, Some(e));
        assert fds + seq(0, _ => None) + [Some(e)] == fds + [Some(e)];
        r := |fds|;
      } else {
        Drop(e);
        r := -EMFILE;
      }
    }

    // --- whole tables ---

    /** Empties a table and forgets its key; its ends are in limbo. */
    method TakeTable(k: nat) returns (t: Table)
      requires Sound(Now()) && k in tables
      modifies this`tables, this`limbo
      ensures Sound(Now()) && t == old(tables)[k] && tables == old(tables) - {k} && limbo == old(limbo) + EndsOf(t)
      ensures SameBytes(old(Now()), Now())
    {
      hide Sound, SameBytes, Where, EndsOf, Blanked, Plus;
      ghost var r0 := Now();
      SameBytesSelf(r0);
      t := tables[k];
      NoEndsIn(t);
      BlankNone(t);
      var i := 0;
      while i < |t|
        invariant 0 <= i <= |t| && Sound(Now()) && SameBytes(r0, Now())
        invariant k in tables && tables[k] == Blanked(t, i) && tables == r0.tables[k := tables[k]]
        invariant limbo == r0.limbo + EndsOf(t[..i])
      {
        ghost var r1 := Now();
        BlankStep(t, i);
        PlusStep(r0.limbo, t, i);
        var _ := Take(k, i);
        SameBytesTwice(r0, r1, Now());
        i := i + 1;
      }
      assert t[..|t|] == t;
      ghost var r1 := Now();
      BlankAll(t);
      tables := tables - {k};
      Emptied(r1, Now(), k);
      SameBytesTwice(r0, r1, Now());
    }

    /** Puts a table whose ends are in limbo under a new key. */
    method PutTable(k: nat, t: Table)
      requires Sound(Now()) && k !in tables && |t| <= MAX_FDS && EndsOf(t) <= limbo
      modifies this`tables, this`limbo
      ensures Sound(Now()) && tables == old(tables)[k := t] && limbo == old(limbo) - EndsOf(t)
      ensures SameBytes(old(Now()), Now())
    {
      hide Sound, SameBytes, Where, EndsOf, Minus, KnownEnd, PutSoFar, Pushed;
      ghost var r0 := Now();
      tables := tables[k := []];
      PutStart(r0, Now(), k, t);
      var i := 0;
      while i < |t|
        invariant 0 <= i <= |t| && Sound(Now()) && SameBytes(r0, Now()) && PutSoFar(r0, Now(), k, t, i)
      {
        ghost var r1 := Now();
        PutStep(r0, r1, k, t, i);
        Push(k, t[i]);
        SameBytesTwice(r0, r1, Now());
        i := i + 1;
      }
      PutDone(r0, Now(), k, t);
    }

    /** Drops every end of a table that is in limbo. */
    method DropTable(t: Table)
      requires Sound(Now()) && EndsOf(t) <= limbo
      modifies this`pipes, this`limbo, this`blocked
      ensures Sound(Now()) && limbo == old(limbo) - EndsOf(t) && SameBytes(old(Now()), Now())
    {
      hide Sound, SameBytes, EndsOf, Minus;
      NoEndsIn(t);
      ghost var r0 := Now();
      SameBytesSelf(r0);
      var i := 0;
      while i < |t|
        invariant 0 <= i <= |t| && Sound(Now()) && SameBytes(r0, Now())
        invariant limbo == r0.limbo - EndsOf(t[..i])
      {
        ghost var r1 := Now();
        MinusStep(r0.limbo, t, i);
        DropSlot(t[i]);
        SameBytesTwice(r0, r1, Now());
        i := i + 1;
      }
      assert t[..|t|] == t;
    }

    /** Another reference to every end of a table. */
    method CloneTable(t: Table)
      requires Sound(Now()) && forall i :: 0 <= i < |t| && t[i].Some? ==> KnownEnd(Now(), t[i].value)
      modifies this`pipes, this`limbo
      ensures Sound(Now()) && limbo == old(limbo) + EndsOf(t) && SameBytes(old(Now()), Now())
    {
      hide Sound, SameBytes, EndsOf;
      NoEndsIn(t);
      ghost var r0 := Now();
      SameBytesSelf(r0);
      var i := 0;
      while i < |t|
        invariant 0 <= i <= |t| && Sound(Now()) && SameBytes(r0, Now()) && limbo == r0.limbo + EndsOf(t[..i])
      {
        ghost var r1 := Now();
        EndsStep(t, i);
        if t[i].Some? {
          StillKnown(r0, r1, t[i].value);
          Clone(t[i].value);
          SameBytesTwice(r0, r1, Now());
        }
        i := i + 1;
      }
      assert t[..|t|] == t;
    }

    // --- system calls ---

    method SysClose(k: nat, fd: nat) returns (r: int)
      requires Valid()
      modifies this
      ensures Valid() && SameBytes(old(Now()), Now())
      ensures At(TableOf(old(tables), k), fd) == None ==>
                r == -EBADF && tables == old(tables)[k := TableOf(old(tables), k)]
      ensures At(TableOf(old(tables), k), fd) != None ==>
                r == 0 && tables == old(tables)[k := TableOf(old(tables), k)[fd := None]]
    {
      hide Sound, SameBytes;
      ghost var r0 := Now();
      EnsureTable(k);
      if fd >= |tables[k]| || tables[k][fd] == None { return -EBADF; }
      ghost var r1 := Now();
      var slot := Take(k, fd);
      ghost var r2 := Now();
      DropSlot(slot);
      SameBytesTwice(r1, r2, Now());
      SameBytesTwice(r0, r1, Now());
      r := 0;
    }

    /** Makes the table longer, with unused slots. */
    method Extend(k: nat, n: nat)
      requires Sound(Now()) && k in tables && n <= MAX_FDS
      modifies this`tables, this`limbo
      ensures Sound(Now()) && SameBytes(old(Now()), Now()) && limbo == old(limbo)
      ensures tables == old(tables)[k := Padded(old(tables)[k], n)]
    {
      hide Sound, SameBytes, Where;
      ghost var r0 := Now();
      SameBytesSelf(r0);
      assert tables == tables[k := Padded(tables[k], |tables[k]|)];
      while |tables[k]| < n
        invariant Sound(Now()) && SameBytes(r0, Now()) && limbo == r0.limbo && k in tables
        invariant tables == r0.tables[k := Padded(r0.tables[k], |tables[k]|)]
        invariant |r0.tables[k]| <= |tables[k]| && (|tables[k]| <= n || |tables[k]| == |r0.tables[k]|)
        decreases n - |tables[k]|
      {
        ghost var r1 := Now();
        Push(k, None);
        SameBytesTwice(r0, r1, Now());
        assert Padded(r0.tables[k], |r1.tables[k]|) + [None] == Padded(r0.tables[k], |r1.tables[k]| + 1);
      }
      assert Padded(r0.tables[k], |tables[k]|) == Padded(r0.tables[k], n);
    }

    /** Puts an end from limbo into a slot, dropping what was there. */
    method Assign(k: nat, i: nat, e: Fd)
      requires Sound(Now()) && k in tables && i < |tables[k]| && (IsEnd(e) ==> e in limbo)
      modifies this
      ensures Sound(Now()) && SameBytes(old(Now()), Now()) && limbo == Minus(old(limbo), Some(e))
      ensures tables == old(tables)[k := old(tables)[k][i := Some(e)]]
    {
      hide Sound, SameBytes, Where, TakenOut, PutIn, Plus, Minus;
      ghost var r0 := Now();
      AssignFacts(r0, k, i, e);
      var prev := Take(k, i);
      ghost var r1 := Now();
      Put(k, i, e);
      ghost var r2 := Now();
      SameBytesTwice(r0, r1, r2);
      DropSlot(prev);
      SameBytesTwice(r0, r2, Now());
    }

    /** Puts a clone of slot `from` into slot `to`, dropping what was there. */
    method Duplicate(k: nat, from: nat, to: nat)
      requires Sound(Now()) && limbo == multiset{} && k in tables && from < |tables[k]| && tables[k][from].Some?
      requires to < MAX_FDS && to != from
      modifies this
      ensures Sound(Now()) && limbo == multiset{} && SameBytes(old(Now()), Now())
      ensures tables == old(tables)[k := WithSlot(old(tables)[k], to, old(tables)[k][from])]
    {
      hide Sound, SameBytes, Where, WithSlot, Padded;
      ghost var r0 := Now();
      KnownSlot(r0, k, from);
      var e := tables[k][from].value;
      Clone(e);
      ghost var r1 := Now();
      Extend(k, to + 1);
      ghost var r2 := Now();
      SameBytesTwice(r0, r1, r2);
      Assign(k, to, e);
      SlotSet(r0.tables[k], to, Some(e));
      SameBytesTwice(r0, r2, Now());
    }

    method SysDup2(k: nat, oldfd: nat, newfd: nat) returns (r: int)
      requires Valid()
      modifies this
      ensures Valid() && SameBytes(old(Now()), Now())
      ensures newfd >= MAX_FDS ==> r == -EBADF && Now() == old(Now())
      ensures newfd < MAX_FDS && At(TableOf(old(tables), k), oldfd) == None ==>
                r == -EBADF && tables == old(tables)[k := TableOf(old(tables), k)]
      ensures newfd < MAX_FDS && At(TableOf(old(tables), k), oldfd) != None && oldfd == newfd ==>
                r == newfd && tables == old(tables)[k := TableOf(old(tables), k)]
      ensures newfd < MAX_FDS && At(TableOf(old(tables), k), oldfd) != None && oldfd != newfd ==>
                && r == newfd
                && tables ==
                   old(tables)[k := WithSlot(TableOf(old(tables), k), newfd, At(TableOf(old(tables), k), oldfd))]
    {
      hide Sound, SameBytes;
      ghost var r0 := Now();
      SameBytesSelf(r0);
      if newfd >= MAX_FDS { return -EBADF; }
      EnsureTable(k);
      if oldfd >= |tables[k]| || tables[k][oldfd] == None { return -EBADF; }
      if oldfd == newfd { return newfd; }
      ghost var r1 := Now();
      Duplicate(k, oldfd, newfd);
      SameBytesTwice(r0, r1, Now());
      r := newfd;
    }

    /** `fcntl(F_DUPFD)`: the lowest unused descriptor from `start` on. */
    method SysDupFd(k: nat, fd: nat, start: nat) returns (r: int)
      requires Valid()
      modifies this
      ensures Valid() && SameBytes(old(Now()), Now())
      ensures start >= MAX_FDS ==> r == -EINVAL && Now() == old(Now())
      ensures start < MAX_FDS && At(TableOf(old(tables), k), fd) == None ==>
                r == -EBADF && tables == old(tables)[k := TableOf(old(tables), k)]
      ensures start < MAX_FDS && At(TableOf(old(tables), k), fd) != None && r < 0 ==>
                && r == -EMFILE && tables == old(tables)[k := TableOf(old(tables), k)]
                && forall j :: start <= j < MAX_FDS ==> At(TableOf(old(tables), k), j) != None
      ensures start < MAX_FDS && At(TableOf(old(tables), k), fd) != None && r >= 0 ==>
                && start <= r < MAX_FDS && At(TableOf(old(tables), k), r) == None
                && (forall j :: start <= j < r ==> At(TableOf(old(tables), k), j) != None)
                && tables == old(tables)[k := WithSlot(TableOf(old(tables), k), r, At(TableOf(old(tables), k), fd))]
    {
      hide Sound, SameBytes;
      ghost var r0 := Now();
      SameBytesSelf(r0);
      if start >= MAX_FDS { return -EINVAL; }
      EnsureTable(k);
      if fd >= |tables[k]| || tables[k][fd] == None { return -EBADF; }
      var fds := tables[k];
      var idx := start;
      while idx < MAX_FDS && idx < |fds| && fds[idx] != None
        invariant start <= idx <= MAX_FDS && forall j :: start <= j < idx ==> At(fds, j) != None
      {
        idx := idx + 1;
      }
      if idx >= MAX_FDS { return -EMFILE; }
      ghost var r1 := Now();
      Duplicate(k, fd, idx);
      SameBytesTwice(r0, r1, Now());
      r := idx;
    }

    /** Swaps the table under a key for one whose ends are in limbo; the old one's ends are there instead. */
    method SwapTable(k: nat, t: Table) returns (previous: Table)
      requires Sound(Now()) && |t| <= MAX_FDS && EndsOf(t) <= limbo
      modifies this`tables, this`limbo
      ensures Sound(Now()) && SameBytes(old(Now()), Now()) && tables == old(tables)[k := t]
      ensures EndsOf(previous) <= limbo && limbo - EndsOf(previous) == old(limbo) - EndsOf(t)
    {
      hide Sound, SameBytes, Where, EndsOf;
      ghost var r0 := Now();
      previous := [];
      NoEndsIn(previous);
      if k !in tables {
        PutTable(k, t);
        assert previous[..0] == previous;
        return;
      }
      previous := TakeTable(k);
      ghost var r1 := Now();
      MultisetSwap(r0.limbo, EndsOf(t), EndsOf(previous));
      SwapKey(r0.tables, k, t);
      PutTable(k, t);
      SameBytesTwice(r0, r1, Now());
    }

    /** Inserts a table whose ends are in limbo; a table already there is dropped. */
    method InsertTable(k: nat, t: Table)
      requires Sound(Now()) && |t| <= MAX_FDS && EndsOf(t) <= limbo
      modifies this
      ensures Sound(Now()) && SameBytes(old(Now()), Now())
      ensures tables == old(tables)[k := t] && limbo == old(limbo) - EndsOf(t)
    {
      hide Sound, SameBytes, EndsOf;
      ghost var r0 := Now();
      var previous := SwapTable(k, t);
      ghost var r1 := Now();
      DropTable(previous);
      SameBytesTwice(r0, r1, Now());
    }

    /** `fork`: the child gets a clone of every descriptor. */
    method ForkFds(parent: nat, child: nat)
      requires Valid()
      modifies this
      ensures Valid() && SameBytes(old(Now()), Now())
      ensures parent in old(tables) ==> tables == old(tables)[child := old(tables)[parent]]
      ensures parent !in old(tables) ==> Now() == old(Now())
    {
      hide Sound, SameBytes, Where, EndsOf;
      ghost var r0 := Now();
      SameBytesSelf(r0);
      if parent !in tables { return; }
      KnownSlots(r0, parent);
      SizedAt(r0, parent);
      var t := tables[parent];
      CloneTable(t);
      ghost var r1 := Now();
      InsertTable(child, t);
      SameBytesTwice(r0, r1, Now());
    }

    /** `execve`: the table moves to the new address space. */
    method Rekey(oldKey: nat, newKey: nat)
      requires Valid()
      modifies this
      ensures Valid() && SameBytes(old(Now()), Now())
      ensures oldKey in old(tables) ==> tables == (old(tables) - {oldKey})[newKey := old(tables)[oldKey]]
      ensures oldKey !in old(tables) ==> Now() == old(Now())
    {
      hide Sound, SameBytes, Where, EndsOf;
      ghost var r0 := Now();
      SameBytesSelf(r0);
      if oldKey !in tables { return; }
      SizedAt(r0, oldKey);
      var t := TakeTable(oldKey);
      ghost var r1 := Now();
      InsertTable(newKey, t);
      SameBytesTwice(r0, r1, Now());
    }

    /** The reaper forgets an ended process: all its descriptors go. */
    method Forget(k: nat)
      requires Valid()
      modifies this
      ensures Valid() && SameBytes(old(Now()), Now()) && tables == old(tables) - {k}
    {
      hide Sound, SameBytes;
      ghost var r0 := Now();
      SameBytesSelf(r0);
      if k in tables {
        var t := TakeTable(k);
        ghost var r1 := Now();
        DropTable(t);
        SameBytesTwice(r0, r1, Now());
      } else {
        assert tables == tables - {k};
      }
    }

    /** `exit`: the current process closes everything; its empty table stays until it is reaped. */
    method ReleaseAll(k: nat)
      requires Valid()
      modifies this
      ensures Valid() && SameBytes(old(Now()), Now())
      ensures tables == if k in old(tables) then old(tables)[k := []] else old(tables)
    {
      hide Sound, SameBytes, Where;
      SameBytesSelf(Now());
      if k in tables { InsertTable(k, []); }
    }

    /** Puts both ends of a new pipe into the table, or drops them. */
    method InstallPipe(k: nat, p: nat) returns (rfd: int, wfd: int)
      requires Sound(Now()) && k in tables && limbo == multiset{ReadEnd(p), WriteEnd(p)}
      modifies this
      ensures Sound(Now()) && limbo == multiset{} && SameBytes(old(Now()), Now())
      ensures k in tables && tables == old(tables)[k := tables[k]] && (wfd >= 0 || wfd == -EMFILE)
      ensures if wfd >= 0 then Installed(old(tables)[k], tables[k], p, rfd, wfd)
              else SameSlots(old(tables)[k], tables[k])
      ensures wfd >= 0 <==> TwoUnused(old(tables)[k])
    {
      hide Sound, SameBytes, Where, FirstFree, WithSlot, SameSlots, TwoUnused;
      ghost var r0 := Now();
      rfd := AllocFd(k, ReadEnd(p));
      ghost var r1 := Now();
      if rfd < 0 {
        DropWriter(p);
        SameBytesTwice(r0, r1, Now());
        SameSlotsSelf(tables[k]);
        NoneUnused(r0.tables[k]);
        return rfd, rfd;
      }
      wfd := AllocFd(k, WriteEnd(p));
      ghost var r2 := Now();
      SameBytesTwice(r0, r1, r2);
      if wfd >= 0 { SecondUnused(r0.tables[k], rfd, Some(ReadEnd(p))); }
      if wfd < 0 {
        OneUnused(r0.tables[k], rfd, Some(ReadEnd(p)));
        Undone(r0.tables[k], rfd, Some(ReadEnd(p)));
        TakeReader(k, rfd, p);
        SameBytesTwice(r0, r2, Now());
      }
    }

    /** Empties a slot that holds a read end. */
    method TakeReader(k: nat, i: nat, p: nat)
      requires Sound(Now()) && limbo == multiset{} && k in tables && i < |tables[k]| && tables[k][i] == Some(ReadEnd(p))
      modifies this
      ensures Sound(Now()) && limbo == multiset{} && SameBytes(old(Now()), Now())
      ensures tables == old(tables)[k := old(tables)[k][i := None]]
    {
      hide Sound, SameBytes, Where;
      ghost var r0 := Now();
      var _ := Take(k, i);
      ghost var r1 := Now();
      DropReader(p);
      SameBytesTwice(r0, r1, Now());
    }

    /** `pipe`: two descriptors for a new pipe, or none; `faults` says the user's array is unusable. */
    method SysPipe(k: nat, faults: bool) returns (r: int, rfd: int, wfd: int)
      requires Valid()
      modifies this
      ensures Valid() && NewPipe(old(Now()), Now()) && k in tables && tables == old(tables)[k := tables[k]]
      ensures r == -EMFILE || r == if faults then -EFAULT else 0
      ensures r == -EMFILE <==> !TwoUnused(TableOf(old(tables), k))
      ensures if r == -EMFILE then SameSlots(TableOf(old(tables), k), tables[k])
              else Installed(TableOf(old(tables), k), tables[k], old(nextPipe), rfd, wfd)
    {
      hide Sound, SameBytes, Where, TableOf, Installed, SameSlots, TwoUnused;
      ghost var r0 := Now();
      EnsureTable(k);
      ghost var r1 := Now();
      var p := OpenPipe();
      ghost var r2 := Now();
      rfd, wfd := InstallPipe(k, p);
      OpenedThen(r0, r1, Now());
      if wfd < 0 { return wfd, rfd, wfd; }
      r := if faults then -EFAULT else 0;
    }

    /** A new pipe, with both its ends in limbo. */
    method OpenPipe() returns (p: nat)
      requires Valid()
      modifies this
      ensures Sound(Now()) && Now() == Opened(old(Now())) && p == old(nextPipe) && p !in old(pipes)
      ensures limbo == multiset{ReadEnd(p), WriteEnd(p)}
    {
      hide Sound;
      ghost var r0 := Now();
      OpenKeeps(r0);
      p := nextPipe;
      pipes := pipes[p := Pipe([], 1, 1)];
      nextPipe := p + 1;
      limbo, written, taken := limbo + multiset{ReadEnd(p), WriteEnd(p)}, written[p := []], taken[p := []];
      assert Now() == Opened(r0);
    }

    /** One attempt at reading: bytes, end of file, an error, or blocking. */
    method ReadPipe(k: nat, fd: nat, count: nat, faults: bool) returns (r: ReadResult)
      requires Valid()
      modifies this
      ensures Valid() && tables == old(tables)[k := TableOf(old(tables), k)]
      ensures var slot := At(TableOf(old(tables), k), fd);
              if !(slot.Some? && slot.value.ReadEnd?) then r == Failed(EBADF) && SameBytes(old(Now()), Now())
              else if count == 0 then r == Got([]) && SameBytes(old(Now()), Now())
              else ReadFrom(old(Now()), Now(), k, slot.value.pipe, count, faults, r)
    {
      hide Sound, Where, TableOf;
      ghost var r0 := Now();
      EnsureTable(k);
      if fd >= |tables[k]| || tables[k][fd].None? || !tables[k][fd].value.ReadEnd? { return Failed(EBADF); }
      if count == 0 { return Got([]); }
      var p := tables[k][fd].value.pipe;
      ghost var r1 := Now();
      PipeFacts(r1, k, fd);
      var b := pipes[p];
      if b.data != [] {
        var n := if count < |b.data| then count else |b.data|;
        DrainKeeps(r1, p, n);
        pipes := pipes[p := b.(data := b.data[n..])];
        taken := taken[p := taken[p] + b.data[..n]];
        assert Now() == Drained(r1, p, n);
        return if faults then Failed(EFAULT) else Got(b.data[..n]);
      }
      if b.writers == 0 { return Got([]); }
      BlockKeeps(r1, k, p);
      blocked := blocked[k := p];
      assert Now() == r1.(blocked := r1.blocked[k := p]);
      r := WouldBlock;
    }

    /** Writing: all bytes at once, and the readers are woken. */
    method WritePipe(k: nat, fd: nat, bytes: seq<byte>, faults: bool) returns (r: int)
      requires Valid()
      modifies this
      ensures Valid() && tables == old(tables)[k := TableOf(old(tables), k)]
      ensures var slot := At(TableOf(old(tables), k), fd);
              if !(slot.Some? && slot.value.WriteEnd?) then r == -EBADF && SameBytes(old(Now()), Now())
              else if bytes == [] then r == 0 && SameBytes(old(Now()), Now())
              else if faults then r == -EFAULT && SameBytes(old(Now()), Now())
              else slot.value.pipe in old(pipes) &&
                   if old(pipes)[slot.value.pipe].readers == 0 then r == -EPIPE && SameBytes(old(Now()), Now())
                   else r == |bytes| && WroteTo(old(Now()), Now(), slot.value.pipe, bytes)
    {
      hide Sound, Where, TableOf;
      ghost var r0 := Now();
      EnsureTable(k);
      if fd >= |tables[k]| || tables[k][fd].None? || !tables[k][fd].value.WriteEnd? { return -EBADF; }
      if bytes == [] { return 0; }
      var p := tables[k][fd].value.pipe;
      ghost var r1 := Now();
      PipeFacts(r1, k, fd);
      if faults { return -EFAULT; }
      var b := pipes[p];
      if b.readers == 0 { return -EPIPE; }
      FillKeeps(r1, p, bytes);
      pipes := pipes[p := b.(data := b.data + bytes)];
      written := written[p := written[p] + bytes];
      blocked := map[];
      assert Now() == Filled(r1, p, bytes);
      r := |bytes|;
    }

    /** A process blocked in a read is ended by a signal. */
    method Unblock(k: nat)
      requires Valid()
      modifies this`blocked
      ensures Valid() && blocked == old(blocked) - {k}
    {
      hide Sound;
      UnblockKeeps(Now(), k);
      blocked := blocked - {k};
    }
  }

  method FindFree(fds: Table) returns (i: nat)
    ensures i == FirstFree(fds, 0)
  {
    i := 0;
    while i < |fds| && fds[i] != None
      invariant 0 <= i <= |fds| && FirstFree(fds, 0) == FirstFree(fds, i)
    {
      i := i + 1;
    }
  }

  lemma SizedAt(r: Reg, k: nat)
    requires Sound(r) && k in r.tables
    ensures |r.tables[k]| <= MAX_FDS
  {
  }

  /** The table with its first `i` slots emptied. */
  ghost function Blanked(t: Table, i: nat): (t': Table)
    requires i <= |t|
    ensures |t'| == |t|
  {
    seq(|t|, j requires 0 <= j < |t| => if j < i then None else t[j])
  }

  lemma BlankNone(t: Table)
    ensures Blanked(t, 0) == t
  {
  }

  lemma BlankStep(t: Table, i: nat)
    requires i < |t|
    ensures Blanked(t, i)[i] == t[i] && Blanked(t, i)[i := None] == Blanked(t, i + 1)
  {
  }

  lemma BlankAll(t: Table)
    ensures forall j :: 0 <= j < |t| ==> Blanked(t, |t|)[j] == None
  {
  }

  lemma PlusStep(limbo: multiset<Fd>, t: Table, i: nat)
    requires i < |t|
    ensures Plus(limbo + EndsOf(t[..i]), t[i]) == limbo + EndsOf(t[..i + 1])
  {
    EndsStep(t, i);
  }

  /** The first `i` slots of `t` are in place under key `k`. */
  ghost predicate PutSoFar(r0: Reg, r: Reg, k: nat, t: Table, i: nat) {
    && i <= |t| && k in r.tables && r.tables[k] == t[..i] && r.tables == r0.tables[k := t[..i]]
    && r.limbo == r0.limbo - EndsOf(t[..i])
  }

  lemma PutStart(r0: Reg, r: Reg, k: nat, t: Table)
    requires Sound(r0) && k !in r0.tables && r == r0.(tables := r0.tables[k := []])
    ensures Sound(r) && SameBytes(r0, r) && PutSoFar(r0, r, k, t, 0)
  {
    hide Sound, SameBytes, Where;
    assert r.tables - {k} == r0.tables - {k};
    Emptied(r0, r, k);
    assert t[..0] == [];
  }

  lemma PutStep(r0: Reg, r: Reg, k: nat, t: Table, i: nat)
    requires i < |t| <= MAX_FDS && EndsOf(t) <= r0.limbo && PutSoFar(r0, r, k, t, i)
    ensures k in r.tables && |r.tables[k]| < MAX_FDS
    ensures t[i].Some? && IsEnd(t[i].value) ==> t[i].value in r.limbo
    ensures PutSoFar(r0, Pushed(r, k, t[i]), k, t, i + 1)
  {
    hide EndsOf, Minus;
    MinusStep(r0.limbo, t, i);
    assert t[..i + 1] == t[..i] + [t[i]];
  }

  lemma PutDone(r0: Reg, r: Reg, k: nat, t: Table)
    requires PutSoFar(r0, r, k, t, |t|)
    ensures r.tables == r0.tables[k := t] && r.limbo == r0.limbo - EndsOf(t)
  {
    assert t[..|t|] == t;
  }

  lemma NoEndsIn(t: Table)
    ensures EndsOf(t[..0]) == multiset{}
  {
  }

  lemma StillKnown(r: Reg, r': Reg, e: Fd)
    requires SameBytes(r, r') && KnownEnd(r, e)
    ensures KnownEnd(r', e)
  {
  }

  /** Taking a table's ends off a multiset, one more slot at a time. */
  lemma MinusStep(limbo: multiset<Fd>, t: Table, i: nat)
    requires i < |t| && EndsOf(t) <= limbo
    ensures t[i].Some? && IsEnd(t[i].value) ==> t[i].value in limbo - EndsOf(t[..i])
    ensures Minus(limbo - EndsOf(t[..i]), t[i]) == limbo - EndsOf(t[..i + 1])
  {
    EndsStep(t, i);
    EndsPrefix(t, i + 1);
    hide EndsOf;
    if t[i].Some? && IsEnd(t[i].value) {
      var e := t[i].value;
      assert EndsOf(t[..i + 1])[e] == EndsOf(t[..i])[e] + 1 && EndsOf(t[..i + 1])[e] <= limbo[e];
    }
  }

  lemma SameBytesSelf(r: Reg)
    ensures SameBytes(r, r)
  {
  }

  lemma {:induction false} EndsPrefix(t: Table, i: nat)
    requires i <= |t|
    ensures EndsOf(t[..i]) <= EndsOf(t)
    decreases |t| - i
  {
    if i == |t| {
      assert t[..i] == t;
    } else {
      EndsStep(t, i);
      EndsPrefix(t, i + 1);
    }
  }

  /** Adding or removing an empty table. */
  lemma Emptied(r: Reg, r': Reg, k: nat)
    requires Sound(r) && r' == r.(tables := r'.tables) && r'.tables - {k} == r.tables - {k}
    requires k in r.tables ==> forall j :: 0 <= j < |r.tables[k]| ==> r.tables[k][j] == None
    requires k in r'.tables ==> r'.tables[k] == []
    ensures Sound(r') && SameBytes(r, r')
  {
    assert Sized(r') by { SizedLess(r, r', k); }
    hide Where, Counts, Known, Awake, Sized;
    TableKeeps(r, r', k);
  }

  lemma SizedLess(r: Reg, r': Reg, k: nat)
    requires Sized(r) && r'.tables - {k} == r.tables - {k} && (k in r'.tables ==> |r'.tables[k]| <= MAX_FDS)
    ensures Sized(r')
  {
    forall j | j in r'.tables ensures |r'.tables[j]| <= MAX_FDS {
      if j != k {
        assert j in r'.tables - {k};
        assert (r'.tables - {k})[j] == (r.tables - {k})[j];
      }
    }
  }

  /** What descriptor `i` leads to; beyond the table's end, nothing. */
  function At(t: Table, i: nat): Slot {
    if i < |t| then t[i] else None
  }

  /** The table, at least `n` slots long. */
  function Padded(t: Table, n: nat): (t': Table)
    ensures |t'| == if |t| < n then n else |t|
  {
    if |t| < n then t + seq(n - |t|, _ => None) else t
  }

  lemma SlotSet(t: Table, i: nat, slot: Slot)
    ensures Padded(t, i + 1)[i := slot] == WithSlot(t, i, slot)
  {
  }

  /** Taking a slot out and putting an end in. */
  lemma AssignFacts(r: Reg, k: nat, i: nat, e: Fd)
    requires k in r.tables && i < |r.tables[k]| && (IsEnd(e) ==> e in r.limbo)
    ensures var r1, prev := TakenOut(r, k, i), r.tables[k][i];
            && k in r1.tables && i < |r1.tables[k]| && r1.tables[k][i] == None && (IsEnd(e) ==> e in r1.limbo)
            && var r2 := PutIn(r1, k, i, Some(e));
               && r2.tables == r.tables[k := r.tables[k][i := Some(e)]]
               && (prev.Some? && IsEnd(prev.value) ==> prev.value in r2.limbo)
               && Minus(r2.limbo, prev) == Minus(r.limbo, Some(e))
  {
    assert r.tables[k][i := None][i := Some(e)] == r.tables[k][i := Some(e)];
  }

  lemma KnownSlot(r: Reg, k: nat, i: nat)
    requires Sound(r) && k in r.tables && i < |r.tables[k]| && r.tables[k][i].Some?
    ensures KnownEnd(r, r.tables[k][i].value)
  {
    assert Has(r.tables, Place(k, i), r.tables[k][i].value);
  }

  lemma KnownSlots(r: Reg, k: nat)
    requires Sound(r) && k in r.tables
    ensures forall i :: 0 <= i < |r.tables[k]| && r.tables[k][i].Some? ==> KnownEnd(r, r.tables[k][i].value)
  {
    forall i | 0 <= i < |r.tables[k]| && r.tables[k][i].Some? ensures KnownEnd(r, r.tables[k][i].value) {
      KnownSlot(r, k, i);
    }
  }

  lemma SwapKey(tables: map<nat, Table>, k: nat, t: Table)
    ensures (tables - {k})[k := t] == tables[k := t]
  {
  }

  lemma MultisetSwap(limbo: multiset<Fd>, a: multiset<Fd>, b: multiset<Fd>)
    requires a <= limbo
    ensures a <= limbo + b && b <= limbo + b - a && limbo + b - a - b == limbo - a
  {
  }

  datatype ReadResult = Got(bytes: seq<byte>) | WouldBlock | Failed(errno: nat)

  /** One new, empty pipe; the others hold what they held. */
  ghost predicate NewPipe(r: Reg, r': Reg) {
    && r.nextPipe !in r.pipes && r'.nextPipe == r.nextPipe + 1 && r'.pipes.Keys == r.pipes.Keys + {r.nextPipe}
    && r'.pipes[r.nextPipe].data == [] && (forall p :: p in r.pipes ==> r'.pipes[p].data == r.pipes[p].data)
    && r'.written == r.written[r.nextPipe := []] && r'.taken == r.taken[r.nextPipe := []]
  }

  /** What a read does to pipe `p`: the oldest bytes leave it, in order; on an unusable buffer they are lost. */
  ghost predicate ReadFrom(r: Reg, r': Reg, k: nat, p: nat, count: nat, faults: bool, res: ReadResult) {
    && p in r.pipes && r'.pipes.Keys == r.pipes.Keys
    && (forall q :: q in r.pipes && q != p ==> r'.pipes[q].data == r.pipes[q].data)
    && p in r.taken && p in r'.taken && r'.written == r.written && r'.taken == r.taken[p := r'.taken[p]]
    && var data := r.pipes[p].data;
       var n := if count < |data| then count else |data|;
       && r'.pipes[p].data == data[n..] && r'.taken[p] == r.taken[p] + data[..n]
       && (data != [] ==> res == (if faults then Failed(EFAULT) else Got(data[..n])) && r'.blocked == r.blocked)
       && (data == [] && r.pipes[p].writers == 0 ==> res == Got([]) && r'.blocked == r.blocked)
       && (data == [] && r.pipes[p].writers > 0 ==> res == WouldBlock && r'.blocked == r.blocked[k := p])
  }

  /** What a write does: the bytes follow what is already there, and nobody stays blocked. */
  ghost predicate WroteTo(r: Reg, r': Reg, p: nat, bytes: seq<byte>) {
    && p in r.pipes && r'.pipes.Keys == r.pipes.Keys && r'.pipes[p].data == r.pipes[p].data + bytes
    && p in r.written && r'.written == r.written[p := r.written[p] + bytes] && r'.taken == r.taken
    && (forall q :: q in r.pipes && q != p ==> r'.pipes[q].data == r.pipes[q].data) && r'.blocked == map[]
  }

  /** Both ends are in the lowest descriptors that were unused. */
  ghost predicate Installed(t: Table, t': Table, p: nat, rfd: int, wfd: int) {
    && 0 <= rfd == FirstFree(t, 0) < MAX_FDS && 0 <= wfd < MAX_FDS
    && wfd == FirstFree(WithSlot(t, rfd, Some(ReadEnd(p))), 0)
    && t' == WithSlot(WithSlot(t, rfd, Some(ReadEnd(p))), wfd, Some(WriteEnd(p)))
  }

  /** The same descriptors, whatever the length of the table. */
  ghost predicate SameSlots(t: Table, t': Table) {
    forall j: nat :: At(t', j) == At(t, j)
  }

  lemma SameSlotsSelf(t: Table)
    ensures SameSlots(t, t)
  {
  }

  /** At least two of the sixteen descriptors are unused. */
  ghost predicate TwoUnused(t: Table) {
    exists i, j :: 0 <= i < j < 16 && At(t, i) == None && At(t, j) == None
  }

  lemma NoneUnused(t: Table)
    requires |t| == MAX_FDS && forall i :: 0 <= i < |t| ==> t[i] != None
    ensures !TwoUnused(t)
  {
    FullTable(t);
  }

  lemma SecondUnused(t: Table, i: nat, slot: Slot)
    requires i == FirstFree(t, 0) < MAX_FDS && slot != None && FirstFree(WithSlot(t, i, slot), 0) < MAX_FDS
    ensures TwoUnused(t)
  {
    SecondSlot(t, i, slot);
    hide FirstFree, WithSlot;
    var j := FirstFree(WithSlot(t, i, slot), 0);
    if i < j { assert At(t, i) == None && At(t, j) == None; } else { assert At(t, j) == None && At(t, i) == None; }
  }

  lemma OneUnused(t: Table, i: nat, slot: Slot)
    requires i == FirstFree(t, 0) && slot != None
    requires var t1 := WithSlot(t, i, slot); |t1| == MAX_FDS && forall j :: 0 <= j < |t1| ==> t1[j] != None
    ensures !TwoUnused(t)
  {
    SecondSlot(t, i, slot);
    FullTable(WithSlot(t, i, slot));
  }

  /** A table without an unused descriptor. */
  lemma FullTable(t: Table)
    requires |t| == MAX_FDS && forall i :: 0 <= i < |t| ==> t[i] != None
    ensures forall i: nat :: i < MAX_FDS ==> At(t, i) != None
  {
  }

  /** Once the lowest unused descriptor is taken, the lowest one left was unused before and is another one. */
  lemma SecondSlot(t: Table, i: nat, slot: Slot)
    requires i == FirstFree(t, 0) && slot != None
    ensures var t1 := WithSlot(t, i, slot);
            && At(t, i) == None && FirstFree(t1, 0) != i && At(t, FirstFree(t1, 0)) == None
            && (forall j: nat :: j != i ==> At(t1, j) == At(t, j))
  {
  }

  /** A process that has only its three standard descriptors gets 3 and 4. */
  lemma FirstPipe(t': Table, p: nat, rfd: int, wfd: int, tables: map<nat, Table>, k: nat)
    requires k !in tables && Installed(TableOf(tables, k), t', p, rfd, wfd)
    ensures rfd == 3 && wfd == 4
    ensures t' == [Some(Console), Some(Vga), Some(Serial), Some(ReadEnd(p)), Some(WriteEnd(p))]
  {
  }

  lemma Undone(t: Table, i: nat, slot: Slot)
    requires i == FirstFree(t, 0)
    ensures WithSlot(t, i, slot)[i] == slot && SameSlots(t, WithSlot(t, i, slot)[i := None])
  {
  }

  lemma OpenedThen(r: Reg, r1: Reg, r': Reg)
    requires SameBytes(r, r1) && r1.nextPipe !in r1.pipes && SameBytes(Opened(r1), r')
    ensures NewPipe(r, r')
  {
  }

  lemma PipeFacts(r: Reg, k: nat, fd: nat)
    requires Sound(r) && k in r.tables && fd < |r.tables[k]| && r.tables[k][fd].Some? && IsEnd(r.tables[k][fd].value)
    ensures var p := r.tables[k][fd].value.pipe; p in r.pipes && p in r.taken && p in r.written
  {
    KnownSlot(r, k, fd);
    assert CountedAt(r, r.tables[k][fd].value.pipe);
  }

  // --- runs ---

  datatype Call =
    | Open(k: nat, faults: bool)
    | Close(k: nat, fd: nat)
    | Dup2(k: nat, fd: nat, to: nat)
    | DupFd(k: nat, fd: nat, start: nat)
    | Fork(k: nat, child: nat)
    | Exec(k: nat, newKey: nat)
    | Exit(k: nat)
    | Reap(k: nat)
    | Kill(k: nat)
    | Read(k: nat, fd: nat, count: nat, faults: bool)
    | Write(k: nat, fd: nat, bytes: seq<byte>, faults: bool)

  /** Bytes once written stay written, in order, and so do bytes taken out. */
  ghost predicate Grows(r: Reg, r': Reg) {
    && r.pipes.Keys <= r'.pipes.Keys
    && (forall p :: p in r.pipes ==>
          && p in r.written && p in r'.written && r.written[p] <= r'.written[p]
          && p in r.taken && p in r'.taken && r.taken[p] <= r'.taken[p])
  }

  lemma GrowsTwice(a: Reg, b: Reg, c: Reg)
    requires Grows(a, b) && Grows(b, c)
    ensures Grows(a, c)
  {
  }

  lemma GrowsSame(r: Reg, r': Reg)
    requires Sound(r) && SameBytes(r, r')
    ensures Grows(r, r')
  {
    forall p | p in r.pipes ensures p in r.written && p in r.taken { assert CountedAt(r, p); }
  }

  lemma GrowsNew(r: Reg, r': Reg)
    requires Sound(r) && NewPipe(r, r')
    ensures Grows(r, r')
  {
    forall p | p in r.pipes ensures p in r.written && p in r.taken { assert CountedAt(r, p); }
  }

  lemma GrowsRead(r: Reg, r': Reg, k: nat, p: nat, count: nat, faults: bool, res: ReadResult)
    requires Sound(r) && ReadFrom(r, r', k, p, count, faults, res)
    ensures Grows(r, r')
  {
    forall q | q in r.pipes ensures q in r.written && q in r.taken { assert CountedAt(r, q); }
  }

  lemma GrowsWrite(r: Reg, r': Reg, p: nat, bytes: seq<byte>)
    requires Sound(r) && WroteTo(r, r', p, bytes)
    ensures Grows(r, r')
  {
    forall q | q in r.pipes ensures q in r.written && q in r.taken { assert CountedAt(r, q); }
  }

  /** What a call does to the tables of descriptors, to the bytes in the pipes, and to who is blocked. */
  ghost predicate Did(r: Reg, r': Reg, call: Call) {
    var t := TableOf(r.tables, call.k);
    match call
    case Open(k, _) => NewPipe(r, r') && k in r'.tables && r'.tables == r.tables[k := r'.tables[k]]
    case Close(k, fd) => SameBytes(r, r') && r'.tables == r.tables[k := if At(t, fd) == None then t else t[fd := None]]
    case Dup2(k, fd, to) => SameBytes(r, r') && r'.tables == Duplicated(r.tables, k, fd, to)
    case DupFd(k, fd, start) =>
      && SameBytes(r, r')
      && if start >= MAX_FDS then r'.tables == r.tables else CopiedLow(r.tables, r'.tables, k, fd, start)
    case Fork(k, child) =>
      SameBytes(r, r') && r'.tables == if k in r.tables then r.tables[child := r.tables[k]] else r.tables
    case Exec(k, newKey) =>
      SameBytes(r, r') && r'.tables == if k in r.tables then (r.tables - {k})[newKey := r.tables[k]] else r.tables
    case Exit(k) => SameBytes(r, r') && r'.tables == if k in r.tables then r.tables[k := []] else r.tables
    case Reap(k) => SameBytes(r, r') && r'.tables == r.tables - {k}
    case Kill(k) => r' == r.(blocked := r.blocked - {k})
    case Read(k, fd, count, faults) =>
      && r'.tables == r.tables[k := t]
      && if At(t, fd).Some? && At(t, fd).value.ReadEnd? && count > 0
         then exists res :: ReadFrom(r, r', k, At(t, fd).value.pipe, count, faults, res)
         else SameBytes(r, r')
    case Write(k, fd, bytes, faults) =>
      && r'.tables == r.tables[k := t]
      && if Writes(r, t, fd, bytes, faults) then WroteTo(r, r', At(t, fd).value.pipe, bytes) else SameBytes(r, r')
  }

  /** The write gets to the pipe. */
  ghost predicate Writes(r: Reg, t: Table, fd: nat, bytes: seq<byte>, faults: bool) {
    && At(t, fd).Some? && At(t, fd).value.WriteEnd? && bytes != [] && !faults
    && At(t, fd).value.pipe in r.pipes && r.pipes[At(t, fd).value.pipe].readers > 0
  }

  /** Descriptor `fd` copied to `to`, if there is such a descriptor and `to` is in range. */
  ghost function Duplicated(tables: map<nat, Table>, k: nat, fd: nat, to: nat): map<nat, Table> {
    var t := TableOf(tables, k);
    if to >= MAX_FDS then tables
    else tables[k := if At(t, fd) == None || fd == to then t else WithSlot(t, to, At(t, fd))]
  }

  /** `to` is the lowest unused descriptor from `start` on; the end of the range if there is none. */
  ghost predicate LowestFrom(t: Table, start: nat, to: nat) {
    && start < MAX_FDS && start <= to <= MAX_FDS && (forall j :: start <= j < to ==> At(t, j) != None)
    && (to < MAX_FDS ==> At(t, to) == None)
  }

  /** Descriptor `fd` copied to the lowest unused one from `start` on. */
  ghost predicate CopiedLow(tables: map<nat, Table>, tables': map<nat, Table>, k: nat, fd: nat, start: nat) {
    var t := TableOf(tables, k);
    exists to: nat :: LowestFrom(t, start, to) && tables' == Duplicated(tables[k := t], k, fd, to)
  }

  lemma {:induction false} LowestExists(t: Table, start: nat, at: nat) returns (to: nat)
    requires start <= at <= MAX_FDS && start < MAX_FDS && forall j :: start <= j < at ==> At(t, j) != None
    ensures LowestFrom(t, start, to)
    decreases MAX_FDS - at
  {
    if at == MAX_FDS || At(t, at) == None { to := at; } else { to := LowestExists(t, start, at + 1); }
  }

  lemma CopiedLowest(r: Reg, r': Reg, k: nat, fd: nat, start: nat, res: int)
    requires var t := TableOf(r.tables, k);
             && start < MAX_FDS
             && (At(t, fd) == None ==> r'.tables == r.tables[k := t])
             && (At(t, fd) != None && res < 0 ==>
                   r'.tables == r.tables[k := t] && forall j :: start <= j < MAX_FDS ==> At(t, j) != None)
             && (At(t, fd) != None && res >= 0 ==>
                   && start <= res < MAX_FDS && At(t, res) == None
                   && (forall j :: start <= j < res ==> At(t, j) != None)
                   && r'.tables == r.tables[k := WithSlot(t, res, At(t, fd))])
    ensures CopiedLow(r.tables, r'.tables, k, fd, start)
  {
    hide WithSlot;
    var t := TableOf(r.tables, k);
    var to := LowestExists(t, start, start);
    var all := r.tables[k := t];
    assert TableOf(all, k) == t;
    if At(t, fd) != None && res >= 0 {
      assert LowestFrom(t, start, res);
      assert all[k := WithSlot(t, res, At(t, fd))] == r'.tables;
    } else {
      assert all[k := t] == all;
    }
    assert LowestFrom(t, start, to);
  }

  /** Any one call, with any arguments, by any process. */
  method Do(reg: Registry, call: Call)
    requires reg.Valid()
    modifies reg
    ensures reg.Valid() && Grows(old(reg.Now()), reg.Now()) && Did(old(reg.Now()), reg.Now(), call)
  {
    hide Sound, SameBytes, NewPipe, Grows, ReadFrom, WroteTo, Installed, SameSlots, WithSlot, CopiedLow;
    ghost var r0 := reg.Now();
    match call {
      case Open(k, faults) =>
        var _, _, _ := reg.SysPipe(k, faults);
        GrowsNew(r0, reg.Now());
      case Close(k, fd) =>
        var _ := reg.SysClose(k, fd);
        GrowsSame(r0, reg.Now());
      case Dup2(k, fd, to) =>
        var _ := reg.SysDup2(k, fd, to);
        GrowsSame(r0, reg.Now());
      case DupFd(k, fd, start) =>
        var n := reg.SysDupFd(k, fd, start);
        GrowsSame(r0, reg.Now());
        if start < MAX_FDS { CopiedLowest(r0, reg.Now(), k, fd, start, n); }
      case Fork(k, child) =>
        reg.ForkFds(k, child);
        GrowsSame(r0, reg.Now());
      case Exec(k, newKey) =>
        reg.Rekey(k, newKey);
        GrowsSame(r0, reg.Now());
      case Exit(k) =>
        reg.ReleaseAll(k);
        GrowsSame(r0, reg.Now());
      case Reap(k) =>
        reg.Forget(k);
        GrowsSame(r0, reg.Now());
      case Kill(k) =>
        reg.Unblock(k);
        GrowsKill(r0, reg.Now());
      case Read(k, fd, count, faults) =>
        var res := reg.ReadPipe(k, fd, count, faults);
        ghost var slot := At(TableOf(r0.tables, k), fd);
        if slot.Some? && slot.value.ReadEnd? && count > 0 {
          GrowsRead(r0, reg.Now(), k, slot.value.pipe, count, faults, res);
        } else {
          GrowsSame(r0, reg.Now());
        }
      case Write(k, fd, bytes, faults) =>
        var r := reg.WritePipe(k, fd, bytes, faults);
        ghost var slot := At(TableOf(r0.tables, k), fd);
        if slot.Some? && slot.value.WriteEnd? && bytes != [] && !faults && r0.pipes[slot.value.pipe].readers > 0 {
          GrowsWrite(r0, reg.Now(), slot.value.pipe, bytes);
        } else {
          GrowsSame(r0, reg.Now());
        }
    }
  }

  lemma GrowsKill(r: Reg, r': Reg)
    requires Sound(r) && r' == r.(blocked := r'.blocked)
    ensures Grows(r, r')
  {
    forall p | p in r.pipes ensures p in r.written && p in r.taken { assert CountedAt(r, p); }
  }

  /** Over every run of calls: counters are right, bytes come out as they went in, and no reader sleeps
      while its pipe has data or has lost its writers. */
  method Run(reg: Registry, calls: seq<Call>) returns (ghost trace: seq<Reg>)
    requires reg.Valid()
    modifies reg
    ensures reg.Valid() && Grows(old(reg.Now()), reg.Now())
    ensures |trace| == |calls| + 1 && trace[0] == old(reg.Now()) && trace[|calls|] == reg.Now()
    ensures forall i :: 0 <= i < |calls| ==> Did(trace[i], trace[i + 1], calls[i])
    ensures forall i :: 0 <= i < |trace| ==> Sound(trace[i])
  {
    hide Sound, Grows, Did;
    ghost var r0 := reg.Now();
    trace := [r0];
    SameBytesSelf(r0);
    GrowsSame(r0, r0);
    for i := 0 to |calls|
      invariant reg.Valid() && Grows(r0, reg.Now())
      invariant |trace| == i + 1 && trace[0] == r0 && trace[i] == reg.Now()
      invariant forall j :: 0 <= j < i ==> Did(trace[j], trace[j + 1], calls[j])
      invariant forall j :: 0 <= j <= i ==> Sound(trace[j])
    {
      ghost var r1 := reg.Now();
      Do(reg, calls[i]);
      GrowsTwice(r0, r1, reg.Now());
      trace := trace + [reg.Now()];
    }
  }
}
