/** What every run of the scheduler keeps: processes are created, wait, end and are reaped once each. */
module Lifecycle {
  import opened Basics
  import opened Threads

  // --- histories ---

  /** The events of process `pid`, in order. */
  ghost function Of(log: seq<Event>, pid: nat): seq<Event> {
    if log == [] then [] else
    var e := log[|log| - 1];
    Of(log[..|log| - 1], pid) + (if e.pid == pid then [e] else [])
  }

  lemma OfOne(log: seq<Event>, e: Event, pid: nat)
    ensures Of(log + [e], pid) == Of(log, pid) + (if e.pid == pid then [e] else [])
  {
    assert (log + [e])[..|log|] == log;
  }

  lemma {:induction false} OfMore(log: seq<Event>, more: seq<Event>, pid: nat)
    ensures Of(log + more, pid) == Of(log, pid) + Of(more, pid)
  {
    if more == [] {
      assert log + more == log;
    } else {
      var n := |more| - 1;
      OfMore(log, more[..n], pid);
      OfOne(log + more[..n], more[n], pid);
      OfOne(more[..n], more[n], pid);
      assert log + more == log + more[..n] + [more[n]] && more == more[..n] + [more[n]];
    }
  }

  /** A thread's history is fixed by its state: one exit, then at most one collection with the values the
      exit stored, then at most one release of its resources. */
  ghost predicate History(t: Thread, h: seq<Event>) {
    if Alive(t.state) then h == [] && t.exitStatus.None? else
    && t.exitStatus.Some?
    && var ended, collected := Exited(t.pid, t.exitStatus.value, t.termSignal),
                               Collected(t.pid, t.exitStatus.value, t.termSignal);
       match t.state
       case Zombie => h == [ended]
       case Dead => h == [ended, collected]
       case _ => ReleasedAfter(t, h, [ended]) || ReleasedAfter(t, h, [ended, collected])
  }

  ghost predicate ReleasedAfter(t: Thread, h: seq<Event>, before: seq<Event>) {
    && |h| == |before| + 1 && h[..|before|] == before && h[|before|].Released? && h[|before|].pid == t.pid
    && t.space.None? && t.stack.None?
  }

  // --- the invariant ---

  ghost predicate LivingPid(ts: seq<Thread>, pid: nat) {
    exists i :: 0 <= i < |ts| && ts[i].pid == pid && Alive(ts[i].state)
  }

  /** A blocked waiter has a living child it waits for, and none it could have collected. */
  ghost predicate Waits(ts: seq<Thread>, pid: nat, want: int) {
    && HasLivingChild(ts, pid, want)
    && forall j :: 0 <= j < |ts| ==> !(IsMine(ts[j], pid, want) && ts[j].state == Zombie)
  }

  ghost predicate Pids(s: Sched) {
    && (forall i :: 0 <= i < |s.threads| ==> s.threads[i].pid < s.nextPid)
    && (forall i, j :: 0 <= i < j < |s.threads| ==> s.threads[i].pid != s.threads[j].pid)
    && (forall i :: 0 <= i < |s.threads| ==> s.threads[i].parent <= s.threads[i].pid)
    && (forall i :: 0 < i < |s.threads| ==> s.threads[i].parent < s.threads[i].pid)
  }

  ghost predicate Parents(ts: seq<Thread>) {
    forall j :: 0 <= j < |ts| && ts[j].parent != 0 ==> LivingPid(ts, ts[j].parent)
  }

  ghost predicate WaitersServed(s: Sched) {
    forall i :: 0 <= i < |s.threads| && s.threads[i].state == Blocked && s.threads[i].blockedOn == Child ==>
      s.threads[i].pid in s.wants && Waits(s.threads, s.threads[i].pid, s.wants[s.threads[i].pid])
  }

  ghost predicate Histories(s: Sched) {
    && (forall i :: 0 <= i < |s.threads| ==> History(s.threads[i], Of(s.log, s.threads[i].pid)))
    && (forall pid :: NoThread(s.threads, pid) ==> Of(s.log, pid) == [])
  }

  ghost predicate NoThread(ts: seq<Thread>, pid: nat) {
    forall i :: 0 <= i < |ts| ==> ts[i].pid != pid
  }

  /** Every address space and stack belongs to one thread. */
  ghost predicate Owned(ts: seq<Thread>) {
    && (forall i, j :: 0 <= i < j < |ts| && ts[i].space.Some? ==> ts[i].space != ts[j].space)
    && (forall i, j :: 0 <= i < j < |ts| && ts[i].stack.Some? ==> ts[i].stack != ts[j].stack)
  }

  ghost predicate Core(s: Sched) {
    && 0 < |s.threads| && s.threads[0].pid == 0 && s.threads[0].state == Runnable && s.threads[0].space.None?
    && s.current < |s.threads| && Pids(s) && Parents(s.threads) && WaitersServed(s) && Histories(s) && Owned(s.threads)
  }

  /** Core, and the thread that has the processor is runnable. */
  ghost predicate Inv(s: Sched) {
    Core(s) && s.threads[s.current].state == Runnable
  }

  // --- ending a thread ---

  lemma TerminateParents(s: Sched, idx: nat, status: int, signal: Option<nat>)
    requires Core(s) && 0 < idx < |s.threads|
    ensures Parents(Terminate(s, idx, status, signal).threads)
  {
    var ts, ts' := s.threads, Terminate(s, idx, status, signal).threads;
    forall j | 0 <= j < |ts'| && ts'[j].parent != 0 ensures LivingPid(ts', ts'[j].parent) {
      assert ts'[j].parent == ts[j].parent;
      var i :| 0 <= i < |ts| && ts[i].pid == ts[j].parent && Alive(ts[i].state);
      assert i != idx;
      assert ts'[i].pid == ts[i].pid && Alive(ts'[i].state);
    }
  }

  lemma TerminateWaiters(s: Sched, idx: nat, status: int, signal: Option<nat>)
    requires Core(s) && 0 < idx < |s.threads| && Alive(s.threads[idx].state)
    ensures WaitersServed(Terminate(s, idx, status, signal))
  {
    var ts, ts' := s.threads, Terminate(s, idx, status, signal).threads;
    forall i | 0 <= i < |ts'| && ts'[i].state == Blocked && ts'[i].blockedOn == Child
      ensures ts'[i].pid in s.wants && Waits(ts', ts'[i].pid, s.wants[ts'[i].pid])
    {
      assert ts[i].state == Blocked && ts[i].blockedOn == Child && i != idx;
      var pid, want := ts[i].pid, s.wants[ts[i].pid];
      assert ts[idx].parent != pid;
      var j :| 0 <= j < |ts| && IsMine(ts[j], pid, want) && Alive(ts[j].state);
      assert IsMine(ts'[j], pid, want) && Alive(ts'[j].state);
      forall k | 0 <= k < |ts'| ensures !(IsMine(ts'[k], pid, want) && ts'[k].state == Zombie) {
        assert !(IsMine(ts[k], pid, want) && ts[k].state == Zombie);
      }
    }
  }

  /** A history does not depend on parents, nor on which of the two living states a thread is in. */
  lemma KeepsHistory(t: Thread, t': Thread, h: seq<Event>)
    requires History(t, h) && t' == t.(parent := t'.parent, state := t'.state, pending := t'.pending)
    requires t'.state == t.state || (Alive(t.state) && Alive(t'.state))
    ensures History(t', h)
  {
  }

  lemma TerminateHistories(s: Sched, idx: nat, status: int, signal: Option<nat>)
    requires Pids(s) && Histories(s) && idx < |s.threads| && Alive(s.threads[idx].state)
    ensures Histories(Terminate(s, idx, status, signal))
  {
    hide Of, History;
    var s' := Terminate(s, idx, status, signal);
    var e := Exited(s.threads[idx].pid, status, signal);
    forall i | 0 <= i < |s'.threads| ensures History(s'.threads[i], Of(s'.log, s'.threads[i].pid)) {
      OfOne(s.log, e, s.threads[i].pid);
      if i == idx {
        FirstHistory(s.threads[i], s'.threads[i], Of(s.log, s.threads[i].pid), e);
      } else {
        assert s.threads[i].pid != s.threads[idx].pid;
        assert Of(s.log, s.threads[i].pid) + [] == Of(s.log, s.threads[i].pid);
        KeepsHistory(s.threads[i], s'.threads[i], Of(s.log, s.threads[i].pid));
      }
    }
    forall pid | NoThread(s'.threads, pid) ensures Of(s'.log, pid) == [] {
      OfOne(s.log, e, pid);
      SamePids(s.threads, s'.threads, pid);
    }
  }

  lemma FirstHistory(t: Thread, t': Thread, h: seq<Event>, e: Event)
    requires History(t, h) && Alive(t.state) && e.Exited? && e.pid == t.pid
    requires t' == t.(exitStatus := Some(e.status), termSignal := e.signal, state := Zombie)
    ensures History(t', h + [e])
  {
  }

  lemma SamePids(ts: seq<Thread>, ts': seq<Thread>, pid: nat)
    requires |ts| <= |ts'| && (forall j :: 0 <= j < |ts| ==> ts'[j].pid == ts[j].pid) && NoThread(ts', pid)
    ensures NoThread(ts, pid)
  {
    forall i | 0 <= i < |ts| ensures ts[i].pid != pid { assert ts'[i].pid == ts[i].pid; }
  }

  /** Thread `t'` is `t` later: the same process, perhaps orphaned, holding no more than it did. */
  ghost predicate Heir(t: Thread, t': Thread) {
    && t'.pid == t.pid && (t'.parent == t.parent || t'.parent == 0)
    && (t'.space == t.space || t'.space.None?) && (t'.stack == t.stack || t'.stack.None?)
  }

  ghost predicate Heirs(ts: seq<Thread>, ts': seq<Thread>) {
    |ts'| == |ts| && forall j :: 0 <= j < |ts| ==> Heir(ts[j], ts'[j])
  }

  lemma HeirsKeep(s: Sched, s': Sched)
    requires Heirs(s.threads, s'.threads) && s'.nextPid == s.nextPid && Pids(s) && Owned(s.threads)
    ensures Pids(s') && Owned(s'.threads)
  {
    var ts, ts' := s.threads, s'.threads;
    forall i | 0 <= i < |ts'| ensures ts'[i].pid < s'.nextPid && ts'[i].parent <= ts'[i].pid {
      assert Heir(ts[i], ts'[i]);
    }
    forall i | 0 < i < |ts'| ensures ts'[i].parent < ts'[i].pid {
      assert Heir(ts[i], ts'[i]) && ts[0].pid != ts[i].pid;
    }
    forall i, j | 0 <= i < j < |ts'|
      ensures ts'[i].pid != ts'[j].pid
      ensures ts'[i].space.Some? ==> ts'[i].space != ts'[j].space
      ensures ts'[i].stack.Some? ==> ts'[i].stack != ts'[j].stack
    {
      assert Heir(ts[i], ts'[i]) && Heir(ts[j], ts'[j]);
    }
  }

  lemma TerminateKeeps(s: Sched, idx: nat, status: int, signal: Option<nat>)
    requires Core(s) && 0 < idx < |s.threads| && Alive(s.threads[idx].state)
    ensures Core(Terminate(s, idx, status, signal))
  {
    var s' := Terminate(s, idx, status, signal);
    TerminateParents(s, idx, status, signal);
    TerminateWaiters(s, idx, status, signal);
    TerminateHistories(s, idx, status, signal);
    hide Parents, WaitersServed, Histories, Pids, Owned;
    HeirsKeep(s, s');
  }

  // --- switching ---

  /** There is always a thread to switch to: thread 0 is runnable. */
  lemma {:induction false} FoundRunnable(ts: seq<Thread>, cur: nat, i: nat)
    requires 0 < cur < |ts| && 1 <= i <= |ts| - cur && ts[0].state == Runnable
    ensures NextFrom(ts, cur, i) != cur && ts[NextFrom(ts, cur, i)].state == Runnable
    decreases |ts| - i
  {
    if i == |ts| - cur {
      assert (cur + i) % |ts| == 0;
    } else {
      Around(|ts|, cur, i);
      if ts[(cur + i) % |ts|].state != Runnable { FoundRunnable(ts, cur, i + 1); }
    }
  }

  /** The assertion in the switch never fires, and the thread switched to is runnable. */
  lemma SwitchKeeps(s: Sched)
    requires Core(s)
    ensures Inv(Switch(s))
    ensures Switch(s).current == s.current ==> s.threads[s.current].state == Runnable
  {
    hide Parents, Owned, Of, Waits;
    if s.current != 0 { FoundRunnable(s.threads, s.current, 1); }
  }

  // --- waiting ---

  /** No end, no birth, no new zombie; families as they were. */
  ghost predicate Calm(t: Thread, t': Thread) {
    && t'.pid == t.pid && t'.parent == t.parent
    && (Alive(t.state) ==> Alive(t'.state)) && (t'.state == Zombie ==> t.state == Zombie)
  }

  ghost predicate AllCalm(ts: seq<Thread>, ts': seq<Thread>) {
    |ts'| == |ts| && forall j :: 0 <= j < |ts| ==> Calm(ts[j], ts'[j])
  }

  lemma CalmParents(ts: seq<Thread>, ts': seq<Thread>)
    requires AllCalm(ts, ts') && Parents(ts)
    ensures Parents(ts')
  {
    forall j | 0 <= j < |ts'| && ts'[j].parent != 0 ensures LivingPid(ts', ts'[j].parent) {
      assert Calm(ts[j], ts'[j]);
      var i :| 0 <= i < |ts| && ts[i].pid == ts[j].parent && Alive(ts[i].state);
      assert Calm(ts[i], ts'[i]);
    }
  }

  lemma CalmWaits(ts: seq<Thread>, ts': seq<Thread>, pid: nat, want: int)
    requires AllCalm(ts, ts') && Waits(ts, pid, want)
    ensures Waits(ts', pid, want)
  {
    var j :| 0 <= j < |ts| && IsMine(ts[j], pid, want) && Alive(ts[j].state);
    assert Calm(ts[j], ts'[j]);
    assert IsMine(ts'[j], pid, want) && Alive(ts'[j].state);
    forall k | 0 <= k < |ts'| ensures !(IsMine(ts'[k], pid, want) && ts'[k].state == Zombie) {
      assert Calm(ts[k], ts'[k]);
    }
  }

  /** In a calm step every waiter is still served, if nobody starts waiting for nothing. */
  lemma CalmWaiters(s: Sched, s': Sched)
    requires AllCalm(s.threads, s'.threads) && WaitersServed(s)
    requires forall i :: 0 <= i < |s.threads| ==> StillServed(s, s', i)
    ensures WaitersServed(s')
  {
    var ts, ts' := s.threads, s'.threads;
    forall i | 0 <= i < |ts'| && ts'[i].state == Blocked && ts'[i].blockedOn == Child
      ensures ts'[i].pid in s'.wants && Waits(ts', ts'[i].pid, s'.wants[ts'[i].pid])
    {
      assert StillServed(s, s', i) && Calm(ts[i], ts'[i]);
      CalmWaits(ts, ts', ts[i].pid, s'.wants[ts[i].pid]);
    }
  }

  ghost predicate StillServed(s: Sched, s': Sched, i: nat)
    requires i < |s.threads| == |s'.threads|
  {
    var t, t' := s.threads[i], s'.threads[i];
    t'.state == Blocked && t'.blockedOn == Child ==>
      && t.pid in s'.wants
      && (Waits(s.threads, t.pid, s'.wants[t.pid]) ||
          (t.state == Blocked && t.blockedOn == Child && t.pid in s.wants && s'.wants[t.pid] == s.wants[t.pid]))
  }

  /** The same outcome, and the same fate unless alive. */
  ghost predicate SameFate(t: Thread, t': Thread) {
    && t'.pid == t.pid && t'.exitStatus == t.exitStatus && t'.termSignal == t.termSignal
    && (Alive(t.state) <==> Alive(t'.state)) && (!Alive(t.state) ==> t' == t)
  }

  lemma SameHistories(s: Sched, s': Sched)
    requires Histories(s) && s'.log == s.log && s'.nextPid == s.nextPid && |s'.threads| == |s.threads|
    requires forall j :: 0 <= j < |s.threads| ==> SameFate(s.threads[j], s'.threads[j])
    ensures Histories(s')
  {
    hide Of;
    forall i | 0 <= i < |s'.threads| ensures History(s'.threads[i], Of(s'.log, s'.threads[i].pid)) {
      assert SameFate(s.threads[i], s'.threads[i]) && History(s.threads[i], Of(s.log, s.threads[i].pid));
    }
    forall pid | NoThread(s'.threads, pid) ensures Of(s'.log, pid) == [] { SamePids(s.threads, s'.threads, pid); }
  }

  /** A calm step that ends and collects nobody. */
  lemma CalmKeeps(s: Sched, s': Sched)
    requires Core(s) && Heirs(s.threads, s'.threads) && AllCalm(s.threads, s'.threads)
    requires s'.log == s.log && s'.nextPid == s.nextPid && s'.current == s.current && s'.threads[0].state == Runnable
    requires forall j :: 0 <= j < |s.threads| ==> SameFate(s.threads[j], s'.threads[j]) && StillServed(s, s', j)
    ensures Core(s')
  {
    hide Pids, Owned, Parents, WaitersServed, Histories, Of, Waits, SameFate, Calm, StillServed;
    HeirsKeep(s, s');
    CalmParents(s.threads, s'.threads);
    CalmWaiters(s, s');
    SameHistories(s, s');
  }

  lemma BlockKeeps(s: Sched, why: Reason)
    requires Inv(s) && s.current != 0 && why != Child
    ensures Core(BlockCurrent(s, why))
  {
    hide Pids, Owned, Parents, Histories, Of, Waits;
    CalmKeeps(s, BlockCurrent(s, why));
  }

  /** Blocking in `wait`: there is a child to wait for, and none already ended. */
  lemma WaitBlocks(s: Sched, want: int)
    requires Inv(s) && s.current != 0 && WaitOutcome(s, want) == WouldBlock
    ensures Core(WaitOnce(s, want))
  {
    hide Owned, Parents, Histories, Of;
    var s', pid := WaitOnce(s, want), s.threads[s.current].pid;
    assert Waits(s.threads, pid, want);
    forall j | 0 <= j < |s.threads| ensures StillServed(s, s', j) {
      assert j != s.current ==> s.threads[j].pid != pid;
    }
    hide Pids, Waits, StillServed;
    CalmKeeps(s, s');
  }

  lemma WakeKeeps(s: Sched, why: Reason)
    requires Inv(s)
    ensures Inv(Wake(s, why))
  {
    hide Pids, Owned, Parents, Histories, Of, Waits;
    CalmKeeps(s, Wake(s, why));
  }

  /** Collecting: the stored outcome is reported, for the first and only time. */
  lemma CollectKeeps(s: Sched, z: nat)
    requires Core(s) && z < |s.threads| && s.threads[z].state == Zombie
    ensures Core(Collect(s, z))
  {
    var s' := Collect(s, z);
    CollectHistories(s, z);
    hide Pids, Owned, Parents, Histories, Of, Waits;
    HeirsKeep(s, s');
    CalmParents(s.threads, s'.threads);
    CalmWaiters(s, s');
  }

  lemma CollectHistories(s: Sched, z: nat)
    requires Pids(s) && Histories(s) && z < |s.threads| && s.threads[z].state == Zombie
    ensures Histories(Collect(s, z))
  {
    var s' := Collect(s, z);
    var ts, ts' := s.threads, s'.threads;
    assert History(ts[z], Of(s.log, ts[z].pid));
    var e := Collected(ts[z].pid, ts[z].exitStatus.value, ts[z].termSignal);
    assert s'.log == s.log + [e];
    hide Of;
    forall i | 0 <= i < |ts'| ensures History(ts'[i], Of(s'.log, ts'[i].pid)) {
      OfOne(s.log, e, ts[i].pid);
      assert History(ts[i], Of(s.log, ts[i].pid));
      assert i != z ==> ts[i].pid != ts[z].pid;
    }
    forall pid | NoThread(ts', pid) ensures Of(s'.log, pid) == [] {
      OfOne(s.log, e, pid);
      SamePids(ts, ts', pid);
    }
  }

  // --- reaping ---

  /** What the reaper records about process `pid` among the first `n` threads. */
  lemma {:induction false} CorpsesOf(s: Sched, n: nat, pid: nat)
    requires Pids(s) && n <= |s.threads|
    ensures forall i :: 0 <= i < n && s.threads[i].pid == pid ==>
              Of(Corpses(s, n), pid) ==
              if i != s.current && Collectable(s.threads[i])
              then [Released(pid, s.threads[i].space, s.threads[i].stack)] else []
    ensures (forall i :: 0 <= i < n ==> s.threads[i].pid != pid) ==> Of(Corpses(s, n), pid) == []
  {
    if n > 0 {
      CorpsesOf(s, n - 1, pid);
      var t := s.threads[n - 1];
      if n - 1 != s.current && Collectable(t) {
        OfOne(Corpses(s, n - 1), Released(t.pid, t.space, t.stack), pid);
      } else {
        assert Corpses(s, n - 1) + [] == Corpses(s, n - 1);
      }
    }
  }

  lemma ReapHistories(s: Sched)
    requires Pids(s) && Histories(s)
    ensures Histories(Reap(s))
  {
    var s' := Reap(s);
    var ts, ts', n := s.threads, s'.threads, |s.threads|;
    hide Of, Pids, Corpses;
    forall i | 0 <= i < |ts'| ensures History(ts'[i], Of(s'.log, ts'[i].pid)) {
      var pid := ts[i].pid;
      OfMore(s.log, Corpses(s, n), pid);
      CorpsesOf(s, n, pid);
      ReapHistory(s, i, Of(s.log, pid));
    }
    forall pid | NoThread(ts', pid) ensures Of(s'.log, pid) == [] {
      OfMore(s.log, Corpses(s, n), pid);
      CorpsesOf(s, n, pid);
      SamePids(ts, ts', pid);
    }
  }

  lemma ReapHistory(s: Sched, i: nat, h: seq<Event>)
    requires i < |s.threads| && History(s.threads[i], h)
    ensures var t := s.threads[i];
            History(ReapedThread(s, i),
                    h + if i != s.current && Collectable(t) then [Released(t.pid, t.space, t.stack)] else [])
  {
    var t := s.threads[i];
    if i != s.current && Collectable(t) {
      var h' := h + [Released(t.pid, t.space, t.stack)];
      assert h'[..|h|] == h;
      var ended := Exited(t.pid, t.exitStatus.value, t.termSignal);
      if t.state == Zombie {
        assert ReleasedAfter(ReapedThread(s, i), h', [ended]);
      } else {
        assert ReleasedAfter(ReapedThread(s, i), h', [ended, Collected(t.pid, t.exitStatus.value, t.termSignal)]);
      }
    } else {
      assert h + [] == h;
    }
  }

  lemma ReapCalm(s: Sched)
    requires s.current < |s.threads| && WaitersServed(s)
    ensures Heirs(s.threads, Reap(s).threads) && AllCalm(s.threads, Reap(s).threads)
    ensures forall j :: 0 <= j < |s.threads| ==> StillServed(s, Reap(s), j)
    ensures Reap(s).threads[s.current] == s.threads[s.current]
  {
    hide Corpses, Waits;
    var s' := Reap(s);
    forall j | 0 <= j < |s.threads|
      ensures Heir(s.threads[j], s'.threads[j]) && Calm(s.threads[j], s'.threads[j]) && StillServed(s, s', j)
    {
      assert s'.threads[j] == ReapedThread(s, j);
    }
  }

  lemma ReapKeeps(s: Sched)
    requires Inv(s)
    ensures Inv(Reap(s))
  {
    var s' := Reap(s);
    assert s'.threads[0] == ReapedThread(s, 0);
    ReapHistories(s);
    ReapCalm(s);
    hide Pids, Owned, Parents, Histories, Of, Waits, Corpses, Heirs, AllCalm, StillServed, WaitersServed;
    HeirsKeep(s, s');
    CalmParents(s.threads, s'.threads);
    CalmWaiters(s, s');
  }

  // --- creating, signalling, replacing the image ---

  ghost predicate SpareSpace(s: Sched, space: Option<nat>) {
    space.Some? ==> forall i :: 0 <= i < |s.threads| ==> s.threads[i].space != space
  }

  ghost predicate SpareStack(s: Sched, stack: nat) {
    forall i :: 0 <= i < |s.threads| ==> s.threads[i].stack != Some(stack)
  }

  lemma SpawnKeeps(s: Sched, space: Option<nat>, stack: nat)
    requires Inv(s) && SpareSpace(s, space) && SpareStack(s, stack)
    ensures Inv(Spawn(s, space, stack))
  {
    SpawnPids(s, space, stack);
    SpawnParents(s, space, stack);
    SpawnWaiters(s, space, stack);
    SpawnHistories(s, space, stack);
    hide Pids, Owned, Parents, WaitersServed, Histories;
  }

  lemma SpawnParents(s: Sched, space: Option<nat>, stack: nat)
    requires Parents(s.threads) && s.current < |s.threads| && Alive(s.threads[s.current].state)
    ensures Parents(Spawn(s, space, stack).threads)
  {
    var ts, ts' := s.threads, Spawn(s, space, stack).threads;
    forall j | 0 <= j < |ts'| && ts'[j].parent != 0 ensures LivingPid(ts', ts'[j].parent) {
      if j < |ts| {
        var i :| 0 <= i < |ts| && ts[i].pid == ts[j].parent && Alive(ts[i].state);
        assert ts'[i] == ts[i];
      } else {
        assert ts'[s.current] == ts[s.current];
      }
    }
  }

  lemma SpawnWaiters(s: Sched, space: Option<nat>, stack: nat)
    requires WaitersServed(s) && s.current < |s.threads|
    ensures WaitersServed(Spawn(s, space, stack))
  {
    var ts, ts' := s.threads, Spawn(s, space, stack).threads;
    forall i | 0 <= i < |ts'| && ts'[i].state == Blocked && ts'[i].blockedOn == Child
      ensures ts'[i].pid in s.wants && Waits(ts', ts'[i].pid, s.wants[ts'[i].pid])
    {
      assert ts'[i] == ts[i];
      var j :| 0 <= j < |ts| && IsMine(ts[j], ts[i].pid, s.wants[ts[i].pid]) && Alive(ts[j].state);
      assert ts'[j] == ts[j];
    }
  }

  lemma SpawnHistories(s: Sched, space: Option<nat>, stack: nat)
    requires Histories(s) && Pids(s) && s.current < |s.threads|
    ensures Histories(Spawn(s, space, stack))
  {
    var ts, ts' := s.threads, Spawn(s, space, stack).threads;
    assert NoThread(ts, s.nextPid);
    forall pid | NoThread(ts', pid) ensures Of(s.log, pid) == [] { SamePids(ts, ts', pid); }
    forall i | 0 <= i < |ts'| ensures History(ts'[i], Of(s.log, ts'[i].pid)) {
      if i < |ts| { assert History(ts[i], Of(s.log, ts[i].pid)); }
    }
  }

  lemma SpawnPids(s: Sched, space: Option<nat>, stack: nat)
    requires Pids(s) && Owned(s.threads) && s.current < |s.threads| && SpareSpace(s, space) && SpareStack(s, stack)
    ensures Pids(Spawn(s, space, stack)) && Owned(Spawn(s, space, stack).threads)
  {
  }

  lemma ReplaceKeeps(s: Sched, space: nat)
    requires Inv(s) && s.threads[s.current].space.Some? && SpareSpace(s, Some(space))
    ensures Inv(ReplaceSpace(s, space))
  {
    ReplaceOwned(s, space);
    hide Pids, Owned, Parents, Histories, Of, Waits;
    var s' := ReplaceSpace(s, space);
    CalmParents(s.threads, s'.threads);
    CalmWaiters(s, s');
    SameHistories(s, s');
  }

  lemma ReplaceOwned(s: Sched, space: nat)
    requires Inv(s) && s.threads[s.current].space.Some? && SpareSpace(s, Some(space))
    ensures var s' := ReplaceSpace(s, space); Pids(s') && Owned(s'.threads)
  {
    hide Parents, Histories, Of, Waits, WaitersServed;
  }

  lemma PendingKeeps(s: Sched, i: nat, sig: nat)
    requires Core(s) && i < |s.threads| && Alive(s.threads[i].state)
    ensures Core(s.(threads := s.threads[i := s.threads[i].(pending := s.threads[i].pending + {sig})]))
  {
    hide Pids, Owned, Parents, Histories, Of, Waits;
    CalmKeeps(s, s.(threads := s.threads[i := s.threads[i].(pending := s.threads[i].pending + {sig})]));
  }

  lemma TerminateOther(s: Sched, idx: nat, status: int, signal: Option<nat>)
    requires idx < |s.threads| && s.current < |s.threads|
    ensures var s' := Terminate(s, idx, status, signal);
            && s'.current == s.current && |s'.threads| == |s.threads|
            && (idx != s.current && s.threads[s.current].state == Runnable ==> s'.threads[s.current].state == Runnable)
  {
  }

  lemma SignalKeeps(s: Sched, pid: nat, sig: nat)
    requires Inv(s)
    ensures Inv(Signal(s, pid, sig))
  {
    var i := Target(s.threads, pid, 0);
    hide Pids, Owned, Parents, Histories, WaitersServed, Target, Terminate, Switch;
    if i < |s.threads| && sig != 0 {
      PendingKeeps(s, i, sig);
      var s1 := s.(threads := s.threads[i := s.threads[i].(pending := s.threads[i].pending + {sig})]);
      if DefaultTerminates(sig) {
        TerminateKeeps(s1, i, 128 + sig, Some(sig));
        TerminateOther(s1, i, 128 + sig, Some(sig));
        if i == s.current { SwitchKeeps(Terminate(s1, i, 128 + sig, Some(sig))); }
      }
    }
  }

  // --- runs ---

  datatype Op =
    | DoSpawn(space: Option<nat>, stack: nat)
    | DoExit(status: int, signal: Option<nat>)
    | DoKill(target: nat, sig: nat)
    | DoWait(want: int)
    | DoBlock(why: Reason)
    | DoWake(why: Reason)
    | DoExec(newSpace: nat)
    | DoReap
    | DoYield

  /** Thread 0 neither exits nor blocks; address spaces and stacks come from the allocators. */
  ghost predicate Enabled(s: Sched, op: Op)
    requires s.current < |s.threads|
  {
    match op
    case DoSpawn(space, stack) => SpareSpace(s, space) && SpareStack(s, stack)
    case DoExit(_, _) => s.current != 0
    case DoWait(_) => s.current != 0
    case DoBlock(why) => s.current != 0 && (why == Stdin || why == Pipe)
    case DoWake(why) => why == Stdin || why == Pipe
    case DoExec(space) => s.threads[s.current].space.Some? && SpareSpace(s, Some(space))
    case _ => true
  }

  ghost function Apply(s: Sched, op: Op): Sched
    requires s.current < |s.threads|
  {
    match op
    case DoSpawn(space, stack) => Spawn(s, space, stack)
    case DoExit(status, signal) => Switch(Terminate(s, s.current, status, signal))
    case DoKill(pid, sig) => Signal(s, pid, sig)
    case DoWait(want) => if WaitOutcome(s, want) == WouldBlock then Switch(WaitOnce(s, want)) else WaitOnce(s, want)
    case DoBlock(why) => Switch(BlockCurrent(s, why))
    case DoWake(why) => Wake(s, why)
    case DoExec(space) => ReplaceSpace(s, space)
    case DoReap => Reap(s)
    case DoYield => Switch(s)
  }

  lemma ApplyKeeps(s: Sched, op: Op)
    requires Inv(s) && Enabled(s, op)
    ensures Inv(Apply(s, op))
  {
    hide Pids, Owned, Parents, WaitersServed, Histories, Terminate, Signal, Wake, ReplaceSpace, Reap, Spawn;
    match op
    case DoSpawn(space, stack) => SpawnKeeps(s, space, stack);
    case DoExit(status, signal) => {
      TerminateKeeps(s, s.current, status, signal);
      SwitchKeeps(Terminate(s, s.current, status, signal));
    }
    case DoKill(pid, sig) => SignalKeeps(s, pid, sig);
    case DoWait(want) => WaitKeeps(s, want);
    case DoBlock(why) => {
      BlockKeeps(s, why);
      SwitchKeeps(BlockCurrent(s, why));
    }
    case DoWake(why) => WakeKeeps(s, why);
    case DoExec(space) => ReplaceKeeps(s, space);
    case DoReap => ReapKeeps(s);
    case DoYield => SwitchKeeps(s);
  }

  lemma WaitKeeps(s: Sched, want: int)
    requires Inv(s) && s.current != 0
    ensures Inv(Apply(s, DoWait(want)))
  {
    hide Pids, Owned, Parents, WaitersServed, Histories, FirstZombie;
    if WaitOutcome(s, want) == WouldBlock {
      WaitBlocks(s, want);
      SwitchKeeps(WaitOnce(s, want));
    } else if WaitOutcome(s, want).Got? {
      CollectKeeps(s, FirstZombie(s.threads, s.threads[s.current].pid, want, 0));
    }
  }

  function Rank(st: State): nat {
    match st
    case Runnable => 0
    case Blocked => 0
    case Zombie => 1
    case Dead => 2
    case Reaped => 3
  }

  /** `s'` is a later state of the same run: nobody comes back to life, outcomes never change, an ended
      thread keeps its resources until it is reaped, and the history only grows. */
  ghost predicate Later(s: Sched, s': Sched) {
    && |s.threads| <= |s'.threads| && s.log <= s'.log && s.nextPid <= s'.nextPid
    && forall i :: 0 <= i < |s.threads| ==> Aged(s.threads[i], s'.threads[i])
  }

  ghost predicate Aged(t: Thread, t': Thread) {
    && t'.pid == t.pid && Rank(t.state) <= Rank(t'.state) && (t'.parent == t.parent || t'.parent == 0)
    && (!Alive(t.state) ==> t'.exitStatus == t.exitStatus && t'.termSignal == t.termSignal)
    && (!Alive(t.state) && t'.state != Reaped ==> t'.space == t.space && t'.stack == t.stack)
  }

  lemma LaterTwice(a: Sched, b: Sched, c: Sched)
    requires Later(a, b) && Later(b, c)
    ensures Later(a, c)
  {
    forall i | 0 <= i < |a.threads| ensures Aged(a.threads[i], c.threads[i]) {
      assert Aged(a.threads[i], b.threads[i]) && Aged(b.threads[i], c.threads[i]);
    }
  }

  lemma TerminateLater(s: Sched, idx: nat, status: int, signal: Option<nat>)
    requires idx < |s.threads| && Alive(s.threads[idx].state)
    ensures Later(s, Terminate(s, idx, status, signal))
  {
  }

  lemma ReapLater(s: Sched)
    requires s.current < |s.threads|
    ensures Later(s, Reap(s))
  {
    var s' := Reap(s);
    forall i | 0 <= i < |s.threads| ensures Aged(s.threads[i], s'.threads[i]) {
      assert s'.threads[i] == ReapedThread(s, i);
    }
  }

  lemma SignalLater(s: Sched, pid: nat, sig: nat)
    requires s.current < |s.threads|
    ensures Later(s, Signal(s, pid, sig))
  {
    var i := Target(s.threads, pid, 0);
    hide Target, Terminate;
    if i < |s.threads| && sig != 0 {
      var s1 := s.(threads := s.threads[i := s.threads[i].(pending := s.threads[i].pending + {sig})]);
      assert Later(s, s1);
      if DefaultTerminates(sig) {
        var s2 := Terminate(s1, i, 128 + sig, Some(sig));
        TerminateLater(s1, i, 128 + sig, Some(sig));
        TerminateSize(s1, i, 128 + sig, Some(sig));
        if i == s.current { assert Later(s2, Switch(s2)); LaterTwice(s1, s2, Switch(s2)); }
        LaterTwice(s, s1, Signal(s, pid, sig));
      }
    }
  }

  lemma TerminateSize(s: Sched, idx: nat, status: int, signal: Option<nat>)
    requires idx < |s.threads|
    ensures |Terminate(s, idx, status, signal).threads| == |s.threads|
    ensures Terminate(s, idx, status, signal).current == s.current
  {
  }

  lemma ApplyLater(s: Sched, op: Op)
    requires Inv(s) && Enabled(s, op)
    ensures Later(s, Apply(s, op))
  {
    hide Pids, Owned, Parents, WaitersServed, Histories, Terminate, Signal, Reap, FirstZombie;
    match op
    case DoExit(status, signal) => {
      TerminateLater(s, s.current, status, signal);
      TerminateSize(s, s.current, status, signal);
    }
    case DoKill(pid, sig) => SignalLater(s, pid, sig);
    case DoReap => ReapLater(s);
    case _ =>
  }

  /** A run: each state follows from the one before by an enabled operation. */
  ghost predicate IsRun(states: seq<Sched>, ops: seq<Op>) {
    && |states| == |ops| + 1 && Inv(states[0])
    && forall k :: 0 <= k < |ops| ==> Steps(states, ops, k)
  }

  ghost predicate Steps(states: seq<Sched>, ops: seq<Op>, k: nat)
    requires k < |ops| && |states| == |ops| + 1
  {
    && states[k].current < |states[k].threads| && Enabled(states[k], ops[k])
    && states[k + 1] == Apply(states[k], ops[k])
  }

  /** Over every run: the invariant holds throughout, and ends, outcomes and history are for good. */
  lemma {:induction false} RunSafe(states: seq<Sched>, ops: seq<Op>, i: nat, j: nat)
    requires IsRun(states, ops) && i <= j < |states|
    ensures Inv(states[j]) && Later(states[i], states[j])
    decreases j
  {
    hide Inv, Later, Apply, Enabled;
    if j > 0 {
      assert Steps(states, ops, j - 1);
      RunSafe(states, ops, if i < j then i else j - 1, j - 1);
      ApplyKeeps(states[j - 1], ops[j - 1]);
      ApplyLater(states[j - 1], ops[j - 1]);
      if i < j { LaterTwice(states[i], states[j - 1], states[j]); }
    }
    if i == j { LaterSelf(states[i]); }
  }

  lemma LaterSelf(s: Sched)
    ensures Later(s, s)
  {
  }

  /** The state right after start-up. */
  lemma StartSafe()
    ensures Inv(Sched([Thread(0, 0, None, None, {}, None, None, Runnable, NoReason)], 0, 1, map[], []))
  {
  }

  /** Every zombie can still be collected by its living parent or freed by the reaper. */
  lemma ZombieServed(s: Sched, i: nat)
    requires Inv(s) && i < |s.threads| && s.threads[i].state == Zombie
    ensures if s.threads[i].parent == 0 then Reap(s).threads[i].state == Reaped
            else LivingPid(s.threads, s.threads[i].parent) &&
                 FirstZombie(s.threads, s.threads[i].parent, 0, 0) <= i
  {
    hide Pids, Owned, WaitersServed, Histories, Corpses;
    if s.threads[i].parent == 0 {
      assert Reap(s).threads[i] == ReapedThread(s, i);
    }
  }

  /** In every state of every run: a process blocked in `wait` has a living child of the kind it asked for,
      and no ended one it could have collected. */
  lemma NoLostWakeup(states: seq<Sched>, ops: seq<Op>, j: nat, i: nat)
    requires IsRun(states, ops) && j < |states| && i < |states[j].threads|
    requires states[j].threads[i].state == Blocked && states[j].threads[i].blockedOn == Child
    ensures var ts, pid := states[j].threads, states[j].threads[i].pid;
            && pid in states[j].wants
            && var want := states[j].wants[pid];
               && (exists k :: 0 <= k < |ts| && ts[k].parent == pid && (want > 0 ==> ts[k].pid == want) &&
                               (ts[k].state == Runnable || ts[k].state == Blocked))
               && (forall k :: 0 <= k < |ts| && ts[k].parent == pid && ts[k].state == Zombie ==>
                     want > 0 && ts[k].pid != want)
  {
    hide IsRun, Pids, Owned, Parents, Histories;
    RunSafe(states, ops, j, j);
  }

  /** Where event `a` of the log is in its own process's history. */
  lemma Placed(log: seq<Event>, a: nat)
    requires a < |log|
    ensures var before, h := |Of(log[..a], log[a].pid)|, Of(log, log[a].pid);
            before < |h| && h[before] == log[a]
  {
    var pid := log[a].pid;
    OfMore(log[..a + 1], log[a + 1..], pid);
    OfOne(log[..a], log[a], pid);
    assert log == log[..a + 1] + log[a + 1..] && log[..a + 1] == log[..a] + [log[a]];
  }

  lemma PlacedBefore(log: seq<Event>, a: nat, b: nat)
    requires a < b <= |log|
    ensures |Of(log[..a], log[a].pid)| < |Of(log[..b], log[a].pid)|
  {
    var pid := log[a].pid;
    OfMore(log[..a + 1], log[a + 1..b], pid);
    OfOne(log[..a], log[a], pid);
    assert log[..b] == log[..a + 1] + log[a + 1..b] && log[..a + 1] == log[..a] + [log[a]];
  }

  lemma LoggedThread(s: Sched, a: nat)
    requires Histories(s) && a < |s.log|
    ensures exists i :: 0 <= i < |s.threads| && s.threads[i].pid == s.log[a].pid &&
                        History(s.threads[i], Of(s.log, s.log[a].pid))
  {
    Placed(s.log, a);
    assert !NoThread(s.threads, s.log[a].pid);
    var i :| 0 <= i < |s.threads| && s.threads[i].pid == s.log[a].pid;
    assert History(s.threads[i], Of(s.log, s.threads[i].pid));
  }

  /** Each process exits, is collected and gives up its resources at most once. */
  lemma OnceEach(s: Sched, a: nat, b: nat)
    requires Inv(s) && a < b < |s.log| && s.log[a].pid == s.log[b].pid
    ensures !(s.log[a].Exited? && s.log[b].Exited?)
    ensures !(s.log[a].Collected? && s.log[b].Collected?)
    ensures !(s.log[a].Released? && s.log[b].Released?)
  {
    Placed(s.log, a);
    Placed(s.log, b);
    PlacedBefore(s.log, a, b);
    LoggedThread(s, a);
    hide Of, Inv, History;
    var pid := s.log[a].pid;
    var i :| 0 <= i < |s.threads| && s.threads[i].pid == pid && History(s.threads[i], Of(s.log, pid));
    HistoryOnce(s.threads[i], Of(s.log, pid), |Of(s.log[..a], pid)|, |Of(s.log[..b], pid)|);
  }

  lemma HistoryOnce(t: Thread, h: seq<Event>, m: nat, n: nat)
    requires History(t, h) && m < n < |h|
    ensures !(h[m].Exited? && h[n].Exited?) && !(h[m].Collected? && h[n].Collected?)
    ensures !(h[m].Released? && h[n].Released?)
  {
    if t.state == Reaped {
      var before := h[..|h| - 1];
      assert h[m] == before[m] && (n < |before| ==> h[n] == before[n]);
    }
  }

  /** What `wait` reports is what the exit stored, earlier. */
  lemma CollectsWhatExited(s: Sched, b: nat)
    requires Inv(s) && b < |s.log| && s.log[b].Collected?
    ensures exists a :: 0 <= a < b && s.log[a] == Exited(s.log[b].pid, s.log[b].status, s.log[b].signal)
  {
    hide Of, History, Pids, Parents, WaitersServed, Owned, Histories;
    LoggedThread(s, b);
    hide Inv;
    var pid := s.log[b].pid;
    Placed(s.log, b);
    var h, n := Of(s.log, pid), |Of(s.log[..b], pid)|;
    var i :| 0 <= i < |s.threads| && s.threads[i].pid == pid && History(s.threads[i], h);
    HistoryOrder(s.threads[i], h, n);
    OfMore(s.log[..b], s.log[b..], pid);
    assert s.log == s.log[..b] + s.log[b..];
    InLog(s.log[..b], pid, 0);
  }

  lemma HistoryOrder(t: Thread, h: seq<Event>, n: nat)
    requires History(t, h) && n < |h| && h[n].Collected?
    ensures n == 1 && h[0] == Exited(t.pid, h[1].status, h[1].signal) && h[1].pid == t.pid
  {
    if t.state == Reaped { assert h[n] == h[..|h| - 1][n] && h[0] == h[..|h| - 1][0]; }
  }

  lemma {:induction false} InLog(log: seq<Event>, pid: nat, k: nat)
    requires k < |Of(log, pid)|
    ensures exists a :: 0 <= a < |log| && log[a] == Of(log, pid)[k]
  {
    var n := |log| - 1;
    if k < |Of(log[..n], pid)| {
      InLog(log[..n], pid, k);
      var a :| 0 <= a < n && log[..n][a] == Of(log[..n], pid)[k];
      assert log[a] == Of(log, pid)[k];
    } else {
      assert log[n] == Of(log, pid)[k];
    }
  }

  // --- what is released ---

  /** Event `e` gives up exactly what thread `i` held in `s`, and nobody holds that in `s'`. */
  ghost predicate GivesUp(s: Sched, s': Sched, i: nat, e: Event) {
    && i < |s.threads| && e == Released(s.threads[i].pid, s.threads[i].space, s.threads[i].stack)
    && i != s.current && Collectable(s.threads[i])
    && forall j :: 0 <= j < |s'.threads| ==>
         && (e.space.Some? ==> s'.threads[j].space != e.space) && (e.stack.Some? ==> s'.threads[j].stack != e.stack)
  }

  lemma {:induction false} CorpseOfWhom(s: Sched, n: nat, k: nat) returns (i: nat)
    requires n <= |s.threads| && k < |Corpses(s, n)|
    ensures i < n && i != s.current && Collectable(s.threads[i])
    ensures Corpses(s, n)[k] == Released(s.threads[i].pid, s.threads[i].space, s.threads[i].stack)
  {
    if k < |Corpses(s, n - 1)| {
      i := CorpseOfWhom(s, n - 1, k);
    } else {
      i := n - 1;
    }
  }

  lemma ReapGivesUp(s: Sched, k: nat) returns (i: nat)
    requires Owned(s.threads) && |s.log| <= k < |Reap(s).log|
    ensures GivesUp(s, Reap(s), i, Reap(s).log[k])
  {
    i := CorpseOfWhom(s, |s.threads|, k - |s.log|);
    var s' := Reap(s);
    hide Corpses;
    assert forall j :: 0 <= j < |s'.threads| ==> s'.threads[j] == ReapedThread(s, j);
  }

  /** Only the reaper releases anything. */
  lemma OnlyReapReleases(s: Sched, op: Op, k: nat)
    requires Inv(s) && Enabled(s, op) && |s.log| <= k < |Apply(s, op).log| && Apply(s, op).log[k].Released?
    ensures op.DoReap?
  {
    hide Pids, Owned, Parents, WaitersServed, Histories, Reap, FirstZombie, Target, Corpses;
  }

  ghost predicate SomeoneGivesUp(s: Sched, s': Sched, e: Event) { exists i :: GivesUp(s, s', i, e) }

  /** Step `k` of the run is the reaper's, and it released just what `e` says. */
  ghost predicate ReleasedAt(states: seq<Sched>, ops: seq<Op>, k: nat, e: Event)
    requires |states| == |ops| + 1 && k < |ops|
  {
    ops[k].DoReap? && SomeoneGivesUp(states[k], states[k + 1], e)
  }

  /** Over every run: whatever was released was, at that moment, what the ended thread named still held. */
  lemma {:induction false} RunReleases(states: seq<Sched>, ops: seq<Op>, j: nat, a: nat)
    requires IsRun(states, ops) && j < |states| && |states[0].log| <= a < |states[j].log| && states[j].log[a].Released?
    ensures exists k :: 0 <= k < j && ReleasedAt(states, ops, k, states[j].log[a])
  {
    hide Inv, Apply, Enabled, Reap, GivesUp, Aged;
    assert Steps(states, ops, j - 1);
    RunSafe(states, ops, j - 1, j - 1);
    RunSafe(states, ops, j - 1, j);
    if a < |states[j - 1].log| {
      assert states[j].log[a] == states[j - 1].log[a];
      RunReleases(states, ops, j - 1, a);
    } else {
      var s := states[j - 1];
      OnlyReapReleases(s, ops[j - 1], a);
      ReapIs(s, ops[j - 1]);
      var i := ReapGivesUp(s, a);
      assert ReleasedAt(states, ops, j - 1, states[j].log[a]);
    }
  }

  lemma ReapIs(s: Sched, op: Op)
    requires Inv(s) && Enabled(s, op) && op.DoReap?
    ensures Apply(s, op) == Reap(s) && Owned(s.threads)
  {
    hide Pids, Owned, Parents, WaitersServed, Histories, Reap;
  }

  // --- progress ---

  /** How far round the ring `k` is from `cur`. */
  function Ahead(n: nat, cur: nat, k: nat): (d: nat)
    requires cur < n && k < n
    ensures d < n && (d == 0 <==> cur == k)
  {
    if cur <= k then k - cur else k + n - cur
  }

  lemma {:induction false} NextNearer(ts: seq<Thread>, cur: nat, k: nat, i: nat)
    requires cur < |ts| && k < |ts| && k != cur && ts[k].state == Runnable && 1 <= i <= Ahead(|ts|, cur, k)
    ensures Ahead(|ts|, NextFrom(ts, cur, i), k) < Ahead(|ts|, cur, k)
    decreases |ts| - i
  {
    var n := |ts|;
    Around(n, cur, i);
    if ts[(cur + i) % n].state != Runnable {
      assert (cur + i) % n != k;
      NextNearer(ts, cur, k, i + 1);
    }
  }

  lemma Around(n: nat, cur: nat, i: nat)
    requires cur < n && i < n
    ensures (cur + i) % n == if cur + i < n then cur + i else cur + i - n
  {
  }

  /** The thread that has the processor after the first `m` switches. */
  ghost function After(lists: seq<seq<Thread>>, n: nat, cur: nat, m: nat): nat
    requires m <= |lists| && cur < n && forall l :: 0 <= l < |lists| ==> |lists[l]| == n
    ensures After(lists, n, cur, m) < n
  {
    if m == 0 then cur else Next(lists[m - 1], After(lists, n, cur, m - 1))
  }

  /** Round robin: with a fixed number of threads, one that stays runnable is reached within `n - 1`
      switches, whatever else changes in between. */
  lemma {:induction false} Progress(lists: seq<seq<Thread>>, n: nat, cur: nat, k: nat)
    requires cur < n && k < n && |lists| == n - 1
    requires forall l :: 0 <= l < |lists| ==> |lists[l]| == n && lists[l][k].state == Runnable
    ensures exists m :: 0 <= m <= n - 1 && After(lists, n, cur, m) == k
  {
    var m := Ahead(n, cur, k);
    ProgressBy(lists, n, cur, k, m);
  }

  lemma {:induction false} ProgressBy(lists: seq<seq<Thread>>, n: nat, cur: nat, k: nat, m: nat)
    requires cur < n && k < n && m <= |lists|
    requires forall l :: 0 <= l < |lists| ==> |lists[l]| == n && lists[l][k].state == Runnable
    ensures (exists j :: 0 <= j <= m && After(lists, n, cur, j) == k)
            || Ahead(n, After(lists, n, cur, m), k) + m <= Ahead(n, cur, k)
  {
    if m > 0 {
      ProgressBy(lists, n, cur, k, m - 1);
      var at := After(lists, n, cur, m - 1);
      if at != k { NextNearer(lists[m - 1], at, k, 1); }
    }
  }
}
