/** The scheduler as the kernel runs it: a vector of threads updated in place, one critical section at a
    time. Each operation is shown to do what its value-level description says. */
module Scheduler {
  import opened Basics
  import opened Threads
  import opened Lifecycle
  import ThreadLaws

  class RoundRobin {
    var threads: seq<Thread>
    var current: nat
    var nextPid: nat
    ghost var wants: map<nat, int>
    ghost var log: seq<Event>

    ghost function Now(): Sched
      reads this
    {
      Sched(threads, current, nextPid, wants, log)
    }

    ghost predicate Valid()
      reads this
    {
      Inv(Now())
    }

    /** Start-up: the context that is running becomes thread 0. */
    constructor ()
      ensures Valid() && |threads| == 1 && threads[0].pid == 0 && current == 0 && nextPid == 1 && log == []
    {
      threads := [Thread(0, 0, None, None, {}, None, None, Runnable, NoReason)];
      current, nextPid, wants, log := 0, 1, map[], [];
      new;
      StartSafe();
    }

    /** A new thread or process, child of the current one. */
    method AddThread(space: Option<nat>, stack: nat) returns (pid: nat)
      requires Valid() && SpareSpace(Now(), space) && SpareStack(Now(), stack)
      modifies this
      ensures Valid() && Now() == Spawn(old(Now()), space, stack) && pid == old(nextPid)
    {
      SpawnKeeps(Now(), space, stack);
      hide Inv, SpareSpace, SpareStack;
      var parent := threads[current].pid;
      pid := nextPid;
      nextPid := nextPid + 1;
      threads := threads + [Thread(pid, parent, None, None, {}, Some(stack), space, Runnable, NoReason)];
    }

    /** Hands the children of `pid` over to the kernel. */
    method OrphanChildren(pid: nat)
      modifies this`threads
      ensures |threads| == |old(threads)|
      ensures forall j :: 0 <= j < |threads| ==> threads[j] == Orphaned(old(threads)[j], pid)
    {
      var i := 0;
      while i < |threads|
        invariant 0 <= i <= |threads| == |old(threads)|
        invariant forall j :: 0 <= j < |threads| ==>
                    threads[j] == if j < i then Orphaned(old(threads)[j], pid) else old(threads)[j]
      {
        if threads[i].parent == pid {
          threads := threads[i := threads[i].(parent := 0)];
        }
        i := i + 1;
      }
    }

    /** Wakes process `pid` if it is blocked in `wait`. */
    method WakeWaiter(pid: nat)
      requires forall i, j :: 0 <= i < j < |threads| ==> threads[i].pid != threads[j].pid
      modifies this`threads
      ensures |threads| == |old(threads)|
      ensures forall j :: 0 <= j < |threads| ==>
                threads[j] ==
                if old(threads)[j].pid == pid then WokenThread(old(threads)[j], Child) else old(threads)[j]
    {
      var i := 0;
      while i < |threads|
        invariant 0 <= i <= |threads| && threads == old(threads)
        invariant forall j :: 0 <= j < i && threads[j].pid == pid ==> WokenThread(threads[j], Child) == threads[j]
      {
        if threads[i].pid == pid && threads[i].state == Blocked && threads[i].blockedOn == Child {
          threads := threads[i := threads[i].(state := Runnable)];
          return;
        }
        i := i + 1;
      }
    }

    /** Marks thread `idx` ended, orphans its children and wakes its parent from `wait`. */
    method EndThread(idx: nat, status: int, signal: Option<nat>)
      requires Core(Now()) && 0 < idx < |threads| && Alive(threads[idx].state)
      modifies this`threads, this`log
      ensures Core(Now()) && Now() == Terminate(old(Now()), idx, status, signal)
    {
      TerminateKeeps(Now(), idx, status, signal);
      ghost var s0 := Now();
      PidsOf(s0);
      hide Core;
      var pid := threads[idx].pid;
      threads := threads[idx := threads[idx].(exitStatus := Some(status), termSignal := signal, state := Zombie)];
      OrphanChildren(pid);
      var parentPid := threads[idx].parent;
      if parentPid != 0 {
        WakeWaiter(parentPid);
      }
      log := log + [Exited(pid, status, signal)];
      IsTerminate(s0, idx, status, signal, Now());
    }

    /** Gives the processor to the next runnable thread after the current one, if any. */
    method SwitchToNext() returns (switched: bool)
      requires Core(Now())
      modifies this`current
      ensures Valid() && Now() == Switch(old(Now())) && switched == (current != old(current))
    {
      SwitchKeeps(Now());
      CurrentIn(Now());
      hide Inv, Core, Next;
      var next := FindNext(threads, current);
      if next.Some? {
        current := next.value;
        return true;
      }
      assert threads[current].state == Runnable;
      switched := false;
    }

    /** `exit`: ends the current process and leaves it for good. */
    method ExitCurrent(status: int, signal: Option<nat>)
      requires Valid() && current != 0
      modifies this
      ensures Valid() && Now() == Switch(Terminate(old(Now()), old(current), status, signal))
      ensures current != old(current) && threads[current].state == Runnable
    {
      hide Histories, WaitersServed, Parents, Pids, Owned;
      ghost var s0 := Now();
      TerminateSize(s0, current, status, signal);
      EndThread(current, status, signal);
      assert threads[current].state == Zombie;
      var _ := SwitchToNext();
    }

    /** `kill`: signal 0 only tests; a fatal signal ends the target at once. */
    method SendSignal(target: nat, sig: nat) returns (delivered: bool)
      requires Valid()
      modifies this
      ensures Valid() && Now() == Signal(old(Now()), target, sig)
      ensures delivered <==> exists i :: 0 <= i < |old(threads)| && old(threads)[i].pid == target &&
                                         old(threads)[i].space.Some? && Alive(old(threads)[i].state)
    {
      ghost var s0 := Now();
      SignalKeeps(s0, target, sig);
      var idx := FindTarget(threads, target);
      if idx == |threads| { return false; }
      hide Histories, WaitersServed, Parents, Pids, Owned, Terminate, Switch, Target;
      delivered := true;
      if sig == 0 { return; }
      PendingKeeps(s0, idx, sig);
      threads := threads[idx := threads[idx].(pending := threads[idx].pending + {sig})];
      if DefaultTerminates(sig) {
        TerminateSize(Now(), idx, 128 + sig, Some(sig));
        EndThread(idx, 128 + sig, Some(sig));
        if idx == current {
          var _ := SwitchToNext();
        }
      }
    }

    /** One attempt at `wait`, scan and blocking in one critical section. */
    method TryCollectOrBlock(want: int) returns (r: WaitResult)
      requires Valid() && current != 0
      modifies this`threads, this`wants, this`log
      ensures Core(Now()) && Now() == WaitOnce(old(Now()), want) && r == WaitOutcome(old(Now()), want)
      ensures var ts, me := old(threads), old(threads)[old(current)].pid;
              && (r.Got? ==> exists z :: 0 <= z < |ts| && ts[z].pid == r.pid && ts[z].parent == me &&
                                         ts[z].state == Zombie && ts[z].termSignal == r.signal &&
                                         ts[z].exitStatus == Some(r.status))
              && (r.Got? && want > 0 ==> r.pid == want)
              && (r.WouldBlock? ==>
                    exists z :: 0 <= z < |ts| && ts[z].parent == me && (want > 0 ==> ts[z].pid == want) &&
                                (ts[z].state == Runnable || ts[z].state == Blocked))
              && (!r.Got? ==> forall z :: 0 <= z < |ts| && ts[z].parent == me && ts[z].state == Zombie ==>
                    want > 0 && ts[z].pid != want)
    {
      WaitSafe(Now(), want);
      CurrentIn(Now());
      ghost var answer := WaitOutcome(Now(), want);
      ThreadLaws.WaitBlocksWhen(Now(), want);
      if answer.Got? {
        ghost var first := ThreadLaws.WaitCollects(Now(), want);
      }
      hide Inv, Core, FirstZombie, HasLivingChild;
      var cur := current;
      var pid := threads[cur].pid;
      var z := FindZombie(threads, pid, want);
      if z < |threads| {
        var t := threads[z];
        var status := if t.exitStatus.Some? then t.exitStatus.value else 0;
        threads := threads[z := t.(state := Dead)];
        log := log + [Collected(t.pid, status, t.termSignal)];
        return Got(t.pid, status, t.termSignal);
      }
      var living := FindLiving(threads, pid, want);
      if living {
        threads := threads[cur := threads[cur].(state := Blocked, blockedOn := Child)];
        wants := wants[pid := want];
        return WouldBlock;
      }
      r := NoChildren;
    }

    /** One round of `wait`: an attempt, and the processor given away if it blocked. */
    method WaitRound(want: int) returns (r: WaitResult)
      requires Valid() && current != 0
      modifies this
      ensures Valid() && Now() == Apply(old(Now()), DoWait(want)) && r == WaitOutcome(old(Now()), want)
    {
      ApplyKeeps(Now(), DoWait(want));
      hide Histories, WaitersServed, Parents, Pids, Owned, FirstZombie;
      r := TryCollectOrBlock(want);
      if r == WouldBlock {
        var _ := SwitchToNext();
      }
    }

    /** Blocks the current process on the console or on a pipe. */
    method BlockOn(why: Reason)
      requires Valid() && current != 0 && (why == Stdin || why == Pipe)
      modifies this
      ensures Valid() && Now() == Switch(BlockCurrent(old(Now()), why))
    {
      BlockKeeps(Now(), why);
      hide Histories, WaitersServed, Parents, Pids, Owned;
      threads := threads[current := threads[current].(state := Blocked, blockedOn := why)];
      var _ := SwitchToNext();
    }

    /** Wakes everyone blocked for that reason. */
    method WakeAll(why: Reason)
      requires Valid() && (why == Stdin || why == Pipe)
      modifies this`threads
      ensures Valid() && Now() == Wake(old(Now()), why)
    {
      WakeKeeps(Now(), why);
      hide Inv;
      ghost var s0 := Now();
      var i := 0;
      while i < |threads|
        invariant 0 <= i <= |threads| == |s0.threads|
        invariant forall j :: 0 <= j < |threads| ==>
                    threads[j] == if j < i then WokenThread(s0.threads[j], why) else s0.threads[j]
      {
        if threads[i].state == Blocked && threads[i].blockedOn == why {
          threads := threads[i := threads[i].(state := Runnable)];
        }
        i := i + 1;
      }
      IsWake(s0, why, threads);
    }

    /** The reaper's scan: takes what collectable threads hold and leaves tombstones. */
    method TakeCorpses() returns (corpses: seq<(Option<nat>, Option<nat>)>)
      modifies this`threads
      ensures |threads| == |old(threads)|
      ensures forall j :: 0 <= j < |threads| ==> threads[j] == ReapedThread(old(Now()), j)
      ensures AreCorpses(corpses, Corpses(old(Now()), |old(threads)|))
    {
      hide Corpses, AreCorpses;
      ghost var s0 := Now();
      corpses := [];
      var i := 0;
      NoCorpses(s0);
      while i < |threads|
        invariant 0 <= i <= |threads| == |s0.threads|
        invariant forall j :: 0 <= j < i ==> threads[j] == ReapedThread(s0, j)
        invariant threads[i..] == s0.threads[i..]
        invariant AreCorpses(corpses, Corpses(s0, i))
      {
        var t := threads[i];
        assert t == s0.threads[i];
        OneMore(s0, i, corpses);
        if i != current && (t.state == Dead || (t.state == Zombie && t.parent == 0)) {
          corpses := corpses + [(t.space, t.stack)];
          threads := threads[i := t.(space := None, stack := None, state := Reaped)];
        }
        i := i + 1;
      }
    }

    /** Takes the address spaces and stacks of threads nobody will ask about any more. */
    method ReapAll() returns (corpses: seq<(Option<nat>, Option<nat>)>)
      requires Valid()
      modifies this`threads, this`log
      ensures Valid() && Now() == Reap(old(Now()))
      ensures AreCorpses(corpses, Corpses(old(Now()), |old(threads)|))
    {
      ReapKeeps(Now());
      hide Inv, Corpses, AreCorpses, ReapedThread, Reap;
      ghost var s0 := Now();
      corpses := TakeCorpses();
      log := log + Corpses(s0, |s0.threads|);
      IsReap(s0, Now());
    }
  }

  /** The round-robin scan: the first runnable thread after `cur`. */
  method FindNext(ts: seq<Thread>, cur: nat) returns (next: Option<nat>)
    requires cur < |ts|
    ensures next.Some? ==> next.value == Next(ts, cur) != cur && ts[next.value].state == Runnable
    ensures next.None? ==> Next(ts, cur) == cur
    ensures next.None? <==> forall k :: 0 <= k < |ts| && k != cur ==> ts[k].state != Runnable
  {
    var i := 1;
    while i < |ts|
      invariant 1 <= i <= |ts| && Next(ts, cur) == NextFrom(ts, cur, i)
      invariant forall k :: 0 <= k < |ts| && k != cur && Ahead(|ts|, cur, k) < i ==> ts[k].state != Runnable
    {
      Around(|ts|, cur, i);
      var c := (cur + i) % |ts|;
      if ts[c].state == Runnable { return Some(c); }
      i := i + 1;
    }
    next := None;
  }

  /** The living user process with that number, or the length. */
  method FindTarget(ts: seq<Thread>, target: nat) returns (idx: nat)
    ensures idx == Target(ts, target, 0) <= |ts|
    ensures idx < |ts| <==>
            exists i :: 0 <= i < |ts| && ts[i].pid == target && ts[i].space.Some? && Alive(ts[i].state)
  {
    idx := 0;
    while idx < |ts| && !(ts[idx].pid == target && ts[idx].space.Some? && Alive(ts[idx].state))
      invariant 0 <= idx <= |ts| && Target(ts, target, 0) == Target(ts, target, idx)
      invariant forall j :: 0 <= j < idx ==> !(ts[j].pid == target && ts[j].space.Some? && Alive(ts[j].state))
    {
      idx := idx + 1;
    }
  }

  /** The first ended child the wait may collect, or the length. */
  method FindZombie(ts: seq<Thread>, pid: nat, want: int) returns (z: nat)
    ensures z == FirstZombie(ts, pid, want, 0)
  {
    z := 0;
    while z < |ts| && !(IsMine(ts[z], pid, want) && ts[z].state == Zombie)
      invariant 0 <= z <= |ts| && FirstZombie(ts, pid, want, 0) == FirstZombie(ts, pid, want, z)
    {
      z := z + 1;
    }
  }

  method FindLiving(ts: seq<Thread>, pid: nat, want: int) returns (found: bool)
    ensures found == HasLivingChild(ts, pid, want)
  {
    for i := 0 to |ts|
      invariant forall j :: 0 <= j < i ==> !(IsMine(ts[j], pid, want) && Alive(ts[j].state))
    {
      if IsMine(ts[i], pid, want) && Alive(ts[i].state) { return true; }
    }
    found := false;
  }

  lemma IsTerminate(s: Sched, idx: nat, status: int, signal: Option<nat>, s': Sched)
    requires idx < |s.threads| == |s'.threads| && s' == s.(threads := s'.threads, log := s'.log)
    requires s'.log == s.log + [Exited(s.threads[idx].pid, status, signal)]
    requires s.threads[idx].parent != s.threads[idx].pid
    requires forall j :: 0 <= j < |s.threads| ==> s'.threads[j] == Stepwise(s.threads, idx, status, signal, j)
    ensures s' == Terminate(s, idx, status, signal)
  {
    var s1 := Terminate(s, idx, status, signal);
    forall j | 0 <= j < |s.threads| ensures s'.threads[j] == s1.threads[j] {
      assert s1.threads[j] == Ended(s.threads, idx, status, signal, j);
    }
    assert s'.threads == s1.threads;
  }

  /** Thread `j` after the three updates in the order the code makes them. */
  ghost function Stepwise(ts: seq<Thread>, idx: nat, status: int, signal: Option<nat>, j: nat): Thread
    requires idx < |ts| && j < |ts|
  {
    var t := if j == idx then ts[j].(exitStatus := Some(status), termSignal := signal, state := Zombie) else ts[j];
    var t1 := Orphaned(t, ts[idx].pid);
    if ts[idx].parent != 0 && t1.pid == ts[idx].parent then WokenThread(t1, Child) else t1
  }

  lemma IsWake(s: Sched, why: Reason, ts: seq<Thread>)
    requires |ts| == |s.threads| && forall j :: 0 <= j < |ts| ==> ts[j] == WokenThread(s.threads[j], why)
    ensures ts == Wake(s, why).threads
  {
  }

  lemma IsReap(s: Sched, s': Sched)
    requires |s'.threads| == |s.threads| && s' == s.(threads := s'.threads, log := s'.log)
    requires s'.log == s.log + Corpses(s, |s.threads|)
    requires forall j :: 0 <= j < |s.threads| ==> s'.threads[j] == ReapedThread(s, j)
    ensures s' == Reap(s)
  {
    hide Corpses, ReapedThread;
    assert s'.threads == Reap(s).threads;
  }

  function Orphaned(t: Thread, pid: nat): Thread {
    if t.parent == pid then t.(parent := 0) else t
  }

  /** What was taken is what the history records. */
  ghost predicate AreCorpses(corpses: seq<(Option<nat>, Option<nat>)>, events: seq<Event>) {
    && |corpses| == |events|
    && forall k :: 0 <= k < |corpses| ==> events[k].Released? && corpses[k] == (events[k].space, events[k].stack)
  }

  lemma NoCorpses(s: Sched)
    ensures AreCorpses([], Corpses(s, 0))
  {
  }

  lemma OneMore(s: Sched, i: nat, corpses: seq<(Option<nat>, Option<nat>)>)
    requires i < |s.threads| && AreCorpses(corpses, Corpses(s, i))
    ensures var t := s.threads[i];
            AreCorpses(if i != s.current && Collectable(t) then corpses + [(t.space, t.stack)] else corpses,
                       Corpses(s, i + 1))
  {
  }

  lemma CurrentIn(s: Sched)
    requires Core(s)
    ensures s.current < |s.threads|
  {
  }

  lemma PidsOf(s: Sched)
    requires Core(s)
    ensures forall i, j :: 0 <= i < j < |s.threads| ==> s.threads[i].pid != s.threads[j].pid
    ensures forall i :: 0 < i < |s.threads| ==> s.threads[i].parent < s.threads[i].pid
  {
  }

  lemma WaitSafe(s: Sched, want: int)
    requires Inv(s) && s.current != 0
    ensures Core(WaitOnce(s, want))
  {
    hide Pids, Owned, Parents, WaitersServed, Histories, FirstZombie;
    if WaitOutcome(s, want) == WouldBlock {
      WaitBlocks(s, want);
    } else if WaitOutcome(s, want).Got? {
      CollectKeeps(s, FirstZombie(s.threads, s.threads[s.current].pid, want, 0));
    }
  }
}
