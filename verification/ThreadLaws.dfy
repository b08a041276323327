/** What the scheduler's operations answer and change, field by field. */
module ThreadLaws {
  import opened Basics
  import opened Threads
  import opened Lifecycle

  // --- wait ---

  /** `wait` hands over the first ended child in the vector that has the caller for a parent and, if a number
      was asked for, that number; with its stored outcome, and nothing else is changed. */
  lemma WaitCollects(s: Sched, want: int) returns (z: nat)
    requires s.current < |s.threads| && WaitOutcome(s, want).Got?
    ensures var ts, me, r := s.threads, s.threads[s.current].pid, WaitOutcome(s, want);
            && z < |ts| && ts[z].parent == me && ts[z].state == Zombie && (want > 0 ==> ts[z].pid == want)
            && (forall k :: 0 <= k < z ==>
                  ts[k].parent == me && ts[k].state == Zombie ==> want > 0 && ts[k].pid != want)
            && r.pid == ts[z].pid && r.signal == ts[z].termSignal
            && r.status == (match ts[z].exitStatus case None => 0 case Some(e) => e)
            && WaitOnce(s, want).threads == ts[z := ts[z].(state := Dead)]
            && WaitOnce(s, want).current == s.current && WaitOnce(s, want).nextPid == s.nextPid
  {
    z := FirstZombie(s.threads, s.threads[s.current].pid, want, 0);
    hide FirstZombie;
  }

  /** It blocks exactly when no such child has ended and one is alive, and otherwise says there is none. */
  lemma WaitBlocksWhen(s: Sched, want: int)
    requires s.current < |s.threads|
    ensures var ts, me, r := s.threads, s.threads[s.current].pid, WaitOutcome(s, want);
            var ended := exists k :: 0 <= k < |ts| && ts[k].parent == me && (want > 0 ==> ts[k].pid == want) &&
                                     ts[k].state == Zombie;
            var living := exists k :: 0 <= k < |ts| && ts[k].parent == me && (want > 0 ==> ts[k].pid == want) &&
                                      (ts[k].state == Runnable || ts[k].state == Blocked);
            && (r.Got? <==> ended) && (r.WouldBlock? <==> !ended && living) && (r.NoChildren? <==> !ended && !living)
            && (r.WouldBlock? ==>
                  WaitOnce(s, want).threads == ts[s.current := ts[s.current].(state := Blocked, blockedOn := Child)])
            && (r.NoChildren? ==> WaitOnce(s, want) == s)
  {
    var ts, me := s.threads, s.threads[s.current].pid;
    var z := FirstZombie(ts, me, want, 0);
    hide FirstZombie;
    assert z < |ts| <==> exists k :: 0 <= k < |ts| && IsMine(ts[k], me, want) && ts[k].state == Zombie;
  }

  /** A thread that waits for 3 does not get 2. */
  lemma WaitsForTheOneAsked(s: Sched, want: int)
    requires s.current < |s.threads| && want > 0 && WaitOutcome(s, want).Got?
    ensures WaitOutcome(s, want).pid == want
  {
    var z := WaitCollects(s, want);
  }

  // --- ending ---

  /** The thread that ends keeps its number, its parent, its stack and its space, and stores the outcome. */
  lemma EndsItself(s: Sched, idx: nat, status: int, signal: Option<nat>)
    requires idx < |s.threads|
    ensures var t, t' := s.threads[idx], Terminate(s, idx, status, signal).threads[idx];
            && t'.state == Zombie && t'.exitStatus == Some(status) && t'.termSignal == signal
            && t'.pid == t.pid && t'.parent == t.parent && t'.stack == t.stack && t'.space == t.space
  {
  }

  /** Its children have no parent any more, its parent is woken if it was waiting, and that is all. */
  lemma EndsForOthers(s: Sched, idx: nat, status: int, signal: Option<nat>, j: nat)
    requires idx < |s.threads| && j < |s.threads| && j != idx
    ensures var ended, t, t' := s.threads[idx], s.threads[j], Terminate(s, idx, status, signal).threads[j];
            && t'.parent == (if t.parent == ended.pid then 0 else t.parent)
            && (t'.state != t.state ==> t.state == Blocked && t'.state == Runnable)
            && (t'.state != t.state <==>
                  t.state == Blocked && t.blockedOn == Child && t.pid == ended.parent && ended.parent != 0)
            && t' == t.(parent := t'.parent, state := t'.state)
  {
  }

  // --- signals ---

  /** A signal to a living user process is noted; any but the eight that stop, continue or inform ends it at
      once, with 128 and the signal for a status. */
  lemma SignalEnds(s: Sched, pid: nat, sig: nat, i: nat)
    requires s.current < |s.threads| && Inv(s) && sig != 0
    requires i < |s.threads| && s.threads[i].pid == pid && s.threads[i].space.Some? && Alive(s.threads[i].state)
    ensures var t, t' := s.threads[i], Signal(s, pid, sig).threads[i];
            && |Signal(s, pid, sig).threads| == |s.threads| && t'.pending == t.pending + {sig}
            && (if sig in {17, 18, 19, 20, 21, 22, 23, 28} then t' == t.(pending := t'.pending)
                else t'.state == Zombie && t'.exitStatus == Some(128 + sig) && t'.termSignal == Some(sig))
  {
    TheTarget(s, pid, i);
    hide Target, Inv;
  }

  lemma TheTarget(s: Sched, pid: nat, i: nat)
    requires Inv(s) && i < |s.threads| && s.threads[i].pid == pid
    requires s.threads[i].space.Some? && Alive(s.threads[i].state)
    ensures Target(s.threads, pid, 0) == i
  {
    hide Histories, WaitersServed, Parents, Owned;
    TargetBefore(s.threads, pid, 0, i);
  }

  lemma {:induction false} TargetBefore(ts: seq<Thread>, pid: nat, k: nat, i: nat)
    requires k <= i < |ts| && ts[i].pid == pid && ts[i].space.Some? && Alive(ts[i].state)
    ensures Target(ts, pid, k) <= i
    decreases i - k
  {
    if k < i { TargetBefore(ts, pid, k + 1, i); }
  }

  /** A signal to nobody, or the test signal, changes nothing. */
  lemma SignalMisses(s: Sched, pid: nat, sig: nat)
    requires s.current < |s.threads|
    requires sig == 0 || forall i :: 0 <= i < |s.threads| ==>
               !(s.threads[i].pid == pid && s.threads[i].space.Some? && Alive(s.threads[i].state))
    ensures Signal(s, pid, sig) == s
  {
    hide Target;
  }

  // --- blocking and waking ---

  /** Who blocks for a reason is runnable again after everybody is woken for that reason, and nothing else of
      it has changed; who is blocked for another reason stays so. */
  lemma WakesWhoBlocked(s: Sched, why: Reason, other: Reason)
    requires s.current < |s.threads|
    ensures var t, b := s.threads[s.current], BlockCurrent(s, why);
            && b.threads[s.current].state == Blocked && b.threads[s.current].blockedOn == why
            && Wake(b, why).threads[s.current] == t.(state := Runnable, blockedOn := why)
            && (other != why ==> Wake(b, other).threads[s.current] == b.threads[s.current])
    ensures forall j :: 0 <= j < |s.threads| && j != s.current ==> BlockCurrent(s, why).threads[j] == s.threads[j]
  {
  }

  lemma WakesExactly(s: Sched, why: Reason, j: nat)
    requires j < |s.threads|
    ensures var t, t' := s.threads[j], Wake(s, why).threads[j];
            && t' == t.(state := t'.state)
            && t'.state == (if t.state == Blocked && t.blockedOn == why then Runnable else t.state)
  {
  }

  // --- the reaper ---

  /** The reaper takes the stack and the space of every other thread that was collected, or that ended and
      has no parent; and touches no other. */
  lemma ReapsExactly(s: Sched, j: nat)
    requires j < |s.threads|
    ensures var t, t' := s.threads[j], Reap(s).threads[j];
            if j != s.current && (t.state == Dead || (t.state == Zombie && t.parent == 0))
            then t' == t.(state := Reaped, stack := None, space := None) else t' == t
  {
  }

  // --- who is next ---

  /** The index `m` places further round the vector. */
  function Round(n: nat, cur: nat, m: nat): (i: nat)
    requires cur < n
    ensures i < n
  {
    (cur + m) % n
  }

  /** The next thread is the nearest runnable one going round. */
  lemma {:induction false} NextNearest(ts: seq<Thread>, cur: nat, i: nat, k: nat)
    requires cur < |ts| && 1 <= i <= k < |ts| && ts[Round(|ts|, cur, k)].state == Runnable
    requires forall m :: i <= m < k ==> ts[Round(|ts|, cur, m)].state != Runnable
    ensures NextFrom(ts, cur, i) == Round(|ts|, cur, k)
    decreases |ts| - i
  {
    assert NextFrom(ts, cur, i) == if ts[Round(|ts|, cur, i)].state == Runnable then Round(|ts|, cur, i)
                                   else NextFrom(ts, cur, i + 1);
    hide Round, NextFrom;
    if i < k { NextNearest(ts, cur, i + 1, k); }
  }

  /** The current one stays if no other is runnable. */
  lemma {:induction false} NextStays(ts: seq<Thread>, cur: nat, i: nat)
    requires cur < |ts| && 1 <= i && forall m :: i <= m < |ts| ==> ts[Round(|ts|, cur, m)].state != Runnable
    ensures NextFrom(ts, cur, i) == cur
    decreases |ts| - i
  {
    if i < |ts| {
      assert ts[Round(|ts|, cur, i)].state != Runnable;
      NextStays(ts, cur, i + 1);
    }
  }
}
