/** Threads and what each scheduler operation does to them, as functions on values. */
module Threads {
  import opened Basics

  datatype State = Runnable | Blocked | Zombie | Dead | Reaped

  datatype Reason = NoReason | Child | Stdin | Pipe

  /** A thread; a user process is one with an address space of its own. `parent == 0` marks an orphan. */
  datatype Thread = Thread(
    pid: nat, parent: nat, exitStatus: Option<int>, termSignal: Option<nat>, pending: set<nat>,
    stack: Option<nat>, space: Option<nat>, state: State, blockedOn: Reason)

  predicate Alive(s: State) { s == Runnable || s == Blocked }

  predicate DefaultTerminates(sig: nat) {
    sig !in {17, 18, 19, 20, 21, 22, 23, 28}
  }

  /** What happened so far: exits, collections by `wait`, resources taken by the reaper. */
  datatype Event =
    | Exited(pid: nat, status: int, signal: Option<nat>)
    | Collected(pid: nat, status: int, signal: Option<nat>)
    | Released(pid: nat, space: Option<nat>, stack: Option<nat>)

  /** The scheduler, with what each blocked waiter asked for and the history of the run. */
  datatype Sched = Sched(threads: seq<Thread>, current: nat, nextPid: nat, wants: map<nat, int>, log: seq<Event>)

  /** Child `t` is one that a wait of process `pid` for `want` may collect. */
  predicate IsMine(t: Thread, pid: nat, want: int) {
    t.parent == pid && (want > 0 ==> t.pid == want)
  }

  // --- ending a thread ---

  /** What ending thread `idx` does to thread `j`: it becomes a zombie, its children are orphaned, and
      its parent is woken from `wait`. */
  function Ended(ts: seq<Thread>, idx: nat, status: int, signal: Option<nat>, j: nat): Thread
    requires idx < |ts| && j < |ts|
  {
    var t := ts[j];
    if j == idx then
      t.(exitStatus := Some(status), termSignal := signal, state := Zombie)
    else
      t.(
        parent := if t.parent == ts[idx].pid then 0 else t.parent,
        state := if ts[idx].parent != 0 && t.pid == ts[idx].parent && t.state == Blocked && t.blockedOn == Child
                 then Runnable else t.state)
  }

  function Terminate(s: Sched, idx: nat, status: int, signal: Option<nat>): Sched
    requires idx < |s.threads|
  {
    s.(
      threads := seq(|s.threads|, j requires 0 <= j < |s.threads| => Ended(s.threads, idx, status, signal, j)),
      log := s.log + [Exited(s.threads[idx].pid, status, signal)])
  }

  // --- choosing the next thread ---

  /** The first runnable thread strictly after `cur`, going round; `cur` itself if there is none. */
  function NextFrom(ts: seq<Thread>, cur: nat, i: nat): (n: nat)
    requires cur < |ts| && 1 <= i
    ensures n < |ts| && (n == cur || ts[n].state == Runnable)
    decreases |ts| - i
  {
    if i >= |ts| then cur
    else if ts[(cur + i) % |ts|].state == Runnable then (cur + i) % |ts|
    else NextFrom(ts, cur, i + 1)
  }

  function Next(ts: seq<Thread>, cur: nat): nat
    requires cur < |ts|
  {
    NextFrom(ts, cur, 1)
  }

  function Switch(s: Sched): Sched
    requires s.current < |s.threads|
  {
    s.(current := Next(s.threads, s.current))
  }

  // --- waiting ---

  /** The first zombie child at or after `i` that the wait may collect, or the length. */
  function FirstZombie(ts: seq<Thread>, pid: nat, want: int, i: nat): (z: nat)
    requires i <= |ts|
    ensures i <= z <= |ts| && (z < |ts| ==> IsMine(ts[z], pid, want) && ts[z].state == Zombie)
    ensures forall k :: i <= k < z ==> !(IsMine(ts[k], pid, want) && ts[k].state == Zombie)
    decreases |ts| - i
  {
    if i == |ts| || (IsMine(ts[i], pid, want) && ts[i].state == Zombie) then i else FirstZombie(ts, pid, want, i + 1)
  }

  predicate HasLivingChild(ts: seq<Thread>, pid: nat, want: int) {
    exists j :: 0 <= j < |ts| && IsMine(ts[j], pid, want) && Alive(ts[j].state)
  }

  datatype WaitResult = Got(pid: nat, status: int, signal: Option<nat>) | WouldBlock | NoChildren

  function WaitOutcome(s: Sched, want: int): WaitResult
    requires s.current < |s.threads|
  {
    var pid := s.threads[s.current].pid;
    var z := FirstZombie(s.threads, pid, want, 0);
    if z < |s.threads| then
      var t := s.threads[z];
      Got(t.pid, if t.exitStatus.Some? then t.exitStatus.value else 0, t.termSignal)
    else if HasLivingChild(s.threads, pid, want) then WouldBlock
    else NoChildren
  }

  function BlockCurrent(s: Sched, why: Reason): Sched
    requires s.current < |s.threads|
  {
    s.(threads := s.threads[s.current := s.threads[s.current].(state := Blocked, blockedOn := why)])
  }

  /** Hands zombie `z` to its parent: its outcome is reported, and it is a zombie no more. */
  function Collect(s: Sched, z: nat): Sched
    requires z < |s.threads|
  {
    var t := s.threads[z];
    s.(
      threads := s.threads[z := t.(state := Dead)],
      log := s.log + [Collected(t.pid, if t.exitStatus.Some? then t.exitStatus.value else 0, t.termSignal)])
  }

  /** One attempt at `wait`: collect a zombie, or block on a living child, or neither. */
  function WaitOnce(s: Sched, want: int): Sched
    requires s.current < |s.threads|
  {
    var pid := s.threads[s.current].pid;
    var z := FirstZombie(s.threads, pid, want, 0);
    match WaitOutcome(s, want)
    case Got(_, _, _) => Collect(s, z)
    case WouldBlock => BlockCurrent(s, Child).(wants := s.wants[pid := want])
    case NoChildren => s
  }

  // --- waking and reaping ---

  function WokenThread(t: Thread, why: Reason): Thread {
    if t.state == Blocked && t.blockedOn == why then t.(state := Runnable) else t
  }

  function Wake(s: Sched, why: Reason): Sched {
    s.(threads := seq(|s.threads|, j requires 0 <= j < |s.threads| => WokenThread(s.threads[j], why)))
  }

  /** Collected threads, and zombies nobody can wait for any more. */
  predicate Collectable(t: Thread) {
    t.state == Dead || (t.state == Zombie && t.parent == 0)
  }

  function ReapedThread(s: Sched, j: nat): Thread
    requires j < |s.threads|
  {
    var t := s.threads[j];
    if j != s.current && Collectable(t) then t.(space := None, stack := None, state := Reaped) else t
  }

  /** The resources taken from the first `n` threads, in order. */
  function Corpses(s: Sched, n: nat): seq<Event>
    requires n <= |s.threads|
  {
    if n == 0 then [] else
    var t := s.threads[n - 1];
    Corpses(s, n - 1) + (if n - 1 != s.current && Collectable(t) then [Released(t.pid, t.space, t.stack)] else [])
  }

  function Reap(s: Sched): Sched {
    s.(
      threads := seq(|s.threads|, j requires 0 <= j < |s.threads| => ReapedThread(s, j)),
      log := s.log + Corpses(s, |s.threads|))
  }

  // --- creating, signalling, replacing the image ---

  function Spawn(s: Sched, space: Option<nat>, stack: nat): Sched
    requires s.current < |s.threads|
  {
    s.(
      threads := s.threads +
        [Thread(s.nextPid, s.threads[s.current].pid, None, None, {}, Some(stack), space, Runnable, NoReason)],
      nextPid := s.nextPid + 1)
  }

  function Target(ts: seq<Thread>, pid: nat, i: nat): (k: nat)
    requires i <= |ts|
    ensures i <= k <= |ts| && (k < |ts| ==> ts[k].pid == pid && ts[k].space.Some? && Alive(ts[k].state))
    decreases |ts| - i
  {
    if i == |ts| || (ts[i].pid == pid && ts[i].space.Some? && Alive(ts[i].state)) then i else Target(ts, pid, i + 1)
  }

  /** Sends `sig` to user process `pid`, if it lives; a fatal signal ends it, and leaves it if it is the
      current one. */
  function Signal(s: Sched, pid: nat, sig: nat): Sched
    requires s.current < |s.threads|
  {
    var i := Target(s.threads, pid, 0);
    if i == |s.threads| || sig == 0 then s else
    var s1 := s.(threads := s.threads[i := s.threads[i].(pending := s.threads[i].pending + {sig})]);
    if !DefaultTerminates(sig) then s1
    else var s2 := Terminate(s1, i, 128 + sig, Some(sig)); if i == s.current then Switch(s2) else s2
  }

  function ReplaceSpace(s: Sched, space: nat): Sched
    requires s.current < |s.threads|
  {
    s.(threads := s.threads[s.current := s.threads[s.current].(space := Some(space))])
  }
}
