/**
 Threads, processes and the eight ready queues of sched/scheduler.c and
 sched/process.c as values: what every entry point does to them.  A thread is named
 by its tid, a control block by the number of pids handed out before its own; NULL is
 the null pointer.
 */
module SchedSpec {
  const NULL: int := -1
  const NUM_PRIORITIES: nat := 8
  const PRIORITY_NORMAL: nat := 4
  const PRIORITY_IDLE: nat := 0
  const QUANTUM: nat := 10

  datatype State = Ready | Running | Blocked | Sleeping | Dead
  datatype Thread = Thread(state: State, prio: nat, proc: int)
  /** threads: the list through next_in_proc, newest first. */
  datatype Proc = Proc(pid: int, ppid: int, zombie: bool, code: int, threads: seq<int>)

  type Threads = map<int, Thread>
  type Queues = seq<seq<int>>

  /** table: the process list, newest first; made: how many pids were handed out. */
  datatype Sys = Sys(queues: Queues, thr: Threads, current: int, idle: int,
                     procs: map<int, Proc>, table: seq<int>, made: int, nextTid: int)

  function Level(t: Thread): (l: nat)
    ensures l < NUM_PRIORITIES
  {
    if t.prio >= NUM_PRIORITIES then PRIORITY_NORMAL else t.prio
  }

  function With(thr: Threads, t: int, st: State): Threads
    requires t in thr
  {
    thr[t := thr[t].(state := st)]
  }

  /** s without the first t. */
  function Without(s: seq<int>, t: int): seq<int>
  {
    if s == [] then [] else if s[0] == t then s[1..] else [s[0]] + Without(s[1..], t)
  }

  // ---- Queues -----------------------------------------------------------------------

  function Pushed(q: Queues, thr: Threads, t: int): Queues
    requires |q| == NUM_PRIORITIES && t in thr
  {
    var l := Level(thr[t]);
    q[l := q[l] + [t]]
  }

  function Pulled(q: Queues, thr: Threads, t: int): Queues
    requires |q| == NUM_PRIORITIES && t in thr
  {
    var l := Level(thr[t]);
    q[l := Without(q[l], t)]
  }

  /** The highest level below n whose queue is not empty, or -1. */
  function Highest(q: Queues, n: nat): (l: int)
    requires n <= |q|
    ensures -1 <= l < n && (l >= 0 ==> q[l] != [])
    ensures forall k :: l < k < n ==> q[k] == []
  {
    if n == 0 then -1 else if q[n - 1] != [] then n - 1 else Highest(q, n - 1)
  }

  function Picked(q: Queues): int
    requires |q| == NUM_PRIORITIES
  {
    var l := Highest(q, NUM_PRIORITIES);
    if l < 0 then NULL else q[l][0]
  }

  // ---- The invariant ------------------------------------------------------------------

  predicate NoDup(s: seq<int>) { forall i, j :: 0 <= i < j < |s| ==> s[i] != s[j] }

  /** A queued thread is READY, in the queue of its priority only, and there once. */
  ghost predicate QueuesOk(q: Queues, thr: Threads)
  {
    ( && |q| == NUM_PRIORITIES
      && (forall l :: 0 <= l < NUM_PRIORITIES ==> NoDup(q[l]))
      && (forall l, t :: 0 <= l < NUM_PRIORITIES && t in q[l] ==>
            t in thr && t != NULL && thr[t].state.Ready? && Level(thr[t]) == l)) == true
  }

  predicate Queued(q: Queues, thr: Threads, t: int)
    requires |q| == NUM_PRIORITIES && t in thr
  {
    t in q[Level(thr[t])]
  }

  /** No runnable thread is lost.  Only idle may be READY outside the queues. */
  ghost predicate ReadyOk(q: Queues, thr: Threads, idle: int)
    requires |q| == NUM_PRIORITIES
  {
    (forall t :: t in thr && thr[t].state.Ready? && t != idle ==> Queued(q, thr, t)) == true
  }

  /** The current thread, and no other, is RUNNING. */
  ghost predicate RunOk(thr: Threads, current: int)
  {
    ( && (current != NULL ==> current in thr && thr[current].state.Running?)
      && (forall t :: t in thr && thr[t].state.Running? ==> t == current)) == true
  }

  /** The idle thread never stops being runnable. */
  predicate IdleOk(thr: Threads, idle: int)
  {
    idle in thr && idle != NULL && thr[idle].prio == PRIORITY_IDLE && thr[idle].proc == 0
    && (thr[idle].state.Ready? || thr[idle].state.Running?)
  }

  /** Every thread hangs on its process exactly once; all threads of a zombie are DEAD. */
  ghost predicate ProcsOk(thr: Threads, procs: map<int, Proc>)
  {
    ( && (forall t :: t in thr ==> thr[t].proc in procs && t in procs[thr[t].proc].threads)
      && (forall p :: p in procs ==> NoDup(procs[p].threads))
      && (forall p, t :: p in procs && t in procs[p].threads ==>
            t in thr && thr[t].proc == p && (procs[p].zombie ==> thr[t].state.Dead?))) == true
  }

  const I32: int := 0x8000_0000

  /** The k-th value of the 32-bit counter next_pid. */
  function PidOf(k: int): int { (k + I32) % (2 * I32) - I32 }

  /** next_pid + 1 in 32 bits. */
  function Next32(p: int): int { if p == I32 - 1 then -I32 else p + 1 }

  lemma PidNext(k: int)
    ensures PidOf(k + 1) == Next32(PidOf(k)) && -I32 <= PidOf(k) < I32
  {
  }

  /** Two processes have the same pid exactly when the counter went all the way round
      between them. */
  lemma PidSame(j: int, k: int)
    ensures PidOf(j) == PidOf(k) <==> (j - k) % (2 * I32) == 0
  {
  }

  /** Every control block is in the table once, with the pid it was created with. */
  ghost predicate TableOk(procs: map<int, Proc>, table: seq<int>, made: int)
  {
    ( && NoDup(table) && (forall p :: p in table <==> p in procs)
      && (forall p :: p in procs ==> 0 <= p < made && procs[p].pid == PidOf(p))) == true
  }

  ghost predicate TidsOk(thr: Threads, nextTid: int)
  {
    (0 <= nextTid && forall t :: t in thr ==> 0 <= t < nextTid) == true
  }

  ghost predicate SysOk(s: Sys)
  {
    ( && QueuesOk(s.queues, s.thr) && ReadyOk(s.queues, s.thr, s.idle) && RunOk(s.thr, s.current)
      && IdleOk(s.thr, s.idle) && ProcsOk(s.thr, s.procs) && TableOk(s.procs, s.table, s.made)
      && TidsOk(s.thr, s.nextTid)) == true
  }

  // ---- The entry points ----------------------------------------------------------------

  /** scheduler_enqueue. */
  function Enqueue(s: Sys, t: int): Sys
    requires |s.queues| == NUM_PRIORITIES && t in s.thr
  {
    s.(queues := Pushed(s.queues, s.thr, t), thr := With(s.thr, t, Ready))
  }

  /** scheduler_dequeue. */
  function Dequeue(s: Sys, t: int): Sys
    requires |s.queues| == NUM_PRIORITIES && t in s.thr
  {
    s.(queues := Pulled(s.queues, s.thr, t))
  }

  /** The thread schedule() switches to, NULL when it stays. */
  function Next(s: Sys): int
    requires |s.queues| == NUM_PRIORITIES
  {
    var n := Picked(s.queues);
    if n != NULL then n else if s.current == s.idle then NULL else s.idle
  }

  /** Every pointer schedule() follows is a thread. */
  predicate Pickable(s: Sys)
  {
    && |s.queues| == NUM_PRIORITIES && s.idle in s.thr && (s.current != NULL ==> s.current in s.thr)
    && (Picked(s.queues) != NULL ==> Picked(s.queues) in s.thr)
  }

  /** schedule() with sched_lock clear. */
  function Schedule(s: Sys): Sys
    requires Pickable(s)
  {
    var n := Next(s);
    if n == NULL then s
    else
      var s1 := if Picked(s.queues) == NULL then s else Dequeue(s, Picked(s.queues));
      var s2 := if s.current != NULL && s.thr[s.current].state.Running? then Enqueue(s1, s.current) else s1;
      s2.(thr := With(s2.thr, n, Running), current := n)
  }

  /** scheduler_block. */
  function Block(s: Sys, reason: State): Sys
    requires |s.queues| == NUM_PRIORITIES && (s.current != NULL ==> s.current in s.thr)
  {
    if s.current == NULL then s else Dequeue(s.(thr := With(s.thr, s.current, reason)), s.current)
  }

  /** scheduler_wake. */
  function Wake(s: Sys, t: int): Sys
    requires |s.queues| == NUM_PRIORITIES && t in s.thr
  {
    if s.thr[t].state.Blocked? || s.thr[t].state.Sleeping? then Enqueue(s, t) else s
  }

  predicate Known(ts: seq<int>, thr: Threads) { forall i :: 0 <= i < |ts| ==> ts[i] in thr }

  /** The loop of process_exit over the threads of a process. */
  function Kill(s: Sys, ts: seq<int>): Sys
    requires |s.queues| == NUM_PRIORITIES && Known(ts, s.thr)
    decreases |ts|
  {
    if ts == [] then s
    else if s.thr[ts[0]].state.Dead? then Kill(s, ts[1..])
    else Kill(Dequeue(s, ts[0]).(thr := With(s.thr, ts[0], Dead)), ts[1..])
  }

  /** process_exit up to its call of schedule(). */
  function Exit(s: Sys, p: int, code: int): Sys
    requires |s.queues| == NUM_PRIORITIES && p in s.procs && Known(s.procs[p].threads, s.thr)
  {
    Kill(s.(procs := s.procs[p := s.procs[p].(code := code, zombie := true)]), s.procs[p].threads)
  }

  /** What kmalloc and pmm_alloc_page have left for a control block and a page. */
  datatype Memory = NoHeap | NoFrame | Enough

  /** process_create: the next pid at the head of the process list.  A pid is used
      up even when the page for the address space is missing. */
  function Create(s: Sys, ppid: int, m: Memory): Sys
  {
    if m.NoHeap? then s
    else if m.NoFrame? then s.(made := s.made + 1)
    else s.(procs := s.procs[s.made := Proc(PidOf(s.made), ppid, false, 0, [])], table := [s.made] + s.table, made := s.made + 1)
  }

  /** thread_create, then the caller's priority and scheduler_enqueue. */
  function Spawn(s: Sys, p: int, prio: nat, m: Memory): Sys
    requires |s.queues| == NUM_PRIORITIES && p in s.procs
  {
    var t := s.nextTid;
    if m.NoHeap? then s
    else if m.NoFrame? then s.(nextTid := t + 1)
    else Enqueue(s.(thr := s.thr[t := Thread(Ready, prio, p)], nextTid := t + 1,
                    procs := s.procs[p := s.procs[p].(threads := [t] + s.procs[p].threads)]), t)
  }

  /** process_destroy: the threads, the list entry and the control block are gone. */
  function Destroy(s: Sys, p: int): Sys
    requires p in s.procs
  {
    s.(thr := map t | t in s.thr && t !in s.procs[p].threads :: s.thr[t],
       table := Without(s.table, p), procs := s.procs - {p})
  }

  predicate Child(s: Sys, p: int, parent: int, target: int)
  {
    p in s.procs && s.procs[p].ppid == parent && (target == -1 || s.procs[p].pid == target)
  }

  /** The first zombie child in the list, or the length of the list. */
  function FirstZombie(s: Sys, parent: int, target: int, i: nat): (k: nat)
    requires i <= |s.table|
    ensures i <= k <= |s.table|
    ensures k < |s.table| ==> Child(s, s.table[k], parent, target) && s.procs[s.table[k]].zombie
    ensures forall j :: i <= j < k ==> !(Child(s, s.table[j], parent, target) && s.procs[s.table[j]].zombie)
    decreases |s.table| - i
  {
    if i == |s.table| || (Child(s, s.table[i], parent, target) && s.procs[s.table[i]].zombie) then i
    else FirstZombie(s, parent, target, i + 1)
  }

  predicate HasChild(s: Sys, parent: int, target: int)
  {
    exists p :: p in s.table && Child(s, p, parent, target)
  }

  /** (code & 0xFF) << 8 on a 32-bit code. */
  function WaitStatus(code: int): int { code % 256 * 256 }

  /** What waitpid returns and the control block it destroyed, if any. */
  datatype Waited = Waited(sys: Sys, pid: int, status: int, reaped: int)

  /** process_waitpid; status is what it was when nothing is reaped. */
  function Wait(s: Sys, parent: int, target: int, status: int): Waited
  {
    var k := FirstZombie(s, parent, target, 0);
    if k < |s.table| then
      var p := s.table[k];
      Waited(Destroy(s, p), s.procs[p].pid, WaitStatus(s.procs[p].code), p)
    else Waited(s, if HasChild(s, parent, target) then 0 else -1, status, NULL)
  }

  /** What schedule() needs: SysOk except that the current thread may just have
      stopped being RUNNING. */
  ghost predicate SchedReady(s: Sys)
  {
    ( && QueuesOk(s.queues, s.thr) && ReadyOk(s.queues, s.thr, s.idle)
      && IdleOk(s.thr, s.idle)
      && (s.current != NULL ==> s.current in s.thr && !s.thr[s.current].state.Ready?)
      && (s.current == s.idle ==> s.thr[s.idle].state.Running?)
      && (forall t :: t in s.thr && s.thr[t].state.Running? ==> t == s.current)
      && ProcsOk(s.thr, s.procs) && TableOk(s.procs, s.table, s.made) && TidsOk(s.thr, s.nextTid)) == true
  }

  /** The loop over sleepers and the next == old branch of schedule() never fire. */
  lemma SchedDefined(s: Sys)
    requires SchedReady(s)
    ensures Pickable(s)
    ensures Picked(s.queues) != NULL ==> s.thr[Picked(s.queues)].state.Ready?
    ensures Next(s) == NULL || (Next(s) in s.thr && Next(s) != s.current)
  {
    var l := Highest(s.queues, NUM_PRIORITIES);
    if l >= 0 {
      assert s.queues[l][0] in s.queues[l];
    }
  }
}
