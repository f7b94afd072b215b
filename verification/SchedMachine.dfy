/**
 Whole runs of the scheduler and the process table: safety, bounded waiting and
 reaping.  Each entry point is one atomic step.
 */
module SchedMachine {
  import opened SchedSpec
  import opened SchedProofs

  datatype Op =
    | Switch
    | BlockCurrent(reason: State)
    | WakeUp(t: int)
    | ExitProc(p: int, code: int)
    | WaitFor(parent: int, target: int)
    | NewProc(ppid: int, m: Memory)
    | NewThread(p: int, prio: nat, m: Memory)

  /** What callers respect: pointers are to existing objects, threads are only
      started in processes that have not ended, and idle neither blocks nor exits. */
  predicate Legal(s: Sys, op: Op)
  {
    match op
    case BlockCurrent(reason) => (reason.Blocked? || reason.Sleeping?) && s.current != s.idle
    case WakeUp(t) => t in s.thr
    case ExitProc(p, _) => p in s.procs && p != 0
    case NewThread(p, _, _) => p in s.procs && !s.procs[p].zombie
    case _ => true
  }

  predicate EndsCurrent(s: Sys, p: int)
  {
    s.current != NULL && s.current in s.thr && s.thr[s.current].proc == p
  }

  ghost function Step(s: Sys, op: Op): (r: Sys)
    requires SysOk(s) && Legal(s, op)
    ensures SysOk(r)
  {
    Parts(s);
    QueuesLength(s.queues, s.thr);
    match op
    case Switch =>
      SysReady(s);
      ScheduleOk(s);
      Schedule(s)
    case BlockCurrent(reason) =>
      if s.current == NULL then s
      else
        BlockReady(s, reason);
        ScheduleOk(Block(s, reason));
        Schedule(Block(s, reason))
    case WakeUp(t) =>
      WakeOk(s, t);
      Wake(s, t)
    case ExitProc(p, code) =>
      ExitReady(s, p, code);
      var r := Exit(s, p, code);
      if EndsCurrent(s, p) then ScheduleOk(r); Schedule(r) else r
    case WaitFor(parent, target) =>
      WaitOk(s, parent, target, 0);
      Wait(s, parent, target, 0).sys
    case NewProc(ppid, m) =>
      CreateOk(s, ppid, m);
      Create(s, ppid, m)
    case NewThread(p, prio, m) =>
      SpawnOk(s, p, prio, m);
      Spawn(s, p, prio, m)
  }

  ghost function Do(s: Sys, op: Op): (r: Sys)
    requires SysOk(s)
    ensures SysOk(r)
  {
    if Legal(s, op) then Step(s, op) else s
  }

  /** The state after a run; calls the callers must not make change nothing. */
  ghost function After(s: Sys, ops: seq<Op>): (r: Sys)
    requires SysOk(s)
    ensures SysOk(r)
    decreases |ops|
  {
    if ops == [] then s else After(Do(s, ops[0]), ops[1..])
  }

  /** scheduler_init: the idle process and its thread, which is in no queue. */
  function Boot(): Sys
  {
    Sys([[], [], [], [], [], [], [], []], map[0 := Thread(Ready, PRIORITY_IDLE, 0)], NULL, 0,
        map[0 := Proc(0, -1, false, 0, [0])], [0], 1, 1)
  }

  lemma BootOk()
    ensures SysOk(Boot())
  {
  }

  // ---- Safety --------------------------------------------------------------------------

  /** A queue holds READY threads of its level, each once; a thread that is READY
      and not idle is queued; a blocked, sleeping, dead or running thread is in
      no queue; the current thread exists, alone is RUNNING, and its process is
      not a zombie. */
  ghost predicate Safe(s: Sys)
  {
    && |s.queues| == NUM_PRIORITIES
    && (forall l :: 0 <= l < NUM_PRIORITIES ==> NoDup(s.queues[l]))
    && (forall l, t :: 0 <= l < NUM_PRIORITIES && t in s.queues[l] ==>
          t in s.thr && s.thr[t].state.Ready? && Level(s.thr[t]) == l && t != s.current)
    && (forall t :: t in s.thr && s.thr[t].state.Ready? && t != s.idle ==> t in s.queues[Level(s.thr[t])])
    && (s.current != NULL ==>
          && s.current in s.thr && s.thr[s.current].state.Running?
          && s.thr[s.current].proc in s.procs && !s.procs[s.thr[s.current].proc].zombie)
    && (forall t :: t in s.thr && s.thr[t].state.Running? ==> t == s.current)
  }

  lemma RunSafe(ops: seq<Op>)
    ensures SysOk(Boot()) && Safe(After(Boot(), ops))
  {
    BootOk();
    hide Boot, After, SysOk, Safe;
    OkSafe(After(Boot(), ops));
  }

  lemma OkSafe(s: Sys)
    requires SysOk(s)
    ensures Safe(s)
  {
    Parts(s);
    if s.current != NULL { NotZombie(s.thr, s.current, s.procs); }
  }

  // ---- Bounded waiting -----------------------------------------------------------------

  predicate PosAtMost(q: seq<int>, t: int, k: int)
  {
    exists i :: 0 <= i <= k && i < |q| && q[i] == t
  }

  predicate QueueWait(q: Queues, p: nat, t: int, k: int)
  {
    && |q| == NUM_PRIORITIES && p < NUM_PRIORITIES && PosAtMost(q[p], t, k)
    && (forall l :: p < l < NUM_PRIORITIES ==> q[l] == [])
  }

  /** t is among the first k + 1 of queue p, nothing above p is ready or running. */
  predicate Waiting(s: Sys, p: nat, t: int, k: int)
  {
    && QueueWait(s.queues, p, t, k)
    && (s.current == NULL || (s.current in s.thr && Level(s.thr[s.current]) <= p))
  }

  /** The step calls schedule(). */
  predicate Calls(s: Sys, op: Op)
  {
    && Legal(s, op)
    && (op.Switch? || (op.BlockCurrent? && s.current != NULL) || (op.ExitProc? && EndsCurrent(s, op.p)))
  }

  /** The step makes nothing above p ready and does not end t. */
  predicate Quiet(s: Sys, op: Op, p: nat, t: int)
  {
    match op
    case WakeUp(x) => x in s.thr ==> Level(s.thr[x]) <= p
    case NewThread(_, prio, _) => Level(Thread(Ready, prio, 0)) <= p
    case ExitProc(x, _) => t in s.thr ==> s.thr[t].proc != x
    case _ => true
  }

  ghost predicate QuietRun(s: Sys, ops: seq<Op>, p: nat, t: int)
    requires SysOk(s)
    decreases |ops|
  {
    ops != [] ==> Quiet(s, ops[0], p, t) && QuietRun(Do(s, ops[0]), ops[1..], p, t)
  }

  ghost function CallCount(s: Sys, ops: seq<Op>): nat
    requires SysOk(s)
    decreases |ops|
  {
    if ops == [] then 0
    else (if Calls(s, ops[0]) then 1 else 0) + CallCount(Do(s, ops[0]), ops[1..])
  }

  /** A thread k-th in queue p, with nothing above p around, runs after at most
      k + 1 calls of schedule(), whatever else is woken, started, blocked, ended
      or reaped meanwhile. */
  lemma {:induction false} BoundedWaiting(s: Sys, ops: seq<Op>, p: nat, t: int, k: nat)
    requires SysOk(s) && Waiting(s, p, t, k) && QuietRun(s, ops, p, t) && CallCount(s, ops) >= k + 1
    ensures exists i :: 0 < i <= |ops| && After(s, ops[..i]).current == t
    decreases |ops|
  {
    hide SysOk, Waiting, Do, Calls, Quiet;
    var s1 := Do(s, ops[0]);
    assert After(s, ops[..1]) == s1 by { assert ops[..1][1..] == []; }
    if Calls(s, ops[0]) {
      CallWaiting(s, ops[0], p, t, k);
    } else {
      StepWaiting(s, ops[0], p, t, k);
    }
    if Calls(s, ops[0]) && s1.current == t {
      assert After(s, ops[..1]).current == t;
    } else {
      BoundedWaiting(s1, ops[1..], p, t, if Calls(s, ops[0]) then k - 1 else k);
      var i :| 0 < i <= |ops[1..]| && After(s1, ops[1..][..i]).current == t;
      assert ops[..i + 1][1..] == ops[1..][..i];
      assert After(s, ops[..i + 1]).current == t;
    }
  }

  lemma PosAppend(q: seq<int>, t: int, k: int, x: int)
    requires PosAtMost(q, t, k)
    ensures PosAtMost(q + [x], t, k)
  {
    var i :| 0 <= i <= k && i < |q| && q[i] == t;
    assert (q + [x])[i] == t;
  }

  lemma PosRemove(q: seq<int>, t: int, k: int, x: int)
    requires PosAtMost(q, t, k) && NoDup(q) && x != t
    ensures PosAtMost(Without(q, x), t, k)
    ensures q[0] == x ==> k > 0 && PosAtMost(Without(q, x), t, k - 1)
  {
    hide Without, NoDup;
    if x in q {
      var j :| 0 <= j < |q| && q[j] == x && (q[0] == x ==> j == 0);
      WithoutAt(q, j);
      CutOut(q, t, k, j);
    } else {
      WithoutAbsent(q, x);
    }
  }

  lemma CutOut(q: seq<int>, t: int, k: int, j: nat)
    requires PosAtMost(q, t, k) && j < |q| && q[j] != t
    ensures PosAtMost(q[..j] + q[j + 1..], t, k)
    ensures j == 0 ==> k > 0 && PosAtMost(q[..j] + q[j + 1..], t, k - 1)
  {
    var i :| 0 <= i <= k && i < |q| && q[i] == t;
    var r := q[..j] + q[j + 1..];
    if j < i { assert r[i - 1] == t; } else { assert r[i] == t; }
  }

  lemma PushWait(q: Queues, thr: Threads, x: int, p: nat, t: int, k: int)
    requires QueueWait(q, p, t, k) && x in thr && Level(thr[x]) <= p
    ensures QueueWait(Pushed(q, thr, x), p, t, k)
  {
    PosAppend(q[p], t, k, x);
  }

  lemma PullWait(q: Queues, thr: Threads, x: int, p: nat, t: int, k: int)
    requires QueueWait(q, p, t, k) && QueuesOk(q, thr) && x in thr && x != t
    ensures QueueWait(Pulled(q, thr, x), p, t, k)
    ensures q[p][0] == x ==> k > 0 && QueueWait(Pulled(q, thr, x), p, t, k - 1)
  {
    PosRemove(q[p], t, k, x);
    assert q[p][0] in q[p];
    var r := Pulled(q, thr, x);
    forall l | p < l < NUM_PRIORITIES ensures r[l] == [] {
      assert q[l] == [];
    }
  }

  /** schedule() serves t or moves it one place forward. */
  lemma ScheduleWait(s: Sys, p: nat, t: int, k: nat)
    requires SchedReady(s) && Waiting(s, p, t, k)
    ensures Pickable(s)
    ensures Schedule(s).current == t || (k > 0 && Waiting(Schedule(s), p, t, k - 1))
  {
    SchedDefined(s);
    ReadyParts(s);
    var n := s.queues[p][0];
    assert Highest(s.queues, NUM_PRIORITIES) == p;
    assert n in s.queues[p];
    QueuedLevel(s.queues, s.thr, p, n);
    hide SchedReady, QueuesOk, ReadyOk, ProcsOk, TableOk, TidsOk, OnlyRunning;
    ScheduleIs(s);
    if n != t {
      var q1 := Taken(s.queues, s.thr, n);
      PullWait(s.queues, s.thr, n, p, t, k);
      assert QueueWait(q1, p, t, k - 1);
      if s.current != NULL && s.thr[s.current].state.Running? {
        PushWait(q1, s.thr, s.current, p, t, k - 1);
      }
    }
  }

  lemma QueuedLevel(q: Queues, thr: Threads, p: nat, n: int)
    requires QueuesOk(q, thr) && p < NUM_PRIORITIES && n in q[p]
    ensures n in thr && Level(thr[n]) == p && n != NULL
  {
  }

  lemma BlockWait(s: Sys, reason: State, p: nat, t: int, k: int)
    requires SysOk(s) && s.current != NULL && s.current != s.idle && (reason.Blocked? || reason.Sleeping?)
    requires Waiting(s, p, t, k)
    ensures s.current in s.thr && Waiting(Block(s, reason), p, t, k)
  {
    Parts(s);
    BlockQueues(s.queues, s.thr, s.current, s.idle, reason);
    hide SysOk, QueuesOk, ReadyOk, ProcsOk, TableOk, TidsOk, PosAtMost;
  }

  lemma {:induction false} KillWait(s: Sys, ts: seq<int>, p: nat, t: int, k: int)
    requires QueuesOk(s.queues, s.thr) && ReadyOk(s.queues, s.thr, s.idle) && Known(ts, s.thr) && t !in ts
    requires QueueWait(s.queues, p, t, k)
    ensures QueueWait(Kill(s, ts).queues, p, t, k)
    decreases |ts|
  {
    hide QueuesOk, ReadyOk, QueueWait, Killed;
    if ts != [] {
      var x := ts[0];
      QueuesLength(s.queues, s.thr);
      if s.thr[x].state.Dead? {
        KillWait(s, ts[1..], p, t, k);
      } else {
        KillOne(s.queues, s.thr, s.idle, x);
        PullWait(s.queues, s.thr, x, p, t, k);
        KillWait(Dequeue(s, x).(thr := With(s.thr, x, Dead)), ts[1..], p, t, k);
      }
    }
  }

  lemma ExitWait(s: Sys, x: int, code: int, p: nat, t: int, k: int)
    requires SysOk(s) && x in s.procs && x != 0 && Waiting(s, p, t, k)
    requires t in s.thr && s.thr[t].proc != x
    ensures |s.queues| == NUM_PRIORITIES && Known(s.procs[x].threads, s.thr)
    ensures Waiting(Exit(s, x, code), p, t, k)
  {
    Parts(s);
    QueuesLength(s.queues, s.thr);
    ThreadsKnown(s.thr, s.procs, x);
    var ts := s.procs[x].threads;
    var s0 := s.(procs := s.procs[x := s.procs[x].(code := code, zombie := true)]);
    assert t !in ts;
    KillOk(s0, ts);
    KillWait(s0, ts, p, t, k);
    if s.current != NULL { KilledOther(s.thr, Kill(s0, ts).thr, s.procs, x, s.current); KilledSame(s.thr, Kill(s0, ts).thr, ts, s.current); }
  }

  lemma KilledSame(thr: Threads, thr': Threads, ts: seq<int>, t: int)
    requires Killed(thr, thr', ts) && t in thr
    ensures t in thr' && Level(thr'[t]) == Level(thr[t])
  {
  }

  lemma CallWaiting(s: Sys, op: Op, p: nat, t: int, k: nat)
    requires SysOk(s) && Calls(s, op) && Waiting(s, p, t, k) && Quiet(s, op, p, t)
    ensures Do(s, op).current == t || (k > 0 && Waiting(Do(s, op), p, t, k - 1))
  {
    Parts(s);
    WaiterKnown(s, p, t, k);
    hide SysOk, SchedReady, QueuesOk, ReadyOk, ProcsOk, TableOk, TidsOk, Waiting, RunOk, Schedule, Block, Exit;
    match op
    case Switch =>
      SysReady(s);
      ScheduleWait(s, p, t, k);
    case BlockCurrent(reason) =>
      BlockReady(s, reason);
      BlockWait(s, reason, p, t, k);
      ScheduleWait(Block(s, reason), p, t, k);
    case ExitProc(x, code) =>
      ExitReady(s, x, code);
      ExitWait(s, x, code, p, t, k);
      ScheduleWait(Exit(s, x, code), p, t, k);
    case _ =>
  }

  lemma WaiterKnown(s: Sys, p: nat, t: int, k: int)
    requires SysOk(s) && Waiting(s, p, t, k)
    ensures t in s.thr
  {
    Parts(s);
    assert t in s.queues[p];
  }

  lemma StepWaiting(s: Sys, op: Op, p: nat, t: int, k: nat)
    requires SysOk(s) && !Calls(s, op) && Waiting(s, p, t, k) && Quiet(s, op, p, t)
    ensures Waiting(Do(s, op), p, t, k)
  {
    Parts(s);
    WaiterKnown(s, p, t, k);
    if !Legal(s, op) { return; }
    match op
    case Switch =>
    case BlockCurrent(_) =>
    case WakeUp(x) => WakeWait(s, x, p, t, k);
    case ExitProc(x, code) => ExitWait(s, x, code, p, t, k);
    case WaitFor(parent, target) => ReapWait(s, parent, target, p, t, k);
    case NewProc(_, _) =>
    case NewThread(x, prio, m) => SpawnWait(s, x, prio, m, p, t, k);
  }

  lemma WakeWait(s: Sys, x: int, p: nat, t: int, k: int)
    requires SysOk(s) && x in s.thr && Waiting(s, p, t, k) && Level(s.thr[x]) <= p
    ensures |s.queues| == NUM_PRIORITIES && Waiting(Wake(s, x), p, t, k)
  {
    PushWait(s.queues, s.thr, x, p, t, k);
  }

  lemma SpawnWait(s: Sys, x: int, prio: nat, m: Memory, p: nat, t: int, k: int)
    requires SysOk(s) && x in s.procs && Waiting(s, p, t, k) && Level(Thread(Ready, prio, 0)) <= p
    ensures |s.queues| == NUM_PRIORITIES && Waiting(Spawn(s, x, prio, m), p, t, k)
  {
    Parts(s);
    FreshTid(s.thr, s.nextTid);
    PushWait(s.queues, s.thr[s.nextTid := Thread(Ready, prio, x)], s.nextTid, p, t, k);
  }

  lemma ReapWait(s: Sys, parent: int, target: int, p: nat, t: int, k: int)
    requires SysOk(s) && Waiting(s, p, t, k)
    ensures Waiting(Wait(s, parent, target, 0).sys, p, t, k)
  {
    var i := FirstZombie(s, parent, target, 0);
    if i < |s.table| { DestroyOk(s, s.table[i]); }
  }

  // ---- Reaping ---------------------------------------------------------------------------

  ghost predicate Gone(s: Sys, p: int) { p !in s.procs && 0 <= p < s.made }

  /** p is a zombie that ended with code, or has been reaped. */
  ghost predicate Ended(s: Sys, p: int, code: int)
  {
    p in s.procs ==> s.procs[p].zombie && s.procs[p].code == code
  }

  lemma {:induction false} KillProcs(s: Sys, ts: seq<int>)
    requires |s.queues| == NUM_PRIORITIES && Known(ts, s.thr)
    ensures Kill(s, ts).procs == s.procs && Kill(s, ts).made == s.made
    decreases |ts|
  {
    if ts != [] {
      if s.thr[ts[0]].state.Dead? {
        KillProcs(s, ts[1..]);
      } else {
        KillProcs(Dequeue(s, ts[0]).(thr := With(s.thr, ts[0], Dead)), ts[1..]);
      }
    }
  }

  /** What a step does to the processes. */
  ghost predicate ProcsMove(s: Sys, op: Op, r: Sys)
  {
    ( && s.made <= r.made <= s.made + (if op.NewProc? then 1 else 0)
      && (forall p :: p in r.procs ==> p in s.procs || p == s.made)
      && (forall p :: p in r.procs && p in s.procs && !(op.ExitProc? && op.p == p) ==>
            r.procs[p].zombie == s.procs[p].zombie && r.procs[p].code == s.procs[p].code)) == true
  }

  lemma SameProcs(s: Sys, op: Op, r: Sys)
    requires r.procs == s.procs && r.made == s.made
    ensures ProcsMove(s, op, r)
  {
  }

  lemma ScheduleProcs(s: Sys)
    requires Pickable(s)
    ensures Schedule(s).procs == s.procs && Schedule(s).made == s.made
  {
  }

  lemma ExitProcs(s: Sys, p: int, code: int)
    requires |s.queues| == NUM_PRIORITIES && p in s.procs && Known(s.procs[p].threads, s.thr)
    ensures var r := Exit(s, p, code);
            r.procs == s.procs[p := s.procs[p].(code := code, zombie := true)] && r.made == s.made
  {
    KillProcs(s.(procs := s.procs[p := s.procs[p].(code := code, zombie := true)]), s.procs[p].threads);
  }

  lemma ExitMove(s: Sys, p: int, code: int, r: Sys)
    requires p in s.procs && r.procs == s.procs[p := s.procs[p].(code := code, zombie := true)] && r.made == s.made
    ensures ProcsMove(s, ExitProc(p, code), r)
  {
  }

  lemma WaitMove(s: Sys, parent: int, target: int)
    ensures ProcsMove(s, WaitFor(parent, target), Wait(s, parent, target, 0).sys)
  {
  }

  lemma CreateMove(s: Sys, ppid: int, m: Memory)
    ensures s.made !in s.procs ==> ProcsMove(s, NewProc(ppid, m), Create(s, ppid, m))
  {
  }

  lemma SpawnMove(s: Sys, p: int, prio: nat, m: Memory)
    requires |s.queues| == NUM_PRIORITIES && p in s.procs
    ensures ProcsMove(s, NewThread(p, prio, m), Spawn(s, p, prio, m))
  {
  }

  lemma DoProcs(s: Sys, op: Op)
    requires SysOk(s)
    ensures ProcsMove(s, op, Do(s, op))
  {
    hide SysOk, ProcsMove, Schedule, Exit, Block, Wait, Spawn, Create;
    Parts(s);
    QueuesLength(s.queues, s.thr);
    FreshPid(s.procs, s.table, s.made);
    if !Legal(s, op) { SameProcs(s, op, s); return; }
    match op
    case Switch => DoSwitch(s);
    case BlockCurrent(reason) => DoBlock(s, reason);
    case WakeUp(t) => SameProcs(s, op, Wake(s, t));
    case ExitProc(p, code) => DoExit(s, p, code); ExitMove(s, p, code, Do(s, op));
    case WaitFor(parent, target) => WaitMove(s, parent, target);
    case NewProc(ppid, m) => CreateMove(s, ppid, m);
    case NewThread(p, prio, m) => SpawnMove(s, p, prio, m);
  }

  lemma FreshPid(procs: map<int, Proc>, table: seq<int>, made: int)
    requires TableOk(procs, table, made)
    ensures made !in procs
  {
  }

  lemma DoSwitch(s: Sys)
    requires SysOk(s)
    ensures ProcsMove(s, Switch, Do(s, Switch))
  {
    hide SysOk, ProcsMove, Schedule;
    SysReady(s);
    ScheduleOk(s);
    ScheduleProcs(s);
    SameProcs(s, Switch, Do(s, Switch));
  }

  lemma DoBlock(s: Sys, reason: State)
    requires SysOk(s) && Legal(s, BlockCurrent(reason))
    ensures ProcsMove(s, BlockCurrent(reason), Do(s, BlockCurrent(reason)))
  {
    hide SysOk, ProcsMove, Schedule, SchedReady;
    if s.current != NULL {
      BlockReady(s, reason);
      ScheduleOk(Block(s, reason));
      ScheduleProcs(Block(s, reason));
    }
    SameProcs(s, BlockCurrent(reason), Do(s, BlockCurrent(reason)));
  }

  lemma DoExit(s: Sys, p: int, code: int)
    requires SysOk(s) && Legal(s, ExitProc(p, code))
    ensures var r := Do(s, ExitProc(p, code));
            r.procs == s.procs[p := s.procs[p].(code := code, zombie := true)] && r.made == s.made
  {
    ExitReady(s, p, code);
    hide SysOk, Schedule, Exit, SchedReady;
    ExitProcs(s, p, code);
    if EndsCurrent(s, p) {
      ScheduleOk(Exit(s, p, code));
      ScheduleProcs(Exit(s, p, code));
    }
  }

  lemma {:induction false} GoneForever(s: Sys, ops: seq<Op>, p: int)
    requires SysOk(s) && Gone(s, p)
    ensures Gone(After(s, ops), p)
    decreases |ops|
  {
    hide SysOk, Do;
    if ops != [] {
      DoProcs(s, ops[0]);
      GoneForever(Do(s, ops[0]), ops[1..], p);
    }
  }

  /** A process is reaped at most once: the control block waitpid destroyed is never in
      the process table again, and its threads were dead and off the CPU. */
  lemma ReapedOnce(s: Sys, parent: int, target: int, ops: seq<Op>, parent': int, target': int)
    requires SysOk(s) && Wait(s, parent, target, 0).reaped != NULL
    ensures SysOk(Wait(s, parent, target, 0).sys)
    ensures var p := Wait(s, parent, target, 0).reaped; var r := After(Wait(s, parent, target, 0).sys, ops);
            && p !in r.procs && Wait(r, parent', target', 0).reaped != p
            && forall t :: t in s.procs[p].threads ==> t in s.thr && s.thr[t].state.Dead? && t != s.current
  {
    WaitOk(s, parent, target, 0);
    var w := Wait(s, parent, target, 0);
    Parts(s);
    assert Gone(w.sys, w.reaped);
    ZombieThreads(s, w.reaped);
    GoneForever(w.sys, ops, w.reaped);
    WaitOk(After(w.sys, ops), parent', target', 0);
  }

  /** The process_create calls of a run. */
  function Created(ops: seq<Op>): nat
  {
    if ops == [] then 0 else (if ops[0].NewProc? then 1 else 0) + Created(ops[1..])
  }

  /** In a run from boot with fewer than 2^32 process_create calls, a pid that waitpid
      returned is never the pid of a process again. */
  lemma PidReapedOnce(before: seq<Op>, parent: int, target: int, ops: seq<Op>)
    requires SysOk(Boot()) && Created(before) + Created(ops) < 2 * I32
    requires var s := After(Boot(), before); Wait(s, parent, target, 0).reaped != NULL
    ensures var w := Wait(After(Boot(), before), parent, target, 0);
            && SysOk(w.sys)
            && forall p :: p in After(w.sys, ops).procs ==> After(w.sys, ops).procs[p].pid != w.pid
  {
    hide SysOk, TableOk, After, Wait, Gone, PidOf, Created;
    var s := After(Boot(), before);
    var w := Wait(s, parent, target, 0);
    ReapedOnce(s, parent, target, ops, 0, 0);
    WaitOk(s, parent, target, 0);
    Parts(s);
    Parts(After(w.sys, ops));
    WaitMade(s, parent, target);
    MadeGrows(Boot(), before);
    MadeGrows(w.sys, ops);
    NumberIs(s.procs, s.table, s.made, w.reaped);
    OtherPids(s, After(w.sys, ops), w.reaped);
  }

  lemma WaitMade(s: Sys, parent: int, target: int)
    requires SysOk(s)
    ensures Wait(s, parent, target, 0).sys.made == s.made
  {
  }

  lemma OtherPids(s: Sys, r: Sys, q: int)
    requires TableOk(s.procs, s.table, s.made) && TableOk(r.procs, r.table, r.made) && r.made <= 2 * I32
    requires q in s.procs && q !in r.procs && q < 2 * I32
    ensures forall p :: p in r.procs ==> r.procs[p].pid != s.procs[q].pid
  {
    hide TableOk, PidOf;
    NumberIs(s.procs, s.table, s.made, q);
    forall p | p in r.procs ensures r.procs[p].pid != s.procs[q].pid {
      NumberIs(r.procs, r.table, r.made, p);
      PidSame(p, q);
    }
  }

  lemma NumberIs(procs: map<int, Proc>, table: seq<int>, made: int, p: int)
    requires TableOk(procs, table, made) && p in procs
    ensures 0 <= p < made && procs[p].pid == PidOf(p)
  {
  }

  lemma {:induction false} MadeGrows(s: Sys, ops: seq<Op>)
    requires SysOk(s)
    ensures s.made <= After(s, ops).made <= s.made + Created(ops)
    decreases |ops|
  {
    hide SysOk, Do;
    if ops != [] {
      DoProcs(s, ops[0]);
      MadeGrows(Do(s, ops[0]), ops[1..]);
    }
  }

  function Creates(n: nat): seq<Op> { seq(n, _ => NewProc(0, NoFrame)) }

  /** Creations that find no page for their address space only use up pids. */
  lemma {:induction false} PidsUsedUp(s: Sys, n: nat)
    requires SysOk(s)
    ensures After(s, Creates(n)) == s.(made := s.made + n)
    decreases n
  {
    if n > 0 {
      var s1 := s.(made := s.made + 1);
      assert Do(s, NewProc(0, NoFrame)) == s1;
      assert Creates(n)[0] == NewProc(0, NoFrame) && Creates(n)[1..] == Creates(n - 1);
      hide SysOk, Do;
      PidsUsedUp(s1, n - 1);
    }
  }

  /** With more process_create calls the statement fails: once the counter has gone round,
      a new process has the pid of the reaped one. */
  lemma PidReused(s: Sys, parent: int, target: int)
    requires SysOk(s) && Wait(s, parent, target, 0).reaped != NULL && s.made <= 2 * I32
    ensures SysOk(Wait(s, parent, target, 0).sys)
    ensures var w := Wait(s, parent, target, 0);
            exists n: nat :: var r := Do(After(w.sys, Creates(n)), NewProc(0, Enough));
              exists p :: p in r.procs && r.procs[p].pid == w.pid
  {
    hide SysOk, TableOk, After, Wait, Do, PidOf, Creates;
    WaitOk(s, parent, target, 0);
    Parts(s);
    WaitMade(s, parent, target);
    var w := Wait(s, parent, target, 0);
    NumberIs(s.procs, s.table, s.made, w.reaped);
    var n: nat := 2 * I32 + w.reaped - s.made;
    PidsUsedUp(w.sys, n);
    var a := After(w.sys, Creates(n));
    CreateAdds(a);
    PidSame(a.made, w.reaped);
  }

  lemma CreateAdds(s: Sys)
    requires SysOk(s)
    ensures var r := Do(s, NewProc(0, Enough)); s.made in r.procs && r.procs[s.made].pid == PidOf(s.made)
  {
  }

  lemma ZombieThreads(s: Sys, p: int)
    requires SysOk(s) && p in s.procs && s.procs[p].zombie
    ensures forall t :: t in s.procs[p].threads ==> t in s.thr && s.thr[t].state.Dead? && t != s.current
  {
    Parts(s);
    DestroyGone(s, p);
  }

  ghost predicate NoExit(ops: seq<Op>, p: int) { forall i :: 0 <= i < |ops| ==> !(ops[i].ExitProc? && ops[i].p == p) }

  lemma {:induction false} EndedKept(s: Sys, ops: seq<Op>, p: int, code: int)
    requires SysOk(s) && Ended(s, p, code) && 0 <= p < s.made && NoExit(ops, p)
    ensures Ended(After(s, ops), p, code)
    decreases |ops|
  {
    hide SysOk, Do;
    if ops != [] {
      DoProcs(s, ops[0]);
      EndedKept(Do(s, ops[0]), ops[1..], p, code);
    }
  }

  /** The status a waitpid reports is (code & 0xFF) << 8 of the exit. */
  lemma StatusIsExitCode(s: Sys, p: int, code: int, ops: seq<Op>, parent: int, target: int)
    requires SysOk(s) && Legal(s, ExitProc(p, code)) && NoExit(ops, p)
    ensures var r := After(Do(s, ExitProc(p, code)), ops); var w := Wait(r, parent, target, 0);
            w.reaped == p ==> w.status == WaitStatus(code)
  {
    DoExit(s, p, code);
    Parts(s);
    var s1 := Do(s, ExitProc(p, code));
    hide SysOk, Do;
    TableIs(s.procs, s.table, s.made);
    assert 0 <= p < s.made;
    EndedKept(s1, ops, p, code);
    WaitOk(After(s1, ops), parent, target, 0);
  }
}
