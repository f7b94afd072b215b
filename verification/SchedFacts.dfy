/**
 What the entry points of sched/scheduler.c and sched/process.c do, stated on the
 fields of threads, queues and processes with the numbers of the source.
 */
module SchedFacts {
  import opened SchedSpec
  import opened SchedProofs
  import opened SchedMachine

  // ---- Priorities ------------------------------------------------------------------------

  /** In every run a queued thread of priority below 8 is in the queue of that number, any
      other in queue 4, and a READY thread that is not idle is there once. */
  lemma QueueOfPriority(ops: seq<Op>)
    ensures SysOk(Boot())
    ensures var s := After(Boot(), ops);
            && |s.queues| == 8
            && (forall l, t :: 0 <= l < 8 && t in s.queues[l] ==>
                  t in s.thr && s.thr[t].state.Ready? && (if s.thr[t].prio < 8 then l == s.thr[t].prio else l == 4))
            && (forall t :: t in s.thr && s.thr[t].state.Ready? && t != s.idle ==>
                  if s.thr[t].prio < 8 then t in s.queues[s.thr[t].prio] else t in s.queues[4])
  {
    hide Boot, After, SysOk, Safe;
    RunSafe(ops);
    SafeQueues(After(Boot(), ops));
  }

  lemma SafeQueues(s: Sys)
    requires Safe(s)
    ensures |s.queues| == 8
    ensures forall l, t :: 0 <= l < 8 && t in s.queues[l] ==>
              t in s.thr && s.thr[t].state.Ready? && (if s.thr[t].prio < 8 then l == s.thr[t].prio else l == 4)
    ensures forall t :: t in s.thr && s.thr[t].state.Ready? && t != s.idle ==>
              if s.thr[t].prio < 8 then t in s.queues[s.thr[t].prio] else t in s.queues[4]
  {
    forall l, t | 0 <= l < 8 && t in s.queues[l]
      ensures t in s.thr && s.thr[t].state.Ready? && (if s.thr[t].prio < 8 then l == s.thr[t].prio else l == 4)
    {
      assert Level(s.thr[t]) == l;
    }
    forall t | t in s.thr && s.thr[t].state.Ready? && t != s.idle
      ensures if s.thr[t].prio < 8 then t in s.queues[s.thr[t].prio] else t in s.queues[4]
    {
      assert t in s.queues[Level(s.thr[t])];
    }
  }

  /** schedule(): l is the highest queue that is not empty, or -1.  Its first thread gets
      the CPU, without one idle does; a thread that was RUNNING becomes the last of its
      queue.  Nothing else changes. */
  lemma ScheduleDoes(s: Sys) returns (l: int)
    requires SchedReady(s)
    ensures Pickable(s) && |s.queues| == 8 && -1 <= l < 8 && (forall k :: l < k < 8 ==> s.queues[k] == []) && (l >= 0 ==> s.queues[l] != [])
    ensures l == -1 && s.current == s.idle ==> Schedule(s) == s
    ensures l >= 0 || s.current != s.idle ==>
              var t := if l >= 0 then s.queues[l][0] else s.idle;
              var goes := s.current != NULL && s.thr[s.current].state.Running?;
              && t in s.thr && t != s.current
              && Schedule(s) == s.(current := t,
                   thr := (if goes then s.thr[s.current := s.thr[s.current].(state := Ready)] else s.thr)[t := s.thr[t].(state := Running)],
                   queues := var q := if l >= 0 then s.queues[l := s.queues[l][1..]] else s.queues;
                             if !goes then q
                             else if s.thr[s.current].prio < 8 then q[s.thr[s.current].prio := q[s.thr[s.current].prio] + [s.current]]
                             else q[4 := q[4] + [s.current]])
  {
    SchedDefined(s);
    ReadyParts(s);
    QueuesLength(s.queues, s.thr);
    l := Highest(s.queues, 8);
    hide SchedReady, ReadyOk, ProcsOk, TableOk, TidsOk;
    if l >= 0 {
      assert s.queues[l][0] in s.queues[l];
      assert Level(s.thr[s.queues[l][0]]) == l;
      assert Without(s.queues[l], s.queues[l][0]) == s.queues[l][1..];
    }
  }

  /** Over every run, whatever made the kernel switch: when thread t gets the CPU, no
      thread that was READY and still is has a larger effective priority, which is the
      priority itself below 8 and 4 from 8 on. */
  lemma HighestFirst(ops: seq<Op>, op: Op)
    ensures SysOk(Boot())
    ensures var s := After(Boot(), ops); var r := Do(s, op); var t := r.current;
            t != s.current ==>
              && t in s.thr && t in r.thr && r.thr[t].state.Running?
              && forall u :: u in s.thr && u in r.thr && s.thr[u].state.Ready? && r.thr[u].state.Ready? ==>
                   (if s.thr[u].prio < 8 then s.thr[u].prio else 4) <= (if s.thr[t].prio < 8 then s.thr[t].prio else 4)
  {
    BootOk();
    hide Boot, After, SysOk;
    var s := After(Boot(), ops);
    SwitchesHighest(s, op);
  }

  /** Priorities before and after: r was reached from s without changing the threads u
      that stay READY, and then schedule() was called. */
  lemma PicksHighest(s: Sys)
    requires SchedReady(s)
    ensures Pickable(s)
    ensures var r := Schedule(s);
            forall u :: u in r.thr && r.thr[u].state.Ready? && u != s.current ==> u in s.thr && s.thr[u].state.Ready?
    ensures var r := Schedule(s); var t := r.current;
            t != s.current ==>
              && t in s.thr && t in r.thr && r.thr[t].state.Running?
              && forall u :: u in s.thr && s.thr[u].state.Ready? ==>
                   (if s.thr[u].prio < 8 then s.thr[u].prio else 4) <= (if s.thr[t].prio < 8 then s.thr[t].prio else 4)
  {
    var l := ScheduleDoes(s);
    ReadyParts(s);
    hide SchedReady, Schedule, ProcsOk, TableOk, TidsOk;
    if l >= 0 {
      var t := s.queues[l][0];
      assert t in s.queues[l];
      forall u | u in s.thr && s.thr[u].state.Ready?
        ensures (if s.thr[u].prio < 8 then s.thr[u].prio else 4) <= (if s.thr[t].prio < 8 then s.thr[t].prio else 4)
      {
        if u != s.idle { assert Queued(s.queues, s.thr, u); }
      }
    } else {
      forall u | u in s.thr && s.thr[u].state.Ready? ensures u == s.idle {
        NoneQueued(s.queues, s.thr, s.idle, u);
      }
    }
  }

  lemma NoneQueued(q: Queues, thr: Threads, idle: int, u: int)
    requires |q| == NUM_PRIORITIES && ReadyOk(q, thr, idle) && (forall k :: 0 <= k < 8 ==> q[k] == [])
    requires u in thr && thr[u].state.Ready?
    ensures u == idle
  {
    ReadyQueued(q, thr, idle, u);
  }

  lemma ReadyQueued(q: Queues, thr: Threads, idle: int, u: int)
    requires |q| == NUM_PRIORITIES && ReadyOk(q, thr, idle) && u in thr && thr[u].state.Ready?
    ensures u == idle || u in q[Level(thr[u])]
  {
  }

  lemma SwitchesHighest(s: Sys, op: Op)
    requires SysOk(s)
    ensures var r := Do(s, op); var t := r.current;
            t != s.current ==>
              && t in s.thr && t in r.thr && r.thr[t].state.Running?
              && forall u :: u in s.thr && u in r.thr && s.thr[u].state.Ready? && r.thr[u].state.Ready? ==>
                   (if s.thr[u].prio < 8 then s.thr[u].prio else 4) <= (if s.thr[t].prio < 8 then s.thr[t].prio else 4)
  {
    hide SysOk, SchedReady, Schedule, Exit, Block, Wait, Spawn, Create, Wake;
    if Legal(s, op) {
      match op
      case Switch =>
        SysReady(s);
        PicksHighest(s);
      case BlockCurrent(reason) =>
        if s.current != NULL {
          var s1 := BlockDoes(s, reason);
          PicksHighest(s1);
          var r := Schedule(s1);
          if r.current != s.current {
            forall u | u in s.thr && s.thr[u].state.Ready?
              ensures (if s.thr[u].prio < 8 then s.thr[u].prio else 4)
                      <= (if s.thr[r.current].prio < 8 then s.thr[r.current].prio else 4)
            {
              assert u != s.current && s1.thr[u] == s.thr[u] && s1.thr[r.current].prio == s.thr[r.current].prio;
            }
          }
        }
      case WakeUp(t) => WakeDoes(s, t);
      case ExitProc(p, code) =>
        var s1 := ExitDoes(s, p, code);
        if s.current != NULL && s.current in s.thr && s.thr[s.current].proc == p {
          PicksHighest(s1);
          var r := Schedule(s1);
          if r.current != s.current {
            forall u | u in s.thr && u in r.thr && s.thr[u].state.Ready? && r.thr[u].state.Ready?
              ensures (if s.thr[u].prio < 8 then s.thr[u].prio else 4)
                      <= (if s.thr[r.current].prio < 8 then s.thr[r.current].prio else 4)
            {
              assert u != s.current by { CurrentRuns(s); }
              assert s1.thr[u].prio == s.thr[u].prio && s1.thr[r.current].prio == s.thr[r.current].prio;
            }
          }
        }
      case WaitFor(parent, target) => WaitDoes(s, parent, target, 0);
      case NewProc(ppid, m) => CreateDoes(s, ppid, m);
      case NewThread(p, prio, m) => SpawnDoes(s, p, prio, m);
    }
  }

  // ---- The other entry points ----------------------------------------------------------

  /** scheduler_block: the current thread gets the state asked for, is in no queue, and
      schedule() is called. */
  lemma BlockDoes(s: Sys, reason: State) returns (s1: Sys)
    requires SysOk(s) && Legal(s, BlockCurrent(reason)) && s.current != NULL
    ensures s.current in s.thr && s.thr[s.current].state.Running? && s1 == s.(thr := s.thr[s.current := s.thr[s.current].(state := reason)])
    ensures |s.queues| == 8 && forall l :: 0 <= l < 8 ==> s.current !in s.queues[l]
    ensures SchedReady(s1) && Pickable(s1) && Do(s, BlockCurrent(reason)) == Schedule(s1)
  {
    Parts(s);
    QueuesLength(s.queues, s.thr);
    BlockReady(s, reason);
    s1 := s.(thr := s.thr[s.current := s.thr[s.current].(state := reason)]);
    hide SysOk, SchedReady, Schedule, ReadyOk, ProcsOk, TableOk, TidsOk;
    WithoutAbsent(s.queues[Level(s.thr[s.current])], s.current);
    assert Pulled(s.queues, s1.thr, s.current) == s.queues;
    SchedDefined(s1);
  }

  /** scheduler_wake: a blocked or sleeping thread becomes READY and the last of its
      queue; any other call changes nothing. */
  lemma WakeDoes(s: Sys, t: int)
    requires SysOk(s) && t in s.thr
    ensures |s.queues| == 8
    ensures Do(s, WakeUp(t)) ==
            if s.thr[t].state.Blocked? || s.thr[t].state.Sleeping? then
              var l := if s.thr[t].prio < 8 then s.thr[t].prio else 4;
              s.(thr := s.thr[t := s.thr[t].(state := Ready)], queues := s.queues[l := s.queues[l] + [t]])
            else s
  {
    Parts(s);
    QueuesLength(s.queues, s.thr);
  }

  /** The elements of q that are not in ts, in order. */
  function Except(q: seq<int>, ts: seq<int>): seq<int>
  {
    if q == [] then [] else (if q[0] in ts then [] else [q[0]]) + Except(q[1..], ts)
  }

  lemma {:induction false} ExceptNone(q: seq<int>)
    ensures Except(q, []) == q
  {
    if q != [] { ExceptNone(q[1..]); }
  }

  lemma {:induction false} ExceptStep(q: seq<int>, ts: seq<int>)
    requires ts != [] && NoDup(q)
    ensures Except(Without(q, ts[0]), ts[1..]) == Except(q, ts)
    ensures ts[0] !in q ==> Except(q, ts[1..]) == Except(q, ts)
  {
    if q != [] {
      var w := Without(q[1..], ts[0]);
      ExceptStep(q[1..], ts);
      if q[0] == ts[0] {
        assert ts[0] !in q[1..];
        assert Without(q, ts[0]) == q[1..] && q[0] in ts;
        assert Except(q, ts) == Except(q[1..], ts);
      } else {
        assert q[0] in ts <==> q[0] in ts[1..];
        assert Without(q, ts[0]) == [q[0]] + w && ([q[0]] + w)[1..] == w;
        assert ts[0] !in q ==> ts[0] !in q[1..];
      }
    }
  }

  /** The loop of process_exit takes the threads out of the queues and keeps the order of
      the others. */
  lemma {:induction false} KillQueues(s: Sys, ts: seq<int>)
    requires QueuesOk(s.queues, s.thr) && ReadyOk(s.queues, s.thr, s.idle) && Known(ts, s.thr)
    ensures |s.queues| == NUM_PRIORITIES && |Kill(s, ts).queues| == NUM_PRIORITIES
    ensures forall l :: 0 <= l < 8 ==> Kill(s, ts).queues[l] == Except(s.queues[l], ts)
    decreases |ts|
  {
    QueuesLength(s.queues, s.thr);
    if ts == [] {
      forall l | 0 <= l < 8 ensures Except(s.queues[l], ts) == s.queues[l] { ExceptNone(s.queues[l]); }
    } else {
      var t := ts[0];
      assert Known(ts[1..], s.thr);
      var s1 := if s.thr[t].state.Dead? then s else Dequeue(s, t).(thr := With(s.thr, t, Dead));
      if !s.thr[t].state.Dead? { KillOne(s.queues, s.thr, s.idle, t); }
      KillQueues(s1, ts[1..]);
      forall l | 0 <= l < 8 ensures Except(s1.queues[l], ts[1..]) == Except(s.queues[l], ts) {
        ExceptStep(s.queues[l], ts);
        if t in s.queues[l] { assert Level(s.thr[t]) == l && s.thr[t].state.Ready?; }
      }
    }
  }

  /** process_exit: the process is a zombie with its code, its threads are DEAD and taken
      out of the queues, nothing else changes; schedule() is called exactly when the
      current thread was one of them. */
  lemma ExitDoes(s: Sys, p: int, code: int) returns (s1: Sys)
    requires SysOk(s) && Legal(s, ExitProc(p, code))
    ensures p in s.procs && |s.queues| == 8 && |s1.queues| == 8
    ensures s1 == s.(procs := s.procs[p := s.procs[p].(code := code, zombie := true)], thr := s1.thr, queues := s1.queues)
    ensures s1.thr.Keys == s.thr.Keys && forall t :: t in s.thr ==>
              s1.thr[t] == if s.thr[t].proc == p then s.thr[t].(state := Dead) else s.thr[t]
    ensures forall l :: 0 <= l < 8 ==> s1.queues[l] == Except(s.queues[l], s.procs[p].threads)
    ensures SchedReady(s1) && Pickable(s1)
    ensures Do(s, ExitProc(p, code)) ==
            if s.current != NULL && s.current in s.thr && s.thr[s.current].proc == p then Schedule(s1) else s1
  {
    Parts(s);
    ExitReady(s, p, code);
    s1 := Exit(s, p, code);
    SchedDefined(s1);
    var s0 := s.(procs := s.procs[p := s.procs[p].(code := code, zombie := true)]);
    KillOk(s0, s.procs[p].threads);
    KillQueues(s0, s.procs[p].threads);
    hide SysOk, SchedReady, Schedule, QueuesOk, ReadyOk, TableOk, TidsOk, Kill, Exit;
    ThreadsOf(s.thr, s.procs, p);
  }

  lemma ThreadsOf(thr: Threads, procs: map<int, Proc>, p: int)
    requires ProcsOk(thr, procs) && p in procs
    ensures forall t :: t in thr ==> (t in procs[p].threads <==> thr[t].proc == p)
  {
  }

  lemma CurrentRuns(s: Sys)
    requires SysOk(s) && s.current != NULL
    ensures s.current in s.thr && s.thr[s.current].state.Running?
  {
  }

  /** process_create: nothing without memory for the control block, a pid is gone without
      a page, otherwise a living process without threads heads the table. */
  lemma CreateDoes(s: Sys, ppid: int, m: Memory)
    requires SysOk(s)
    ensures Do(s, NewProc(ppid, m)) ==
            if m.NoHeap? then s
            else if m.NoFrame? then s.(made := s.made + 1)
            else s.(made := s.made + 1, table := [s.made] + s.table,
                    procs := s.procs[s.made := Proc(PidOf(s.made), ppid, false, 0, [])])
  {
  }

  /** thread_create and the enqueue: the new thread is READY at the end of its queue and
      heads the list of its process. */
  lemma SpawnDoes(s: Sys, p: int, prio: nat, m: Memory)
    requires SysOk(s) && Legal(s, NewThread(p, prio, m))
    ensures p in s.procs && |s.queues| == 8 && s.nextTid !in s.thr
    ensures Do(s, NewThread(p, prio, m)) ==
            if m.NoHeap? then s
            else if m.NoFrame? then s.(nextTid := s.nextTid + 1)
            else
              var l := if prio < 8 then prio else 4;
              s.(nextTid := s.nextTid + 1, thr := s.thr[s.nextTid := Thread(Ready, prio, p)],
                 queues := s.queues[l := s.queues[l] + [s.nextTid]],
                 procs := s.procs[p := s.procs[p].(threads := [s.nextTid] + s.procs[p].threads)])
  {
    Parts(s);
    QueuesLength(s.queues, s.thr);
    FreshTid(s.thr, s.nextTid);
    var thr1 := s.thr[s.nextTid := Thread(Ready, prio, p)];
    assert thr1[s.nextTid := thr1[s.nextTid].(state := Ready)] == thr1;
  }

  // ---- waitpid -------------------------------------------------------------------------

  /** process_waitpid on the fields.  The process it reaps is the first zombie of the table
      with that parent and, unless target is -1, that pid; its pid and its code are
      reported and its threads, its entry and its control block are gone.  Without one
      nothing changes and the result is 0 if there is such a process, else -1. */
  lemma WaitDoes(s: Sys, parent: int, target: int, status: int)
    requires SysOk(s)
    ensures forall p :: p in s.table <==> p in s.procs
    ensures var w := Wait(s, parent, target, status); var p := w.reaped;
            && (p != NULL ==>
                  && p in s.procs && s.procs[p].zombie && s.procs[p].ppid == parent && (target == -1 || s.procs[p].pid == target)
                  && w.pid == s.procs[p].pid && w.status == s.procs[p].code % 256 * 256
                  && (exists k :: 0 <= k < |s.table| && s.table[k] == p && forall j :: 0 <= j < k ==>
                        var q := s.procs[s.table[j]]; !(q.zombie && q.ppid == parent && (target == -1 || q.pid == target)))
                  && w.sys == s.(procs := s.procs - {p}, table := w.sys.table, thr := s.thr - (set t | t in s.procs[p].threads))
                  && (forall q :: q in w.sys.table <==> q in s.table && q != p))
            && (p == NULL ==>
                  && w.sys == s && w.status == status
                  && (forall q :: q in s.procs && s.procs[q].ppid == parent && (target == -1 || s.procs[q].pid == target) ==> !s.procs[q].zombie)
                  && w.pid == if exists q :: q in s.procs && s.procs[q].ppid == parent && (target == -1 || s.procs[q].pid == target) then 0 else -1)
  {
    hide SysOk, TableOk, Destroy;
    WaitOk(s, parent, target, status);
    Parts(s);
    TableIs(s.procs, s.table, s.made);
    var w := Wait(s, parent, target, status);
    if w.reaped != NULL {
      hide Wait;
      WaitFirst(s, parent, target, status);
      TableNoDup(s);
      DestroyedIs(s, w.reaped);
    } else {
      hide Wait;
      assert forall q :: Child(s, q, parent, target) <==> q in s.procs && s.procs[q].ppid == parent && (target == -1 || s.procs[q].pid == target);
    }
  }

  /** What is reaped is the first of the table. */
  lemma WaitFirst(s: Sys, parent: int, target: int, status: int)
    requires Wait(s, parent, target, status).reaped != NULL && forall p :: p in s.table ==> p in s.procs
    ensures var w := Wait(s, parent, target, status); var p := w.reaped;
            && p in s.procs && w.sys == Destroy(s, p)
            && exists k :: 0 <= k < |s.table| && s.table[k] == p && forall j :: 0 <= j < k ==>
                 var q := s.procs[s.table[j]]; !(q.zombie && q.ppid == parent && (target == -1 || q.pid == target))
  {
    hide Destroy;
    var k := FirstZombie(s, parent, target, 0);
    var w := Wait(s, parent, target, status);
    assert s.table[k] == w.reaped;
    forall j | 0 <= j < k
      ensures var q := s.procs[s.table[j]]; !(q.zombie && q.ppid == parent && (target == -1 || q.pid == target))
    {
      assert s.table[j] in s.table;
    }
  }

  lemma TableNoDup(s: Sys)
    requires SysOk(s)
    ensures NoDup(s.table)
  {
  }

  lemma DestroyedIs(s: Sys, p: int)
    requires p in s.procs && NoDup(s.table)
    ensures var r := Destroy(s, p);
            && r == s.(procs := s.procs - {p}, table := r.table, thr := s.thr - (set t | t in s.procs[p].threads))
            && forall q :: q in r.table <==> q in s.table && q != p
  {
    WithoutIs(s.table, p);
  }

  /** So the result is 0, or -1, exactly in those cases as long as no pid that waitpid can
      report has that value: below 2^31 created processes, and then whenever the
      32-bit counter has not just passed 0 or -1. */
  lemma WaitResult(s: Sys, parent: int, target: int, status: int)
    requires SysOk(s)
    ensures var w := Wait(s, parent, target, status);
            var some := exists q :: q in s.procs && s.procs[q].ppid == parent && (target == -1 || s.procs[q].pid == target);
            var dead := exists q :: q in s.procs && s.procs[q].zombie && s.procs[q].ppid == parent && (target == -1 || s.procs[q].pid == target);
            && (w.reaped != NULL <==> dead)
            && (w.pid == 0 <==> (some && !dead) || (dead && w.reaped % 0x1_0000_0000 == 0))
            && (w.pid == -1 <==> !some || (dead && w.reaped % 0x1_0000_0000 == 0xFFFF_FFFF))
            && (s.made <= 0x8000_0000 && dead ==> w.pid > 0)
            && (target != -1 && dead ==> w.pid == target)
  {
    hide SysOk, Wait, TableOk, PidOf;
    WaitDoes(s, parent, target, status);
    Parts(s);
    var w := Wait(s, parent, target, status);
    if w.reaped != NULL {
      NumberIs(s.procs, s.table, s.made, w.reaped);
      DestroyOk(s, w.reaped);
      PidValues(w.reaped);
    }
  }

  lemma PidValues(k: int)
    ensures PidOf(k) == 0 <==> k % 0x1_0000_0000 == 0
    ensures PidOf(k) == -1 <==> k % 0x1_0000_0000 == 0xFFFF_FFFF
    ensures 0 < k < 0x8000_0000 ==> PidOf(k) > 0
  {
  }
}
