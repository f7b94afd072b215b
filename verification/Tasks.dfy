/**
 sched/scheduler.c and sched/process.c: eight ready queues linked through
 next_in_queue and the process table linked through next, updated in place.  A
 context switch is the change of the current thread.
 */
module Tasks {
  import opened SchedSpec
  import opened SchedProofs
  import opened Chains
  import M = SchedMachine
  import F = SchedFacts

  /** Head and tail pointers and the links spell out the queues. */
  ghost predicate Links(next: map<int, int>, head: seq<int>, tail: seq<int>, q: Queues)
  {
    ( && |head| == NUM_PRIORITIES && |tail| == NUM_PRIORITIES && |q| == NUM_PRIORITIES
      && (forall l :: 0 <= l < NUM_PRIORITIES ==> Chain(next, head[l], q[l]) && tail[l] == Last(q[l]))) == true
  }

  class Kernel {
    const head: array<int>
    const tail: array<int>
    var next: map<int, int>
    var thr: Threads
    var current: int
    var idle: int
    var currentProc: int
    var ticks: nat
    var procHead: int
    var procNext: map<int, int>
    var procs: map<int, Proc>
    var nextPid: int
    var made: int
    var nextTid: int
    /** The queues and the process table as lists. */
    ghost var queues: Queues
    ghost var table: seq<int>

    ghost predicate Shape() { head.Length == tail.Length == NUM_PRIORITIES && head != tail }

    ghost predicate Linked()
      reads this`next, this`queues, head, tail
    {
      (Shape() && Links(next, head[..], tail[..], queues)) == true
    }

    ghost function View(): Sys
      reads this
    {
      Sys(queues, thr, current, idle, procs, table, made, nextTid)
    }

    ghost predicate Tables()
      reads this, head, tail
    {
      && Linked() && Chain(procNext, procHead, table)
      && currentProc == (if current in thr then thr[current].proc else NULL)
      && nextPid == PidOf(made)
    }

    ghost predicate Valid()
      reads this, head, tail
    {
      Tables() && SysOk(View())
    }

    /** scheduler_init up to the idle thread. */
    constructor ()
      ensures Valid() && View() == M.Boot() && fresh(head) && fresh(tail)
    {
      head := new int[NUM_PRIORITIES](_ => NULL);
      tail := new int[NUM_PRIORITIES](_ => NULL);
      next, thr := map[], map[0 := Thread(Ready, PRIORITY_IDLE, 0)];
      current, currentProc, idle, ticks := NULL, NULL, 0, 0;
      procs, procHead, procNext := map[0 := Proc(0, -1, false, 0, [0])], 0, map[0 := NULL];
      nextPid, made, nextTid := 1, 1, 1;
      queues := M.Boot().queues;
      table := [0];
      new;
      M.BootOk();
    }

    /** scheduler_enqueue. */
    method Enqueue(t: int)
      requires Linked() && (t != NULL ==> t in thr && QueuesOk(queues, thr) && !Queued(queues, thr, t))
      modifies this`next, this`thr, this`queues, head, tail
      ensures Linked()
      ensures t != NULL ==> queues == Pushed(old(queues), old(thr), t) && thr == With(old(thr), t, Ready)
      ensures t != NULL ==> |old(queues)| == 8 && var l := if old(thr)[t].prio < 8 then old(thr)[t].prio else 4;
                queues == old(queues)[l := old(queues)[l] + [t]] && thr == old(thr)[t := old(thr)[t].(state := Ready)]
      ensures t == NULL ==> queues == old(queues) && thr == old(thr)
    {
      hide Links, QueuesOk, Chain;
      if t == NULL {
        return;
      }
      var pri := thr[t].prio;
      if pri >= NUM_PRIORITIES {
        pri := PRIORITY_NORMAL;
      }
      LinksAt(next, head[..], tail[..], queues, pri);
      next := next[t := NULL];
      if head[pri] == NULL {
        head[pri] := t;
        tail[pri] := t;
        assert head[..] == old(head[..])[pri := t];
      } else {
        next := next[tail[pri] := t];
        tail[pri] := t;
        assert head[..] == old(head[..]);
      }
      assert tail[..] == old(tail[..])[pri := t];
      PushLinks(old(next), next, old(head[..]), head[..], old(tail[..]), tail[..], queues, thr, t);
      queues := Pushed(queues, thr, t);
      thr := With(thr, t, Ready);
    }

    /** scheduler_dequeue: the thread leaves its queue if it is in it. */
    method Dequeue(t: int)
      requires Linked() && (t != NULL ==> t in thr && QueuesOk(queues, thr))
      modifies this`next, this`queues, head, tail
      ensures Linked()
      ensures queues == if t == NULL then old(queues) else Pulled(old(queues), old(thr), t)
      ensures t != NULL ==> |old(queues)| == 8 && var l := if old(thr)[t].prio < 8 then old(thr)[t].prio else 4;
                queues == old(queues)[l := Without(old(queues)[l], t)]
    {
      hide Links, QueuesOk, Chain, Without;
      if t == NULL {
        return;
      }
      var pri := thr[t].prio;
      if pri >= NUM_PRIORITIES {
        pri := PRIORITY_NORMAL;
      }
      LinksAt(next, head[..], tail[..], queues, pri);
      var prev, cur := NULL, head[pri];
      ghost var q := queues[pri];
      ghost var i := 0;
      while cur != NULL
        invariant i <= |q| && cur == (if i < |q| then q[i] else NULL) && prev == (if i == 0 then NULL else q[i - 1])
        invariant i < |q| ==> cur != NULL
        invariant next == old(next) && head[..] == old(head[..]) && tail[..] == old(tail[..]) && queues == old(queues)
        invariant forall j :: 0 <= j < i ==> q[j] != t
        decreases |q| - i
      {
        ChainAt(next, head[pri], q, i);
        if cur == t {
          if prev != NULL {
            next := next[prev := next[cur]];
          } else {
            head[pri] := next[cur];
          }
          if tail[pri] == cur {
            tail[pri] := prev;
          }
          next := next[cur := NULL];
          PullStep(old(next), next, old(head[..]), head[..], old(tail[..]), tail[..], queues, thr, t, i);
          queues := Pulled(queues, thr, t);
          return;
        }
        prev, cur, i := cur, next[cur], i + 1;
        if i < |q| { ChainAt(next, head[pri], q, i); }
      }
      WithoutAbsent(q, t);
      assert queues == Pulled(queues, thr, t);
    }

    /** pick_next: the head of the highest queue that is not empty leaves it. */
    method PickNext() returns (chosen: int)
      requires Linked() && QueuesOk(queues, thr)
      modifies this`next, this`queues, head, tail
      ensures Linked() && chosen == Picked(old(queues))
      ensures queues == if chosen == NULL then old(queues) else Pulled(old(queues), thr, chosen)
      ensures chosen != NULL ==> chosen in thr
    {
      hide Links, QueuesOk, Chain, Without;
      var pri := NUM_PRIORITIES - 1;
      QueuesLength(queues, thr);
      while pri >= 0
        invariant -1 <= pri < NUM_PRIORITIES
        invariant Linked() && queues == old(queues)
        invariant forall l :: pri < l < NUM_PRIORITIES ==> queues[l] == []
      {
        ScanSleepers(pri);
        LinksAt(next, head[..], tail[..], queues, pri);
        if head[pri] != NULL {
          chosen := head[pri];
          HighestIs(queues, pri);
          HeadKnown(queues, thr, pri);
          Dequeue(chosen);
          return;
        }
        pri := pri - 1;
      }
      return NULL;
    }

    /** The scan of pick_next for sleepers whose time has come: a queued thread is
        READY, so it never finds one. */
    method ScanSleepers(pri: nat)
      requires Linked() && QueuesOk(queues, thr) && pri < NUM_PRIORITIES
    {
      hide Links, QueuesOk, Chain;
      LinksAt(next, head[..], tail[..], queues, pri);
      var t := head[pri];
      ghost var i := 0;
      ghost var q := queues[pri];
      while t != NULL
        invariant i <= |q| && t == if i < |q| then q[i] else NULL
        decreases |q| - i
      {
        ChainAt(next, head[pri], q, i);
        QueuedReady(queues, thr, pri, t);
        if thr[t].state.Sleeping? {
          assert false;
        }
        t, i := next[t], i + 1;
      }
    }

    /** schedule, with sched_lock clear on entry. */
    method Schedule()
      requires Tables() && SchedReady(View())
      modifies this`next, this`thr, this`queues, this`current, this`currentProc, head, tail
      ensures Valid() && Pickable(old(View())) && View() == SchedSpec.Schedule(old(View()))
    {
      hide Linked, Chain, QueuesOk, SchedReady, SysOk, SchedSpec.Schedule, Pulled, Picked, PidOf, With, LeftQueues, LeftThreads, Pickable;
      ghost var s := View();
      ScheduleFacts(s);
      var left := current;
      var chosen := PickNext();
      if chosen == NULL {
        if left != idle {
          chosen := idle;
        } else {
          StayIs(s);
          return;
        }
      }
      SwitchFacts(s, chosen);
      if chosen == left {
        assert false;
      }
      PutAside(s);
      RunThread(chosen);
    }

    /** The chosen thread gets the CPU. */
    method RunThread(t: int)
      requires t in thr
      modifies this`thr, this`current, this`currentProc
      ensures thr == With(old(thr), t, Running) && current == t && t in thr && currentProc == thr[t].proc
    {
      thr := With(thr, t, Running);
      current := t;
      currentProc := thr[t].proc;
    }

    /** The thread that leaves the CPU is queued again if it could go on. */
    method PutAside(ghost s: Sys)
      requires Linked() && QueuesOk(queues, thr) && s.thr == thr && s.current == current && (current != NULL ==> current in thr)
      modifies this`next, this`thr, this`queues, head, tail
      ensures |old(queues)| == NUM_PRIORITIES
      ensures Linked() && thr == LeftThreads(s) && queues == LeftQueues(s, old(queues))
    {
      hide Linked, QueuesOk, Pushed, Queued;
      QueuesLength(queues, thr);
      if current != NULL && thr[current].state.Running? {
        RunningOut(queues, thr, current);
        StateOk(queues, thr, current, Ready);
        thr := With(thr, current, Ready);
        PushedSame(queues, s.thr, current);
        Enqueue(current);
      }
    }

    /** scheduler_tick: every tenth tick calls schedule(). */
    method Tick()
      requires Valid() && ticks < 10
      modifies this`next, this`thr, this`queues, this`current, this`currentProc, this`ticks, head, tail
      ensures Valid() && ticks == (if old(ticks) == 9 then 0 else old(ticks) + 1)
      ensures View() == if ticks == 0 then M.Step(old(View()), M.Switch) else old(View())
    {
      hide SysOk, SchedReady, Links, Chain, SchedSpec.Schedule;
      ticks := ticks + 1;
      if ticks >= QUANTUM {
        ticks := 0;
        SysReady(View());
        Schedule();
      }
    }

    /** scheduler_block. */
    method Block(reason: State)
      requires Valid() && M.Legal(View(), M.BlockCurrent(reason))
      modifies this`next, this`thr, this`queues, this`current, this`currentProc, head, tail
      ensures Valid() && View() == M.Step(old(View()), M.BlockCurrent(reason))
    {
      hide SysOk, SchedReady, Links, Chain, SchedSpec.Schedule, QueuesOk, ReadyOk, RunOk, ProcsOk, TableOk, TidsOk, Pulled;
      ghost var s := View();
      if current == NULL {
        return;
      }
      Parts(s);
      OnlyCurrent(thr, current);
      BlockReady(s, reason);
      BlockQueues(queues, thr, current, idle, reason);
      RunningOut(queues, thr, current);
      StateOk(queues, thr, current, reason);
      thr := With(thr, current, reason);
      Dequeue(current);
      assert View() == SchedSpec.Block(s, reason);
      Schedule();
    }

    /** scheduler_wake. */
    method Wake(t: int)
      requires Valid() && (t != NULL ==> t in thr)
      modifies this`next, this`thr, this`queues, head, tail
      ensures Valid() && View() == if t == NULL then old(View()) else M.Step(old(View()), M.WakeUp(t))
    {
      hide SysOk, Linked, Chain, QueuesOk, Pushed, Queued, With, M.Step, PidOf;
      if t == NULL {
        return;
      }
      ghost var s := View();
      WakeStep(s, t);
      if thr[t].state.Blocked? || thr[t].state.Sleeping? {
        thr := With(thr, t, Ready);
        Enqueue(t);
      }
    }

    /** process_exit. */
    method Exit(p: int, code: int)
      requires Valid() && M.Legal(View(), M.ExitProc(p, code))
      modifies this`next, this`thr, this`queues, this`current, this`currentProc, this`procs, head, tail
      ensures Valid() && View() == M.Step(old(View()), M.ExitProc(p, code))
    {
      hide SysOk, SchedReady, Links, Chain, SchedSpec.Schedule, QueuesOk, ReadyOk, RunOk, ProcsOk, TableOk, TidsOk;
      ghost var s := View();
      Parts(s);
      ExitReady(s, p, code);
      SysReady(s);
      ReadyParts(s);
      procs := procs[p := procs[p].(code := code, zombie := true)];
      KillThreads(procs[p].threads);
      assert View() == SchedSpec.Exit(s, p, code);
      ExitOwner(s, p, code);
      if p == currentProc {
        Schedule();
      }
    }

    /** The loop of process_exit: every thread of the list leaves its queue and is DEAD. */
    method KillThreads(ts: seq<int>)
      requires Linked() && QueuesOk(queues, thr) && ReadyOk(queues, thr, idle) && Known(ts, thr) && NULL !in thr
      modifies this`next, this`thr, this`queues, head, tail
      ensures Linked() && |old(queues)| == NUM_PRIORITIES && View() == Kill(old(View()), ts)
    {
      hide Links, QueuesOk, ReadyOk, Pulled, Killed;
      ghost var s := View();
      QueuesLength(queues, thr);
      assert ts[0..] == ts;
      for i := 0 to |ts|
        invariant |queues| == NUM_PRIORITIES
        invariant Linked() && QueuesOk(queues, thr) && ReadyOk(queues, thr, idle) && Known(ts[i..], thr) && NULL !in thr
        invariant Kill(View(), ts[i..]) == Kill(s, ts)
      {
        var t := ts[i];
        assert ts[i..][0] == t && ts[i..][1..] == ts[i + 1..];
        if !thr[t].state.Dead? {
          KillOne(queues, thr, idle, t);
          Dequeue(t);
          thr := With(thr, t, Dead);
          QueuesLength(queues, thr);
        }
      }
    }

    /** process_create; m is what the allocators have left. */
    method CreateProcess(ppid: int, m: Memory) returns (p: int)
      requires Valid()
      modifies this`procs, this`procHead, this`procNext, this`table, this`nextPid, this`made
      ensures Valid() && View() == M.Step(old(View()), M.NewProc(ppid, m))
      ensures p == (if m.Enough? then old(made) else NULL) && (m.Enough? ==> p in procs && procs[p].pid == old(nextPid))
    {
      hide SysOk, Linked, Chain, M.Step, Create, PidOf, Next32;
      ghost var s := View();
      CreateStep(s, ppid, m);
      if m.NoHeap? {
        return NULL;
      }
      p := made;
      var pid := nextPid;
      nextPid := Next32(nextPid);
      made := made + 1;
      if m.NoFrame? {
        return NULL;
      }
      AddEntry(p, Proc(pid, ppid, false, 0, []));
    }

    /** The control block becomes the head of the process table. */
    method AddEntry(p: int, v: Proc)
      requires Chain(procNext, procHead, table) && p != NULL && p !in table
      modifies this`procs, this`procHead, this`procNext, this`table
      ensures Chain(procNext, procHead, table) && table == [p] + old(table) && procs == old(procs)[p := v]
    {
      hide Chain;
      procs := procs[p := v];
      ChainPrepend(procNext, procNext[p := procHead], procHead, table, p);
      procNext := procNext[p := procHead];
      procHead := p;
      table := [p] + table;
    }

    /** thread_create, then the caller's priority and scheduler_enqueue. */
    method StartThread(p: int, prio: nat, m: Memory) returns (t: int)
      requires Valid() && M.Legal(View(), M.NewThread(p, prio, m))
      modifies this`next, this`thr, this`queues, this`procs, this`nextTid, head, tail
      ensures Valid() && View() == M.Step(old(View()), M.NewThread(p, prio, m))
      ensures t == if m.Enough? then old(nextTid) else NULL
    {
      hide SysOk, Linked, Chain, QueuesOk, Pushed, Queued, With, M.Step, M.Legal, Spawn, PidOf;
      ghost var s := View();
      SpawnStep(s, p, prio, m);
      if m.NoHeap? {
        return NULL;
      }
      t := nextTid;
      nextTid := nextTid + 1;
      if m.NoFrame? {
        return NULL;
      }
      AddThread(t, p, prio);
      Enqueue(t);
    }

    /** The control block of a thread, at the head of the list of its process. */
    method AddThread(t: int, p: int, prio: nat)
      requires p in procs
      modifies this`thr, this`procs
      ensures thr == old(thr)[t := Thread(Ready, prio, p)]
      ensures procs == old(procs)[p := old(procs)[p].(threads := [t] + old(procs)[p].threads)]
    {
      thr := thr[t := Thread(Ready, PRIORITY_NORMAL, p)];
      procs := procs[p := procs[p].(threads := [t] + procs[p].threads)];
      thr := thr[t := thr[t].(prio := prio)];
    }

    /** process_waitpid: status is left alone when nothing is reaped. */
    method Waitpid(parent: int, target: int, status: int) returns (pid: int, st: int)
      requires Valid()
      modifies this`thr, this`procs, this`procHead, this`procNext, this`table
      ensures Valid() && View() == M.Step(old(View()), M.WaitFor(parent, target))
      ensures var w := Wait(old(View()), parent, target, status); View() == w.sys && pid == w.pid && st == w.status
      ensures forall p :: p in old(procs) && p !in procs ==>
                && old(procs)[p].zombie && old(procs)[p].ppid == parent && (target == -1 || old(procs)[p].pid == target)
                && pid == old(procs)[p].pid && st == old(procs)[p].code % 256 * 256
      ensures procs == old(procs) ==>
                && (forall q :: q in procs && procs[q].ppid == parent && (target == -1 || procs[q].pid == target) ==> !procs[q].zombie)
                && st == status
                && pid == if exists q :: q in procs && procs[q].ppid == parent && (target == -1 || procs[q].pid == target) then 0 else -1
    {
      hide SysOk, Tables, Wait, M.Step;
      ghost var s := View();
      F.WaitDoes(s, parent, target, status);
      pid, st := Reap(parent, target, status);
      ReapStep(s, parent, target, status);
    }

    /** The loop of process_waitpid over the table. */
    method Reap(parent: int, target: int, status: int) returns (pid: int, st: int)
      requires Valid()
      modifies this`thr, this`procs, this`procHead, this`procNext, this`table
      ensures Valid()
      ensures var w := Wait(old(View()), parent, target, status); View() == w.sys && pid == w.pid && st == w.status
    {
      hide SysOk, Linked, Chain, QueuesOk, ReadyOk, RunOk, ProcsOk, TableOk, TidsOk, Without, Destroy, PidOf,
           ChildBefore, NoZombieBefore, HasChild;
      ghost var s := View();
      Parts(s);
      BeforeNone(s, parent, target);
      TableIs(procs, table, made);
      ChainFirst(procNext, procHead, table);
      var hasChildren := false;
      var p := procHead;
      ghost var k := 0;
      while p != NULL
        invariant Valid() && View() == s && procNext == old(procNext) && procHead == old(procHead)
        invariant 0 <= k <= |table| && p == (if k < |table| then table[k] else NULL) && (k < |table| ==> p != NULL)
        invariant hasChildren <==> ChildBefore(s, parent, target, k)
        invariant NoZombieBefore(s, parent, target, k)
        decreases |table| - k
      {
        ChainAt(procNext, procHead, table, k);
        assert p in table;
        BeforeStep(s, parent, target, k);
        if procs[p].ppid == parent {
          if target == -1 || procs[p].pid == target {
            hasChildren := true;
            if procs[p].zombie {
              pid := procs[p].pid;
              st := procs[p].code % 256 * 256;
              ZombieAt(s, parent, target, 0, k);
              DestroyProcess(p);
              return;
            }
          }
        }
        p, k := procNext[p], k + 1;
        if k < |table| { ChainAt(procNext, procHead, table, k); }
      }
      ZombieAt(s, parent, target, 0, k);
      AllBefore(s, parent, target);
      pid, st := if hasChildren then 0 else -1, status;
    }

    /** process_destroy of a zombie: its threads, its entry in the process table
        and its control block. */
    method DestroyProcess(p: int)
      requires Valid() && p in procs && procs[p].zombie
      modifies this`thr, this`procs, this`procHead, this`procNext, this`table
      ensures Valid() && View() == Destroy(old(View()), p)
    {
      hide SysOk, Linked, Chain, TableOk, Destroy, PidOf;
      ghost var s := View();
      DestroyStep(s, p);
      FreeThreads(procs[p].threads);
      Unlink(p);
      procs := procs - {p};
    }

    /** The loop of process_destroy over the threads. */
    method FreeThreads(ts: seq<int>)
      modifies this`thr
      ensures thr == map t | t in old(thr) && t !in ts :: old(thr)[t]
    {
      for i := 0 to |ts|
        invariant thr == map t | t in old(thr) && t !in ts[..i] :: old(thr)[t]
      {
        thr := thr - {ts[i]};
        assert forall t :: t in ts[..i + 1] <==> t in ts[..i] || t == ts[i];
      }
      assert ts[..|ts|] == ts;
    }

    /** The process leaves the table. */
    method Unlink(p: int)
      requires Chain(procNext, procHead, table) && p in table
      modifies this`procHead, this`procNext, this`table
      ensures Chain(procNext, procHead, table) && table == Without(old(table), p)
    {
      hide Chain, Without, NoDup;
      ChainFirst(procNext, procHead, table);
      ghost var i :| 0 <= i < |table| && table[i] == p;
      if procHead == p {
        assert i == 0 by { SamePlace(table, 0, i); }
        ChainRemove(procNext, procNext, procHead, table, 0) by { assert Unlinked(procNext, procNext, table, 0); }
        procHead := procNext[p];
      } else {
        var x := procHead;
        ghost var j := 0;
        while x != NULL && procNext[x] != NULL
          invariant procNext == old(procNext) && procHead == old(procHead) && table == old(table)
          invariant 0 <= j < i && x == table[j] && x != NULL && x in procNext && procNext[x] == Following(table, j)
          decreases i - j
        {
          if procNext[x] == p {
            ChainAt(procNext, procHead, table, i);
            SamePlace(table, j + 1, i);
            assert x in table;
            procNext := procNext[x := procNext[p]];
            UnlinkStep(old(procNext), procNext, table, i);
            ChainRemove(old(procNext), procNext, procHead, table, i);
            table := Without(table, p);
            return;
          }
          assert j + 1 != i;
          ChainAt(procNext, procHead, table, j + 1);
          x, j := procNext[x], j + 1;
        }
        ChainAt(procNext, procHead, table, j + 1);
        assert false;
      }
      table := Without(table, p);
    }
  }

  lemma SamePlace(s: seq<int>, i: nat, j: nat)
    requires NoDup(s) && i < |s| && j < |s| && s[i] == s[j]
    ensures i == j
  {
  }

  lemma UnlinkStep(next: map<int, int>, next': map<int, int>, s: seq<int>, i: nat)
    requires 0 < i < |s| && next' == next[s[i - 1] := Following(s, i)]
    ensures Unlinked(next, next', s, i)
  {
  }

  /** What process_create does to the values. */
  lemma CreateStep(s: Sys, ppid: int, m: Memory)
    requires SysOk(s)
    ensures var r := M.Step(s, M.NewProc(ppid, m));
            && SysOk(r) && s.made != NULL && s.made !in s.table && PidOf(s.made + 1) == Next32(PidOf(s.made))
            && r == match m
               case NoHeap => s
               case NoFrame => s.(made := s.made + 1)
               case Enough => s.(procs := s.procs[s.made := Proc(PidOf(s.made), ppid, false, 0, [])],
                                 table := [s.made] + s.table, made := s.made + 1)
  {
    Parts(s);
    PidNext(s.made);
  }

  /** The status argument plays no part in what waitpid does to the processes. */
  lemma ReapStep(s: Sys, parent: int, target: int, status: int)
    requires SysOk(s)
    ensures M.Step(s, M.WaitFor(parent, target)) == Wait(s, parent, target, status).sys
  {
  }

  /** What scheduler_wake does to the values. */
  lemma WakeStep(s: Sys, t: int)
    requires SysOk(s) && t in s.thr
    ensures |s.queues| == NUM_PRIORITIES && SysOk(M.Step(s, M.WakeUp(t)))
    ensures var thr1 := With(s.thr, t, Ready);
            if s.thr[t].state.Blocked? || s.thr[t].state.Sleeping? then
              && t in thr1 && QueuesOk(s.queues, thr1) && !Queued(s.queues, thr1, t)
              && M.Step(s, M.WakeUp(t)) == s.(queues := Pushed(s.queues, thr1, t), thr := With(thr1, t, Ready))
            else M.Step(s, M.WakeUp(t)) == s
    ensures forall x :: x in s.thr ==> x in With(s.thr, t, Ready) && With(s.thr, t, Ready)[x].proc == s.thr[x].proc
    ensures forall x :: x in With(s.thr, t, Ready) ==> x in s.thr
    ensures With(With(s.thr, t, Ready), t, Ready) == With(s.thr, t, Ready)
  {
    hide SysOk, QueuesOk, ReadyOk, RunOk, ProcsOk, TableOk, TidsOk, Pushed, Queued;
    Parts(s);
    QueuesLength(s.queues, s.thr);
    WakeOk(s, t);
    if s.thr[t].state.Blocked? || s.thr[t].state.Sleeping? {
      StoppedOut(s.queues, s.thr, t);
      StateOk(s.queues, s.thr, t, Ready);
      PushedSame(s.queues, s.thr, t);
    }
  }

  /** What process_destroy does to the values: the current thread stays. */
  lemma DestroyStep(s: Sys, p: int)
    requires SysOk(s) && p in s.procs && s.procs[p].zombie
    ensures p in s.table
    ensures var r := Destroy(s, p);
            && SysOk(r) && (s.current in s.thr <==> s.current in r.thr)
            && r == s.(thr := map t | t in s.thr && t !in s.procs[p].threads :: s.thr[t],
                       table := Without(s.table, p), procs := s.procs - {p})
  {
    hide SysOk, TableOk, QueuesOk, ReadyOk, RunOk, ProcsOk, TidsOk, Without;
    DestroyOk(s, p);
    CurrentKnown(s);
    Parts(s);
    TableIs(s.procs, s.table, s.made);
  }

  /** What schedule() may rely on. */
  lemma ScheduleFacts(s: Sys)
    requires SchedReady(s)
    ensures Pickable(s) && SysOk(SchedSpec.Schedule(s)) && QueuesOk(s.queues, s.thr) && s.idle != NULL
  {
    hide SchedReady, SysOk, SchedSpec.Schedule;
    SchedDefined(s);
    ScheduleOk(s);
    ReadyParts(s);
  }

  /** What schedule() does to the values once it has chosen n. */
  lemma SwitchFacts(s: Sys, n: int)
    requires SchedReady(s) && Pickable(s) && n == Next(s) && n != NULL
    ensures n in s.thr && n != s.current && (s.current != NULL ==> s.current in s.thr) && QueuesOk(Taken(s.queues, s.thr, n), s.thr)
    ensures n in LeftThreads(s) && n in With(LeftThreads(s), n, Running)
    ensures |Taken(s.queues, s.thr, n)| == NUM_PRIORITIES
    ensures SchedSpec.Schedule(s) == s.(queues := LeftQueues(s, Taken(s.queues, s.thr, n)),
                                        thr := With(LeftThreads(s), n, Running), current := n)
  {
    hide SchedReady, QueuesOk, ReadyOk, Picked, Pulled, Pushed, SchedSpec.Schedule;
    SchedDefined(s);
    ReadyParts(s);
    ScheduleIs(s);
    TakeNext(s.queues, s.thr, s.idle, n);
    QueuesLength(Taken(s.queues, s.thr, n), s.thr);
  }

  /** What thread_create and the enqueue do to the values. */
  lemma SpawnStep(s: Sys, p: int, prio: nat, m: Memory)
    requires SysOk(s) && M.Legal(s, M.NewThread(p, prio, m))
    ensures p in s.procs && s.nextTid != NULL && s.nextTid !in s.thr && s.current != s.nextTid
    ensures var r := M.Step(s, M.NewThread(p, prio, m)); var t := s.nextTid; var thr1 := s.thr[t := Thread(Ready, prio, p)];
            && SysOk(r) && |s.queues| == NUM_PRIORITIES && With(thr1, t, Ready) == thr1
            && QueuesOk(s.queues, thr1) && !Queued(s.queues, thr1, t)
            && r == match m
               case NoHeap => s
               case NoFrame => s.(nextTid := t + 1)
               case Enough => s.(queues := Pushed(s.queues, thr1, t), thr := thr1, nextTid := t + 1,
                                 procs := s.procs[p := s.procs[p].(threads := [t] + s.procs[p].threads)])
  {
    hide SysOk, QueuesOk, ReadyOk, RunOk, ProcsOk, TableOk, Pushed, Queued;
    SpawnOk(s, p, prio, m);
    Parts(s);
    FreshTid(s.thr, s.nextTid);
    CurrentKnown(s);
    SpawnedOut(s.queues, s.thr, s.nextTid, Thread(Ready, prio, p));
    var thr1 := s.thr[s.nextTid := Thread(Ready, prio, p)];
    assert With(thr1, s.nextTid, Ready) == thr1;
  }

  lemma CurrentKnown(s: Sys)
    requires SysOk(s)
    ensures s.current != NULL ==> s.current in s.thr
    ensures s.current != s.nextTid && NULL !in s.thr
  {
  }

  lemma SpawnedOut(q: Queues, thr: Threads, t: int, v: Thread)
    requires QueuesOk(q, thr) && t !in thr
    ensures QueuesOk(q, thr[t := v]) && !Queued(q, thr[t := v], t)
  {
    var thr' := thr[t := v];
    forall l, x | 0 <= l < NUM_PRIORITIES && x in q[l]
      ensures x in thr' && x != NULL && thr'[x].state.Ready? && Level(thr'[x]) == l
    {
      assert x in thr && x != t;
    }
    assert QueuesOk(q, thr');
    assert Level(v) < NUM_PRIORITIES;
  }

  ghost predicate ChildBefore(s: Sys, parent: int, target: int, k: nat)
    requires k <= |s.table|
  {
    exists j :: 0 <= j < k && Child(s, s.table[j], parent, target)
  }

  ghost predicate NoZombieBefore(s: Sys, parent: int, target: int, k: nat)
    requires k <= |s.table|
  {
    (forall j :: 0 <= j < k ==> !(Child(s, s.table[j], parent, target) && s.procs[s.table[j]].zombie)) == true
  }

  lemma BeforeNone(s: Sys, parent: int, target: int)
    ensures !ChildBefore(s, parent, target, 0) && NoZombieBefore(s, parent, target, 0)
  {
  }

  lemma BeforeStep(s: Sys, parent: int, target: int, k: nat)
    requires k < |s.table|
    ensures ChildBefore(s, parent, target, k + 1) <==> ChildBefore(s, parent, target, k) || Child(s, s.table[k], parent, target)
    ensures NoZombieBefore(s, parent, target, k) && !(Child(s, s.table[k], parent, target) && s.procs[s.table[k]].zombie) ==>
              NoZombieBefore(s, parent, target, k + 1)
  {
    if Child(s, s.table[k], parent, target) {
      assert ChildBefore(s, parent, target, k + 1);
    }
  }

  lemma AllBefore(s: Sys, parent: int, target: int)
    ensures ChildBefore(s, parent, target, |s.table|) <==> HasChild(s, parent, target)
  {
    if HasChild(s, parent, target) {
      var p :| p in s.table && Child(s, p, parent, target);
      var j :| 0 <= j < |s.table| && s.table[j] == p;
      assert Child(s, s.table[j], parent, target);
    }
  }

  lemma {:induction false} ZombieAt(s: Sys, parent: int, target: int, i: nat, k: nat)
    requires i <= k <= |s.table| && NoZombieBefore(s, parent, target, k)
    requires k < |s.table| ==> Child(s, s.table[k], parent, target) && s.procs[s.table[k]].zombie
    ensures FirstZombie(s, parent, target, i) == k
    decreases k - i
  {
    if i < k { ZombieAt(s, parent, target, i + 1, k); }
  }

  lemma StoppedOut(q: Queues, thr: Threads, t: int)
    requires QueuesOk(q, thr) && t in thr && !thr[t].state.Ready?
    ensures |q| == NUM_PRIORITIES && !Queued(q, thr, t)
  {
  }

  /** process_exit ends the current thread exactly when it ends its process. */
  lemma ExitOwner(s: Sys, p: int, code: int)
    requires SysOk(s) && p in s.procs && p != 0
    ensures |s.queues| == NUM_PRIORITIES && Known(s.procs[p].threads, s.thr)
    ensures var r := SchedSpec.Exit(s, p, code);
            && r.current == s.current
            && (s.current in r.thr <==> s.current in s.thr) && (s.current in s.thr ==> r.thr[s.current].proc == s.thr[s.current].proc)
            && (M.EndsCurrent(s, p) <==> s.current in s.thr && s.thr[s.current].proc == p)
  {
    ExitReady(s, p, code);
    Parts(s);
    assert NULL !in s.thr;
    var s0 := s.(procs := s.procs[p := s.procs[p].(code := code, zombie := true)]);
    KillOk(s0, s.procs[p].threads);
  }

  lemma StayIs(s: Sys)
    requires Pickable(s) && Next(s) == NULL
    ensures SchedSpec.Schedule(s) == s
  {
  }

  lemma RunningOut(q: Queues, thr: Threads, t: int)
    requires QueuesOk(q, thr) && t in thr && thr[t].state.Running?
    ensures |q| == NUM_PRIORITIES && !Queued(q, thr, t)
  {
  }

  /** Pushing looks at the priority only. */
  lemma PushedSame(q: Queues, thr: Threads, t: int)
    requires |q| == NUM_PRIORITIES && t in thr
    ensures Pushed(q, With(thr, t, Ready), t) == Pushed(q, thr, t) && With(With(thr, t, Ready), t, Ready) == With(thr, t, Ready)
    ensures Queued(q, With(thr, t, Ready), t) == Queued(q, thr, t)
  {
  }

  lemma HighestIs(q: Queues, pri: nat)
    requires |q| == NUM_PRIORITIES && pri < NUM_PRIORITIES && q[pri] != [] && forall l :: pri < l < NUM_PRIORITIES ==> q[l] == []
    ensures Highest(q, NUM_PRIORITIES) == pri && Picked(q) == q[pri][0]
  {
    HighestFrom(q, NUM_PRIORITIES, pri);
  }

  lemma {:induction false} HighestFrom(q: Queues, n: nat, pri: nat)
    requires pri < n <= |q| && q[pri] != [] && forall l :: pri < l < n ==> q[l] == []
    ensures Highest(q, n) == pri
  {
    if pri < n - 1 { HighestFrom(q, n - 1, pri); }
  }

  lemma HeadKnown(q: Queues, thr: Threads, pri: nat)
    requires QueuesOk(q, thr) && pri < NUM_PRIORITIES && q[pri] != []
    ensures q[pri][0] in thr && q[pri][0] != NULL && Level(thr[q[pri][0]]) == pri
  {
    var t := q[pri][0];
    assert t in q[pri];
    assert t in thr && t != NULL && Level(thr[t]) == pri;
  }

  lemma QueuedReady(q: Queues, thr: Threads, pri: nat, t: int)
    requires QueuesOk(q, thr) && pri < NUM_PRIORITIES && t in q[pri]
    ensures t in thr && thr[t].state.Ready?
  {
  }

  lemma LinksAt(next: map<int, int>, head: seq<int>, tail: seq<int>, q: Queues, l: nat)
    requires Links(next, head, tail, q) && l < NUM_PRIORITIES
    ensures |head| == |tail| == |q| == NUM_PRIORITIES
    ensures Chain(next, head[l], q[l]) && head[l] == First(q[l]) && tail[l] == Last(q[l])
    ensures head[l] == NULL <==> q[l] == []
  {
    ChainFirst(next, head[l], q[l]);
  }

  lemma QueuesDisjoint(q: Queues, thr: Threads, k: nat, l: nat)
    requires QueuesOk(q, thr) && k < NUM_PRIORITIES && l < NUM_PRIORITIES && k != l
    ensures forall x :: x in q[k] ==> x !in q[l]
  {
    forall x | x in q[k] ensures x !in q[l] {
      assert Level(thr[x]) == k;
    }
  }

  /** Threads of another queue are not touched by changing links in queue l. */
  lemma OtherQueue(next: map<int, int>, next': map<int, int>, head: int, q: Queues, thr: Threads, l: nat, k: nat, t: int)
    requires QueuesOk(q, thr) && l < NUM_PRIORITIES && k < NUM_PRIORITIES && k != l && Chain(next, head, q[k])
    requires t in thr && Level(thr[t]) == l && !(t in q[k])
    requires forall x :: x in next && x != t && x !in q[l] ==> x in next' && next'[x] == next[x]
    ensures Chain(next', head, q[k])
  {
    hide QueuesOk, Chain;
    QueuesLength(q, thr);
    QueuesDisjoint(q, thr, k, l);
    ChainFrame(next, next', head, q[k]);
  }

  lemma PushLinks(next: map<int, int>, next': map<int, int>, head: seq<int>, head': seq<int>, tail: seq<int>, tail': seq<int>,
                  q: Queues, thr: Threads, t: int)
    requires Links(next, head, tail, q) && QueuesOk(q, thr) && t in thr && t != NULL && !Queued(q, thr, t)
    requires tail' == tail[Level(thr[t]) := t]
    requires q[Level(thr[t])] == [] ==> next' == next[t := NULL] && head' == head[Level(thr[t]) := t]
    requires q[Level(thr[t])] != [] ==> next' == next[t := NULL][tail[Level(thr[t])] := t] && head' == head
    ensures Links(next', head', tail', Pushed(q, thr, t))
  {
    var l := Level(thr[t]);
    var r := Pushed(q, thr, t);
    assert q[l] != [] ==> Last(q[l]) in q[l];
    ChainAppend(next, next', head[l], q[l], t);
    forall k | 0 <= k < NUM_PRIORITIES ensures Chain(next', head'[k], r[k]) && tail'[k] == Last(r[k]) {
      if k != l { OtherQueue(next, next', head[k], q, thr, l, k, t); }
    }
  }

  lemma PullStep(next: map<int, int>, next': map<int, int>, head: seq<int>, head': seq<int>, tail: seq<int>, tail': seq<int>,
                 q: Queues, thr: Threads, t: int, i: nat)
    requires Links(next, head, tail, q) && QueuesOk(q, thr) && t in thr && i < |q[Level(thr[t])]| && q[Level(thr[t])][i] == t
    requires var l := Level(thr[t]); var s := q[l];
             && head' == (if i == 0 then head[l := Following(s, 0)] else head)
             && next' == (if i == 0 then next else next[s[i - 1] := Following(s, i)])[t := NULL]
             && tail' == (if Last(s) == t then tail[l := if i == 0 then NULL else s[i - 1]] else tail)
    ensures Links(next', head', tail', Pulled(q, thr, t))
  {
    var l := Level(thr[t]);
    var s := q[l];
    var r := Pulled(q, thr, t);
    LinksAt(next, head, tail, q, l);
    ChainFirst(next, head[l], s);
    assert i > 0 ==> s[i - 1] in s;
    assert Unlinked(next, next', s, i);
    ChainRemove(next, next', head[l], s, i);
    PulledLast(s, i);
    forall k | 0 <= k < NUM_PRIORITIES ensures Chain(next', head'[k], r[k]) && tail'[k] == Last(r[k]) {
      if k != l { OtherQueue(next, next', head[k], q, thr, l, k, t); }
    }
  }

  lemma PulledLast(s: seq<int>, i: nat)
    requires NoDup(s) && i < |s|
    ensures var r := s[..i] + s[i + 1..];
            Last(r) == if Last(s) == s[i] then (if i == 0 then NULL else s[i - 1]) else Last(s)
  {
  }
}
