/**
 What every scheduler and process step keeps.
 */
module SchedProofs {
  import opened SchedSpec

  // ---- Queue moves ------------------------------------------------------------------

  lemma {:induction false} WithoutIs(s: seq<int>, t: int)
    requires NoDup(s)
    ensures NoDup(Without(s, t))
    ensures forall x :: x in Without(s, t) <==> x in s && x != t
  {
    if s != [] {
      var r := s[1..];
      assert forall x :: x in s <==> x == s[0] || x in r;
      WithoutIs(r, t);
      if s[0] != t {
        var w := Without(r, t);
        assert forall x :: x in [s[0]] + w <==> x == s[0] || x in w;
        assert s[0] !in w;
        ConsNoDup(s[0], w);
      }
    }
  }

  lemma ConsNoDup(x: int, s: seq<int>)
    requires NoDup(s) && x !in s
    ensures NoDup([x] + s)
  {
  }

  lemma {:induction false} WithoutAt(s: seq<int>, i: nat)
    requires NoDup(s) && i < |s|
    ensures Without(s, s[i]) == s[..i] + s[i + 1..]
  {
    if i > 0 {
      assert s[0] != s[i];
      WithoutAt(s[1..], i - 1);
      assert s[1..][..i - 1] == s[1..i] && s[1..][i..] == s[i + 1..];
      assert s[..i] == [s[0]] + s[1..i];
    }
  }

  lemma {:induction false} WithoutAbsent(s: seq<int>, t: int)
    requires t !in s
    ensures Without(s, t) == s
  {
    if s != [] { WithoutAbsent(s[1..], t); }
  }

  lemma PushOk(q: Queues, thr: Threads, t: int)
    requires QueuesOk(q, thr) && t in thr && t != NULL && !Queued(q, thr, t)
    ensures QueuesOk(Pushed(q, thr, t), With(thr, t, Ready))
    ensures forall l, x :: 0 <= l < NUM_PRIORITIES ==>
              (x in Pushed(q, thr, t)[l] <==> x in q[l] || (x == t && l == Level(thr[t])))
  {
    var p := Pushed(q, thr, t);
    var l := Level(thr[t]);
    var thr' := With(thr, t, Ready);
    forall x ensures x in p[l] <==> x in q[l] || x == t {
    }
    forall k | 0 <= k < NUM_PRIORITIES ensures NoDup(p[k]) {
      if k == l { LastNoDup(q[l], t); }
    }
    forall k, x | 0 <= k < NUM_PRIORITIES && x in p[k]
      ensures x in thr' && x != NULL && thr'[x].state.Ready? && Level(thr'[x]) == k
    {
      if x != t { assert x in q[k]; }
    }
  }

  lemma LastNoDup(s: seq<int>, t: int)
    requires NoDup(s) && t !in s
    ensures NoDup(s + [t])
  {
  }

  lemma PullOk(q: Queues, thr: Threads, t: int)
    requires QueuesOk(q, thr) && t in thr
    ensures QueuesOk(Pulled(q, thr, t), thr) && !Queued(Pulled(q, thr, t), thr, t)
    ensures forall l, x :: 0 <= l < NUM_PRIORITIES && x != t ==> (x in Pulled(q, thr, t)[l] <==> x in q[l])
  {
    WithoutIs(q[Level(thr[t])], t);
  }

  lemma StateOk(q: Queues, thr: Threads, t: int, st: State)
    requires QueuesOk(q, thr) && t in thr && !Queued(q, thr, t)
    ensures QueuesOk(q, With(thr, t, st))
  {
  }

  lemma PickedIn(q: Queues)
    requires |q| == NUM_PRIORITIES && Highest(q, NUM_PRIORITIES) >= 0
    ensures Picked(q) in q[Highest(q, NUM_PRIORITIES)]
  {
  }

  // ---- What a change of one thread's state keeps -----------------------------------------

  lemma WithProcs(thr: Threads, t: int, st: State, procs: map<int, Proc>)
    requires ProcsOk(thr, procs) && t in thr && (procs[thr[t].proc].zombie ==> st.Dead?)
    ensures ProcsOk(With(thr, t, st), procs)
  {
  }

  lemma WithTids(thr: Threads, t: int, st: State, n: int)
    requires TidsOk(thr, n) && t in thr
    ensures TidsOk(With(thr, t, st), n)
  {
  }

  lemma NotZombie(thr: Threads, t: int, procs: map<int, Proc>)
    requires ProcsOk(thr, procs) && t in thr && !thr[t].state.Dead?
    ensures thr[t].proc in procs && !procs[thr[t].proc].zombie
  {
  }

  lemma Parts(s: Sys)
    requires SysOk(s)
    ensures QueuesOk(s.queues, s.thr) && ReadyOk(s.queues, s.thr, s.idle) && RunOk(s.thr, s.current)
    ensures IdleOk(s.thr, s.idle) && ProcsOk(s.thr, s.procs) && TableOk(s.procs, s.table, s.made)
    ensures TidsOk(s.thr, s.nextTid)
  {
  }

  lemma SysReady(s: Sys)
    requires SysOk(s)
    ensures SchedReady(s)
  {
  }

  // ---- schedule() ---------------------------------------------------------------------------

  /** Every READY thread but idle and n is queued. */
  ghost predicate ReadyBut(q: Queues, thr: Threads, idle: int, n: int)
    requires |q| == NUM_PRIORITIES
  {
    (forall t :: t in thr && thr[t].state.Ready? && t != idle && t != n ==> Queued(q, thr, t)) == true
  }

  ghost predicate OnlyRunning(thr: Threads, c: int)
  {
    (forall t :: t in thr && thr[t].state.Running? ==> t == c) == true
  }

  ghost predicate NoneRunning(thr: Threads)
  {
    (forall t :: t in thr ==> !thr[t].state.Running?) == true
  }

  function Taken(q: Queues, thr: Threads, n: int): Queues
    requires |q| == NUM_PRIORITIES && n in thr
  {
    if Picked(q) == NULL then q else Pulled(q, thr, n)
  }

  lemma TakeNext(q: Queues, thr: Threads, idle: int, n: int)
    requires QueuesOk(q, thr) && ReadyOk(q, thr, idle) && n in thr
    requires n == Picked(q) || (Picked(q) == NULL && n == idle)
    ensures QueuesOk(Taken(q, thr, n), thr) && !Queued(Taken(q, thr, n), thr, n) && ReadyBut(Taken(q, thr, n), thr, idle, n)
  {
    if Picked(q) == NULL {
      if Highest(q, NUM_PRIORITIES) >= 0 {
        PickedIn(q);
        assert false;
      }
    } else {
      PullOk(q, thr, n);
    }
  }

  lemma PutBack(q: Queues, thr: Threads, idle: int, n: int, c: int)
    requires QueuesOk(q, thr) && n in thr && !Queued(q, thr, n) && ReadyBut(q, thr, idle, n)
    requires c in thr && c != NULL && c != n && thr[c].state.Running? && OnlyRunning(thr, c)
    ensures var q2 := Pushed(q, thr, c); var thr2 := With(thr, c, Ready);
            QueuesOk(q2, thr2) && !Queued(q2, thr2, n) && ReadyBut(q2, thr2, idle, n) && NoneRunning(thr2)
  {
    assert !Queued(q, thr, c);
    PushOk(q, thr, c);
  }

  lemma GiveCpu(q: Queues, thr: Threads, idle: int, n: int)
    requires QueuesOk(q, thr) && n in thr && n != NULL && !Queued(q, thr, n) && ReadyBut(q, thr, idle, n) && NoneRunning(thr)
    ensures var thr' := With(thr, n, Running);
            QueuesOk(q, thr') && ReadyOk(q, thr', idle) && RunOk(thr', n)
  {
    StateOk(q, thr, n, Running);
  }

  /** The thread schedule() leaves goes back to its queue if it is still RUNNING. */
  function LeftThreads(s: Sys): Threads
    requires s.current != NULL ==> s.current in s.thr
  {
    if s.current != NULL && s.thr[s.current].state.Running? then With(s.thr, s.current, Ready) else s.thr
  }

  function LeftQueues(s: Sys, q: Queues): Queues
    requires |q| == NUM_PRIORITIES && (s.current != NULL ==> s.current in s.thr)
  {
    if s.current != NULL && s.thr[s.current].state.Running? then Pushed(q, s.thr, s.current) else q
  }

  lemma ScheduleIs(s: Sys)
    requires Pickable(s) && Next(s) != NULL
    ensures Next(s) in s.thr
    ensures Schedule(s) == s.(queues := LeftQueues(s, Taken(s.queues, s.thr, Next(s))),
                              thr := With(LeftThreads(s), Next(s), Running), current := Next(s))
  {
  }

  /** Everything schedule() does keeps the queues, whatever the current thread was. */
  lemma ScheduleOk(s: Sys)
    requires SchedReady(s)
    ensures Pickable(s) && SysOk(Schedule(s))
  {
    SchedDefined(s);
    ReadyParts(s);
    var n := Next(s);
    if n == NULL {
      assert RunOk(s.thr, s.current) by { hide QueuesOk, ReadyOk, ProcsOk, TableOk, TidsOk; }
    } else {
      ScheduleIs(s);
      hide QueuesOk, ReadyOk, ProcsOk, TableOk, TidsOk, ReadyBut, NoneRunning, OnlyRunning, RunOk, Schedule, SchedReady;
      var q1 := Taken(s.queues, s.thr, n);
      TakeNext(s.queues, s.thr, s.idle, n);
      var q2, thr2 := LeftQueues(s, q1), LeftThreads(s);
      if s.current != NULL && s.thr[s.current].state.Running? {
        PutBack(q1, s.thr, s.idle, n, s.current);
        NotZombie(s.thr, s.current, s.procs);
        WithProcs(s.thr, s.current, Ready, s.procs);
        WithTids(s.thr, s.current, Ready, s.nextTid);
      } else {
        StoppedNone(s.thr, s.current);
      }
      GiveCpu(q2, thr2, s.idle, n);
      NotZombie(thr2, n, s.procs);
      WithProcs(thr2, n, Running, s.procs);
      WithTids(thr2, n, Running, s.nextTid);
    }
  }

  lemma StoppedNone(thr: Threads, c: int)
    requires OnlyRunning(thr, c) && (c in thr ==> !thr[c].state.Running?)
    ensures NoneRunning(thr)
  {
  }

  lemma ReadyParts(s: Sys)
    requires SchedReady(s)
    ensures QueuesOk(s.queues, s.thr) && ReadyOk(s.queues, s.thr, s.idle) && IdleOk(s.thr, s.idle)
    ensures s.current != NULL ==> s.current in s.thr && !s.thr[s.current].state.Ready?
    ensures s.current == s.idle ==> s.thr[s.idle].state.Running?
    ensures OnlyRunning(s.thr, s.current)
    ensures ProcsOk(s.thr, s.procs) && TableOk(s.procs, s.table, s.made) && TidsOk(s.thr, s.nextTid)
    ensures NULL !in s.thr
  {
  }

  // ---- The other steps ------------------------------------------------------------------------

  lemma BlockReady(s: Sys, reason: State)
    requires SysOk(s) && s.current != NULL && s.current != s.idle && (reason.Blocked? || reason.Sleeping?)
    ensures s.current in s.thr && |s.queues| == NUM_PRIORITIES && SchedReady(Block(s, reason))
  {
    Parts(s);
    var c := s.current;
    NotZombie(s.thr, c, s.procs);
    WithProcs(s.thr, c, reason, s.procs);
    WithTids(s.thr, c, reason, s.nextTid);
    BlockQueues(s.queues, s.thr, c, s.idle, reason);
    hide QueuesOk, ReadyOk, ProcsOk, TableOk, TidsOk;
  }

  lemma BlockQueues(q: Queues, thr: Threads, c: int, idle: int, reason: State)
    requires QueuesOk(q, thr) && ReadyOk(q, thr, idle) && c in thr && thr[c].state.Running? && !reason.Ready?
    ensures var thr' := With(thr, c, reason); var q' := Pulled(q, thr', c);
            q' == q && QueuesOk(q', thr') && ReadyOk(q', thr', idle)
  {
    assert !Queued(q, thr, c);
    StateOk(q, thr, c, reason);
    WithoutAbsent(q[Level(thr[c])], c);
  }

  lemma WakeOk(s: Sys, t: int)
    requires SysOk(s) && t in s.thr
    ensures |s.queues| == NUM_PRIORITIES && SysOk(Wake(s, t))
  {
    Parts(s);
    if s.thr[t].state.Blocked? || s.thr[t].state.Sleeping? {
      assert !Queued(s.queues, s.thr, t);
      assert t != NULL;
      PushOk(s.queues, s.thr, t);
      NotZombie(s.thr, t, s.procs);
      WithProcs(s.thr, t, Ready, s.procs);
      WithTids(s.thr, t, Ready, s.nextTid);
      WakeReady(s.queues, s.thr, t, s.idle, s.current);
      hide QueuesOk, ReadyOk, ProcsOk, TableOk, TidsOk, RunOk;
    }
  }

  lemma WakeReady(q: Queues, thr: Threads, t: int, idle: int, current: int)
    requires QueuesOk(q, thr) && ReadyOk(q, thr, idle) && RunOk(thr, current)
    requires t in thr && t != NULL && !thr[t].state.Running? && !thr[t].state.Ready?
    ensures ReadyOk(Pushed(q, thr, t), With(thr, t, Ready), idle) && RunOk(With(thr, t, Ready), current)
  {
    PushOk(q, thr, t);
  }

  // ---- process_exit ---------------------------------------------------------------------------

  /** thr' is thr with exactly the threads ts DEAD. */
  ghost predicate Killed(thr: Threads, thr': Threads, ts: seq<int>)
  {
    ( && thr'.Keys == thr.Keys
      && (forall t :: t in thr ==> thr'[t] == if t in ts then thr[t].(state := Dead) else thr[t])) == true
  }

  lemma KillOne(q: Queues, thr: Threads, idle: int, t: int)
    requires QueuesOk(q, thr) && ReadyOk(q, thr, idle) && t in thr
    ensures var q' := Pulled(q, thr, t); var thr' := With(thr, t, Dead);
            QueuesOk(q', thr') && ReadyOk(q', thr', idle) && Killed(thr, thr', [t])
  {
    PullOk(q, thr, t);
    StateOk(Pulled(q, thr, t), thr, t, Dead);
  }

  lemma KilledCons(thr: Threads, thr1: Threads, thr2: Threads, ts: seq<int>)
    requires ts != [] && Killed(thr, thr1, [ts[0]]) && Killed(thr1, thr2, ts[1..])
    ensures Killed(thr, thr2, ts)
  {
    assert forall t :: t in ts <==> t == ts[0] || t in ts[1..];
    forall t | t in thr ensures thr2[t] == if t in ts then thr[t].(state := Dead) else thr[t] {
      assert t in thr1;
    }
  }

  lemma KilledDead(thr: Threads, t: int)
    requires t in thr && thr[t].state.Dead?
    ensures Killed(thr, thr, [t])
  {
  }

  lemma {:induction false} KillOk(s: Sys, ts: seq<int>)
    requires QueuesOk(s.queues, s.thr) && ReadyOk(s.queues, s.thr, s.idle) && Known(ts, s.thr)
    ensures |s.queues| == NUM_PRIORITIES
    ensures var r := Kill(s, ts);
            && r == s.(queues := r.queues, thr := r.thr)
            && QueuesOk(r.queues, r.thr) && ReadyOk(r.queues, r.thr, r.idle) && Killed(s.thr, r.thr, ts)
    decreases |ts|
  {
    QueuesLength(s.queues, s.thr);
    hide QueuesOk, ReadyOk, Killed;
    if ts == [] {
      assert Killed(s.thr, s.thr, ts) by { KilledNone(s.thr); }
    } else {
      var t := ts[0];
      var r := Kill(s, ts);
      if s.thr[t].state.Dead? {
        KilledDead(s.thr, t);
        KillOk(s, ts[1..]);
        KilledCons(s.thr, s.thr, r.thr, ts);
      } else {
        KillOne(s.queues, s.thr, s.idle, t);
        var s1 := Dequeue(s, t).(thr := With(s.thr, t, Dead));
        KillOk(s1, ts[1..]);
        KilledCons(s.thr, s1.thr, r.thr, ts);
      }
    }
  }

  lemma KilledNone(thr: Threads)
    ensures Killed(thr, thr, [])
  {
  }

  lemma QueuesLength(q: Queues, thr: Threads)
    requires QueuesOk(q, thr)
    ensures |q| == NUM_PRIORITIES
  {
  }

  lemma ThreadsKnown(thr: Threads, procs: map<int, Proc>, p: int)
    requires ProcsOk(thr, procs) && p in procs
    ensures Known(procs[p].threads, thr)
  {
    assert forall i :: 0 <= i < |procs[p].threads| ==> procs[p].threads[i] in procs[p].threads;
  }

  lemma KilledProcs(thr: Threads, thr': Threads, procs: map<int, Proc>, p: int, code: int)
    requires ProcsOk(thr, procs) && p in procs && Killed(thr, thr', procs[p].threads)
    ensures ProcsOk(thr', procs[p := procs[p].(code := code, zombie := true)])
  {
  }

  /** No thread of another process is touched. */
  lemma KilledOther(thr: Threads, thr': Threads, procs: map<int, Proc>, p: int, t: int)
    requires ProcsOk(thr, procs) && p in procs && Killed(thr, thr', procs[p].threads) && t in thr
    ensures t in thr' && (thr[t].proc != p ==> thr'[t] == thr[t]) && (thr[t].proc == p ==> thr'[t].state.Dead?)
  {
  }

  lemma KilledTids(thr: Threads, thr': Threads, ts: seq<int>, n: int, c: int)
    requires TidsOk(thr, n) && Killed(thr, thr', ts) && OnlyRunning(thr, c)
    ensures TidsOk(thr', n) && OnlyRunning(thr', c)
  {
  }

  lemma ExitedTable(procs: map<int, Proc>, table: seq<int>, made: int, p: int, v: Proc)
    requires TableOk(procs, table, made) && p in procs && v.pid == procs[p].pid
    ensures TableOk(procs[p := v], table, made)
  {
  }

  lemma OnlyCurrent(thr: Threads, c: int)
    requires RunOk(thr, c)
    ensures OnlyRunning(thr, c) && (c != NULL ==> c in thr && thr[c].state.Running?)
  {
  }

  /** process_exit leaves a state schedule() can work on, and one that is
      complete already when another process was ended. */
  lemma ExitReady(s: Sys, p: int, code: int)
    requires SysOk(s) && p in s.procs && p != 0
    ensures |s.queues| == NUM_PRIORITIES && Known(s.procs[p].threads, s.thr)
    ensures var r := Exit(s, p, code);
            && SchedReady(r) && r == s.(queues := r.queues, thr := r.thr, procs := r.procs)
            && (s.current == NULL || (s.current in s.thr && s.thr[s.current].proc != p) ==> SysOk(r))
  {
    Parts(s);
    hide SysOk, QueuesOk, ReadyOk, RunOk, ProcsOk, TableOk, TidsOk, Killed;
    QueuesLength(s.queues, s.thr);
    ThreadsKnown(s.thr, s.procs, p);
    var v := s.procs[p].(code := code, zombie := true);
    var s0 := s.(procs := s.procs[p := v]);
    KillOk(s0, s.procs[p].threads);
    var r := Exit(s, p, code);
    KilledProcs(s.thr, r.thr, s.procs, p, code);
    OnlyCurrent(s.thr, s.current);
    KilledTids(s.thr, r.thr, s.procs[p].threads, s.nextTid, s.current);
    ExitedTable(s.procs, s.table, s.made, p, v);
    KilledOther(s.thr, r.thr, s.procs, p, s.idle);
    if s.current != NULL { KilledOther(s.thr, r.thr, s.procs, p, s.current); }
    ReadyFrom(r);
    if s.current == NULL || s.thr[s.current].proc != p { OkFrom(r); }
  }

  /** SchedReady and SysOk from their parts. */
  lemma ReadyFrom(s: Sys)
    requires QueuesOk(s.queues, s.thr) && ReadyOk(s.queues, s.thr, s.idle) && IdleOk(s.thr, s.idle)
    requires s.current != NULL ==> s.current in s.thr && !s.thr[s.current].state.Ready?
    requires s.current == s.idle ==> s.thr[s.idle].state.Running?
    requires OnlyRunning(s.thr, s.current)
    requires ProcsOk(s.thr, s.procs) && TableOk(s.procs, s.table, s.made) && TidsOk(s.thr, s.nextTid)
    ensures SchedReady(s)
  {
  }

  lemma OkFrom(s: Sys)
    requires SchedReady(s) && (s.current != NULL ==> s.thr[s.current].state.Running?)
    ensures SysOk(s)
  {
  }

  // ---- Creating and destroying -----------------------------------------------------------------

  lemma CreateOk(s: Sys, ppid: int, m: Memory)
    requires SysOk(s)
    ensures SysOk(Create(s, ppid, m))
  {
    Parts(s);
    CreatedProcs(s.thr, s.procs, s.table, s.made, Proc(PidOf(s.made), ppid, false, 0, []));
    hide QueuesOk, ReadyOk, RunOk, ProcsOk, TableOk, TidsOk;
  }

  lemma CreatedProcs(thr: Threads, procs: map<int, Proc>, table: seq<int>, made: int, v: Proc)
    requires ProcsOk(thr, procs) && TableOk(procs, table, made) && v.threads == [] && v.pid == PidOf(made) && 0 in procs
    ensures TableOk(procs, table, made + 1)
    ensures made !in procs && ProcsOk(thr, procs[made := v]) && TableOk(procs[made := v], [made] + table, made + 1)
  {
    ConsNoDup(made, table);
    assert forall p :: p in [made] + table <==> p == made || p in table;
  }

  lemma SpawnOk(s: Sys, p: int, prio: nat, m: Memory)
    requires SysOk(s) && p in s.procs && !s.procs[p].zombie
    ensures |s.queues| == NUM_PRIORITIES && SysOk(Spawn(s, p, prio, m))
  {
    Parts(s);
    var t := s.nextTid;
    FreshTid(s.thr, t);
    var thr1 := s.thr[t := Thread(Ready, prio, p)];
    SpawnedQueues(s.queues, s.thr, s.idle, s.current, t, thr1[t]);
    SpawnedProcs(s.thr, s.procs, p, t, prio);
    ExitedTable(s.procs, s.table, s.made, p, s.procs[p].(threads := [t] + s.procs[p].threads));
    hide QueuesOk, ReadyOk, RunOk, ProcsOk, TableOk;
    assert With(thr1, t, Ready) == thr1;
  }

  lemma FreshTid(thr: Threads, t: int)
    requires TidsOk(thr, t)
    ensures t !in thr && t >= 0
  {
  }

  lemma SpawnedQueues(q: Queues, thr: Threads, idle: int, current: int, t: int, v: Thread)
    requires QueuesOk(q, thr) && ReadyOk(q, thr, idle) && RunOk(thr, current) && t !in thr && t >= 0 && v.state.Ready?
    ensures var thr1 := thr[t := v]; var q1 := Pushed(q, thr1, t);
            QueuesOk(q1, thr1) && ReadyOk(q1, thr1, idle) && RunOk(thr1, current)
  {
    var thr1 := thr[t := v];
    assert QueuesOk(q, thr1);
    assert !Queued(q, thr1, t);
    PushOk(q, thr1, t);
    assert With(thr1, t, Ready) == thr1;
  }

  lemma SpawnedProcs(thr: Threads, procs: map<int, Proc>, p: int, t: int, prio: nat)
    requires ProcsOk(thr, procs) && p in procs && !procs[p].zombie && t !in thr
    ensures ProcsOk(thr[t := Thread(Ready, prio, p)], procs[p := procs[p].(threads := [t] + procs[p].threads)])
  {
    var ts := procs[p].threads;
    assert t !in ts;
    ConsNoDup(t, ts);
    assert forall x :: x in [t] + ts <==> x == t || x in ts;
  }

  /** Destroying a zombie: none of its threads is queued or current, and nothing
      that stays refers to them. */
  lemma DestroyOk(s: Sys, p: int)
    requires SysOk(s) && p in s.procs && s.procs[p].zombie
    ensures p != 0 && SysOk(Destroy(s, p))
    ensures s.current != NULL ==> s.current in s.thr && s.thr[s.current].proc != p
    ensures forall t :: t in s.procs[p].threads ==> t != s.current && t != s.idle && t !in Destroy(s, p).thr
    ensures forall t, l :: t in s.procs[p].threads && 0 <= l < |s.queues| ==> t !in s.queues[l]
  {
    Parts(s);
    var r := Destroy(s, p);
    assert forall t :: t in s.procs[p].threads ==> s.thr[t].state.Dead?;
    DestroyedThreads(s.queues, s.thr, r.thr, s.idle, s.current, s.procs[p].threads);
    DestroyedProcs(s.thr, r.thr, s.procs, p);
    DestroyedTable(s.procs, s.table, s.made, p);
    assert TidsOk(r.thr, r.nextTid);
    DestroyGone(s, p);
    hide QueuesOk, ReadyOk, RunOk, ProcsOk, TableOk, TidsOk;
  }

  /** thr' is thr without the threads ts. */
  ghost predicate Removed(thr: Threads, thr': Threads, ts: seq<int>)
  {
    (forall t :: (t in thr' <==> t in thr && t !in ts) && (t in thr' ==> thr'[t] == thr[t])) == true
  }

  lemma DestroyedThreads(q: Queues, thr: Threads, thr': Threads, idle: int, current: int, ts: seq<int>)
    requires QueuesOk(q, thr) && ReadyOk(q, thr, idle) && RunOk(thr, current) && IdleOk(thr, idle)
    requires Removed(thr, thr', ts) && forall t :: t in ts ==> t in thr && thr[t].state.Dead?
    ensures QueuesOk(q, thr') && ReadyOk(q, thr', idle) && RunOk(thr', current) && IdleOk(thr', idle)
  {
  }

  lemma DestroyedProcs(thr: Threads, thr': Threads, procs: map<int, Proc>, p: int)
    requires ProcsOk(thr, procs) && p in procs && Removed(thr, thr', procs[p].threads)
    ensures ProcsOk(thr', procs - {p})
  {
    forall t | t in thr' ensures thr'[t].proc in procs - {p} && t in procs[thr'[t].proc].threads {
      assert t in procs[thr[t].proc].threads;
    }
    forall o, t | o in procs - {p} && t in procs[o].threads ensures t in thr' {
      assert thr[t].proc == o;
    }
  }

  lemma DestroyedTable(procs: map<int, Proc>, table: seq<int>, made: int, p: int)
    requires TableOk(procs, table, made) && p in procs
    ensures TableOk(procs - {p}, Without(table, p), made)
  {
    WithoutIs(table, p);
  }

  lemma DestroyGone(s: Sys, p: int)
    requires QueuesOk(s.queues, s.thr) && RunOk(s.thr, s.current) && IdleOk(s.thr, s.idle) && ProcsOk(s.thr, s.procs)
    requires TidsOk(s.thr, s.nextTid) && p in s.procs && s.procs[p].zombie
    ensures p != 0 && (s.current != NULL ==> s.current in s.thr && s.thr[s.current].proc != p)
    ensures forall t :: t in s.procs[p].threads ==> t != s.current && t != s.idle && t !in Destroy(s, p).thr
    ensures forall t, l :: t in s.procs[p].threads && 0 <= l < |s.queues| ==> t !in s.queues[l]
  {
    assert s.idle in s.procs[s.thr[s.idle].proc].threads;
    forall t | t in s.procs[p].threads
      ensures t != s.current && t != s.idle && t !in Destroy(s, p).thr
      ensures forall l :: 0 <= l < |s.queues| ==> t !in s.queues[l]
    {
      assert t in s.thr && s.thr[t].state.Dead?;
    }
  }

  /** process_waitpid. */
  lemma WaitOk(s: Sys, parent: int, target: int, status: int)
    requires SysOk(s)
    ensures var w := Wait(s, parent, target, status);
            && SysOk(w.sys)
            && (w.reaped != NULL ==>
                  && w.reaped in s.procs && s.procs[w.reaped].zombie && Child(s, w.reaped, parent, target)
                  && w.reaped !in w.sys.procs && w.pid == s.procs[w.reaped].pid && w.status == WaitStatus(s.procs[w.reaped].code))
            && (w.reaped == NULL ==>
                  && w.sys == s && w.status == status && (forall p :: Child(s, p, parent, target) ==> !s.procs[p].zombie)
                  && w.pid == if exists p :: Child(s, p, parent, target) then 0 else -1)
  {
    Parts(s);
    var k := FirstZombie(s, parent, target, 0);
    TableIs(s.procs, s.table, s.made);
    hide SysOk, QueuesOk, ReadyOk, RunOk, ProcsOk, TableOk, TidsOk;
    if k < |s.table| {
      DestroyOk(s, s.table[k]);
      assert s.table[k] in s.procs;
      assert Child(s, s.table[k], parent, target);
    } else {
      forall p | Child(s, p, parent, target) ensures !s.procs[p].zombie && HasChild(s, parent, target) {
        assert p in s.table;
        var j :| 0 <= j < |s.table| && s.table[j] == p;
      }
    }
  }

  lemma TableIs(procs: map<int, Proc>, table: seq<int>, made: int)
    requires TableOk(procs, table, made)
    ensures forall p :: p in table <==> p in procs
    ensures forall p :: p in procs ==> p >= 0
  {
  }
}
