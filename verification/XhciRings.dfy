/**
 The command ring of drivers/usb/xhci.c with the host controller as the other
 party (sections 4.9.3 and 6.4.4.1 of the xHCI 1.2 specification).  Ownership of
 a slot is told by its cycle bit alone.
 */
module XhciRings {
  import opened Options

  const RING: nat := 64
  /** Slots for commands; the last slot holds the Link TRB. */
  const CMDS: nat := 63
  const TYPE_LINK: nat := 6

  datatype Trb = Trb(parameter: nat, status: nat, control: nat)

  function Cycle(t: Trb): nat { t.control % 2 }

  function WithCycle(t: Trb, c: nat): (r: Trb)
    requires c < 2
    ensures Cycle(r) == c && r.control / 2 == t.control / 2
  {
    t.(control := t.control / 2 * 2 + c)
  }

  predicate IsLink(t: Trb) { t.control / 1024 % 64 == TYPE_LINK }

  predicate Toggles(t: Trb) { t.control / 2 % 2 == 1 }

  /** The Link TRB the driver writes. */
  function Link(base: nat, c: nat): Trb { Trb(base, 0, TYPE_LINK * 1024 + 2 + c) }

  const Empty := Trb(0, 0, 0)

  // ---- Slots and laps ------------------------------------------------------------------

  function Slot(k: nat): nat { k % CMDS }

  /** Cycle bit of command number k: 1 in the first lap, then alternating. */
  function Lap(k: nat): nat { if k / CMDS % 2 == 0 then 1 else 0 }

  // ---- The driver ----------------------------------------------------------------------

  datatype Driver = Driver(ring: seq<Trb>, base: nat, enq: nat, cycle: nat)

  /** xhci_command_ring_push. */
  function Push(d: Driver, t: Trb): Driver
    requires |d.ring| == RING && d.enq < CMDS && d.cycle < 2
  {
    var r := d.ring[d.enq := WithCycle(t, d.cycle)];
    if d.enq + 1 >= RING - 1 then Driver(r[RING - 1 := Link(d.base, d.cycle)], d.base, 0, 1 - d.cycle)
    else d.(ring := r, enq := d.enq + 1)
  }

  // ---- The controller ------------------------------------------------------------------

  /** Dequeue index and consumer cycle state. */
  datatype Controller = Controller(deq: nat, ccs: nat)

  datatype Fetched = Fetched(next: Controller, trb: Option<Trb>)

  /** The slot at an address of the ring, whose slots have 16 bytes; RING outside of it. */
  function SlotAt(base: nat, addr: nat): nat
  {
    if base <= addr < base + 16 * RING && (addr - base) % 16 == 0 then (addr - base) / 16 else RING
  }

  /** One look at the ring at base: a slot with the wrong cycle bit is not taken, a Link
      TRB leads to the address in it, anything else is a command. */
  function Fetch(r: seq<Trb>, base: nat, c: Controller): Fetched
    requires |r| == RING && c.deq < RING && c.ccs < 2
  {
    var t := r[c.deq];
    if Cycle(t) != c.ccs then Fetched(c, None)
    else if IsLink(t) then Fetched(Controller(SlotAt(base, t.parameter), if Toggles(t) then 1 - c.ccs else c.ccs), None)
    else Fetched(Controller(c.deq + 1, c.ccs), Some(t))
  }

  // ---- The invariant -------------------------------------------------------------------

  /** After the commands pushed, of which the controller has taken f: the last 63 are
      in their slots with the bit of their lap, slots not reached yet are empty,
      and the Link TRB has the bit of the last lap that was completed. */
  ghost predicate RingOk(d: Driver, pushed: seq<Trb>, f: nat)
  {
    ( && |d.ring| == RING && f <= |pushed| <= f + CMDS - 1
      && d.enq == Slot(|pushed|) && d.cycle == Lap(|pushed|)
      && (forall k :: 0 <= k < |pushed| && |pushed| <= k + CMDS ==> d.ring[Slot(k)] == WithCycle(pushed[k], Lap(k)))
      && (forall j :: |pushed| <= j < CMDS ==> d.ring[j] == Empty)
      && (forall k :: 0 <= k < |pushed| ==> !IsLink(pushed[k]))
      && (|pushed| >= CMDS ==> d.ring[CMDS] == Link(d.base, 1 - Lap(|pushed|)))) == true
  }

  /** The controller stands at the slot of command f, or at the Link TRB before it. */
  ghost predicate AtCommand(c: Controller, f: nat)
  {
    c == Controller(Slot(f), Lap(f)) || (f > 0 && Slot(f) == 0 && c == Controller(CMDS, 1 - Lap(f)))
  }

  lemma NextSlot(k: nat)
    ensures Slot(k) < CMDS && Lap(k) < 2
    ensures Slot(k) + 1 < CMDS ==> Slot(k + 1) == Slot(k) + 1 && Lap(k + 1) == Lap(k)
    ensures Slot(k) + 1 == CMDS ==> Slot(k + 1) == 0 && Lap(k + 1) == 1 - Lap(k)
  {
  }

  /** Commands less than a lap apart have different slots; a lap apart they share the
      slot with opposite bits. */
  lemma Apart(j: nat, k: nat)
    requires j < k <= j + CMDS
    ensures k < j + CMDS ==> Slot(j) != Slot(k)
    ensures k == j + CMDS ==> Slot(j) == Slot(k) && Lap(k) == 1 - Lap(j)
  {
  }

  lemma FirstLap(k: nat)
    requires k < CMDS
    ensures Slot(k) == k && Lap(k) == 1
  {
  }

  /** A push by a driver with at most 61 commands outstanding. */
  lemma PushOk(d: Driver, pushed: seq<Trb>, f: nat, t: Trb)
    requires RingOk(d, pushed, f) && |pushed| < f + 62 && !IsLink(t)
    ensures |d.ring| == RING && d.enq < CMDS && d.cycle < 2 && RingOk(Push(d, t), pushed + [t], f)
  {
    var n := |pushed|;
    NextSlot(n);
    var d' := Push(d, t);
    var p := pushed + [t];
    forall k | 0 <= k < |p| && |p| <= k + CMDS ensures d'.ring[Slot(k)] == WithCycle(p[k], Lap(k)) {
      NextSlot(k);
      if k < n { Apart(k, n); }
    }
    if n < CMDS { FirstLap(n); }
    forall j | n + 1 <= j < CMDS ensures d'.ring[j] == Empty {
    }
  }

  /** What the controller takes next is exactly the oldest command outstanding, and
      when there is one it takes it after at most the Link TRB. */
  lemma FetchOk(d: Driver, pushed: seq<Trb>, f: nat, c: Controller)
    requires RingOk(d, pushed, f) && AtCommand(c, f)
    ensures |d.ring| == RING && c.deq < RING && c.ccs < 2
    ensures var r := Fetch(d.ring, d.base, c);
            && (c.deq == CMDS ==> r == Fetched(Controller(Slot(f), Lap(f)), None))
            && (c.deq < CMDS && f < |pushed| ==>
                  r.trb == Some(WithCycle(pushed[f], Lap(f))) && AtCommand(r.next, f + 1) && RingOk(d, pushed, f + 1))
            && (c.deq < CMDS && f == |pushed| ==> r == Fetched(c, None))
  {
    NextSlot(f);
    if c.deq == CMDS {
      AtLink(d, pushed, f);
    } else if f < |pushed| {
      assert d.ring[Slot(f)] == WithCycle(pushed[f], Lap(f));
      LinkKept(pushed[f], Lap(f));
    } else {
      Stale(d, pushed, f);
    }
  }

  lemma LinkKept(t: Trb, c: nat)
    requires c < 2
    ensures IsLink(WithCycle(t, c)) == IsLink(t) && Toggles(WithCycle(t, c)) == Toggles(t)
  {
    assert WithCycle(t, c).control / 1024 == WithCycle(t, c).control / 2 / 512;
    assert t.control / 1024 == t.control / 2 / 512;
  }

  /** At the Link TRB: the driver is in the lap the controller is about to enter. */
  lemma AtLink(d: Driver, pushed: seq<Trb>, f: nat)
    requires RingOk(d, pushed, f) && f > 0 && Slot(f) == 0
    ensures d.ring[CMDS] == Link(d.base, 1 - Lap(f)) && Lap(f) < 2
    ensures IsLink(Link(d.base, 1 - Lap(f))) && Toggles(Link(d.base, 1 - Lap(f))) && Cycle(Link(d.base, 1 - Lap(f))) == 1 - Lap(f)
  {
    var q := f / CMDS;
    assert f == CMDS * q;
    assert |pushed| / CMDS == q;
  }

  /** With nothing outstanding the slot has the wrong bit. */
  lemma Stale(d: Driver, pushed: seq<Trb>, f: nat)
    requires RingOk(d, pushed, f) && f == |pushed|
    ensures Slot(f) < CMDS && Lap(f) < 2 && Cycle(d.ring[Slot(f)]) != Lap(f)
  {
    NextSlot(f);
    if f < CMDS {
      FirstLap(f);
    } else {
      Apart(f - CMDS, f);
      NextSlot(f - CMDS);
      assert d.ring[Slot(f - CMDS)] == WithCycle(pushed[f - CMDS], Lap(f - CMDS));
    }
  }

  // ---- Runs ----------------------------------------------------------------------------

  datatype Sys = Sys(d: Driver, c: Controller, pushed: seq<Trb>, fetched: seq<Trb>)

  datatype Op = PushOp(t: Trb) | Look

  ghost predicate SysOk(s: Sys)
  {
    ( && RingOk(s.d, s.pushed, |s.fetched|) && AtCommand(s.c, |s.fetched|)
      && (forall k :: 0 <= k < |s.fetched| ==> s.fetched[k] == WithCycle(s.pushed[k], Lap(k)))) == true
  }

  /** A step: the driver pushes only commands, and only with less than 62 of them
      outstanding; the controller may look at any time. */
  ghost function Do(s: Sys, op: Op): (r: Sys)
    requires SysOk(s)
    ensures SysOk(r)
  {
    match op
    case PushOp(t) =>
      if IsLink(t) || |s.pushed| - |s.fetched| >= 62 then s
      else
        PushOk(s.d, s.pushed, |s.fetched|, t);
        s.(d := Push(s.d, t), pushed := s.pushed + [t])
    case Look =>
      FetchOk(s.d, s.pushed, |s.fetched|, s.c);
      var f := Fetch(s.d.ring, s.d.base, s.c);
      s.(c := f.next, fetched := if f.trb.Some? then s.fetched + [f.trb.value] else s.fetched)
  }

  ghost function After(s: Sys, ops: seq<Op>): (r: Sys)
    requires SysOk(s)
    ensures SysOk(r)
    decreases |ops|
  {
    if ops == [] then s else After(Do(s, ops[0]), ops[1..])
  }

  /** xhci_alloc_rings: a zeroed ring, both sides at slot 0 with cycle 1. */
  function Boot(base: nat): Sys
  {
    Sys(Driver(seq(RING, _ => Empty), base, 0, 1), Controller(0, 1), [], [])
  }

  lemma BootOk(base: nat)
    ensures SysOk(Boot(base))
  {
    FirstLap(0);
  }

  /** In every interleaving the controller takes exactly the commands pushed, in
      order, each once, up to their cycle bit. */
  lemma RunInOrder(base: nat, ops: seq<Op>)
    ensures SysOk(Boot(base))
    ensures var s := After(Boot(base), ops);
            |s.fetched| <= |s.pushed| && forall k :: 0 <= k < |s.fetched| ==> SameCommand(s.fetched[k], s.pushed[k])
  {
    BootOk(base);
    var s := After(Boot(base), ops);
    forall k | 0 <= k < |s.fetched| ensures SameCommand(s.fetched[k], s.pushed[k]) {
      NextSlot(k);
      assert s.fetched[k] == WithCycle(s.pushed[k], Lap(k));
    }
  }

  predicate SameCommand(a: Trb, b: Trb) { a.parameter == b.parameter && a.status == b.status && a.control / 2 == b.control / 2 }

  /** An outstanding command is taken after at most two looks. */
  lemma TwoLooks(s: Sys)
    requires SysOk(s) && |s.fetched| < |s.pushed|
    ensures |Do(Do(s, Look), Look).fetched| > |s.fetched|
  {
    FetchOk(s.d, s.pushed, |s.fetched|, s.c);
    NextSlot(|s.fetched|);
    var s1 := Do(s, Look);
    FetchOk(s1.d, s1.pushed, |s1.fetched|, s1.c);
  }

  // ---- The bound of 62 is sharp -----------------------------------------------------------

  function PushAll(d: Driver, ts: seq<Trb>): (r: Driver)
    requires |d.ring| == RING && d.enq < CMDS && d.cycle < 2
    ensures |r.ring| == RING && r.enq < CMDS && r.cycle < 2
    decreases |ts|
  {
    if ts == [] then d else PushAll(Push(d, ts[0]), ts[1..])
  }

  /** Pushes that do not reach the end of the ring keep the Link TRB and what is behind
      the enqueue index. */
  lemma {:induction false} PushesBefore(d: Driver, ts: seq<Trb>)
    requires |d.ring| == RING && d.cycle < 2 && d.enq + |ts| < CMDS
    ensures var r := PushAll(d, ts);
            && r.enq == d.enq + |ts| && r.cycle == d.cycle && r.base == d.base && r.ring[CMDS] == d.ring[CMDS]
            && forall j :: 0 <= j < d.enq ==> r.ring[j] == d.ring[j]
    decreases |ts|
  {
    if ts != [] { PushesBefore(Push(d, ts[0]), ts[1..]); }
  }

  lemma {:induction false} PushAllLast(d: Driver, ts: seq<Trb>, t: Trb)
    requires |d.ring| == RING && d.enq < CMDS && d.cycle < 2
    ensures PushAll(d, ts + [t]) == Push(PushAll(d, ts), t)
    decreases |ts|
  {
    if ts == [] {
      assert PushAll(Push(d, t), [t][1..]) == Push(d, t);
      assert [] + [t] == [t];
    } else {
      assert (ts + [t])[1..] == ts[1..] + [t];
      PushAllLast(Push(d, ts[0]), ts[1..], t);
    }
  }

  /** A 63rd outstanding command: a controller that is not at the Link TRB takes the oldest
      command at its next look, and both rings are in step again with the new command
      in its place; one at the Link TRB takes nothing. */
  lemma TakesAt63(s: Sys, t: Trb)
    requires SysOk(s) && |s.pushed| == |s.fetched| + 62 && !IsLink(t)
    ensures |s.d.ring| == RING && s.d.enq < CMDS && s.d.cycle < 2 && s.c.deq < RING && s.c.ccs < 2
    ensures var d := Push(s.d, t); var r := Fetch(d.ring, d.base, s.c);
            && (r.trb.Some? <==> s.c.deq != CMDS)
            && (s.c.deq == CMDS ==> r == Fetched(s.c, None))
            && (s.c.deq != CMDS ==> SysOk(Sys(d, r.next, s.pushed + [t], s.fetched + [r.trb.value])))
  {
    hide RingOk, IsLink, Push, WithCycle;
    var f := |s.fetched|;
    NextSlot(f);
    FetchOk(s.d, s.pushed, f, s.c);
    if s.c.deq == CMDS {
      AtEnd(s, t);
      LinkHolds(s.d.base, s.c.ccs);
    } else {
      PushOk(s.d, s.pushed, f + 1, t);
      SlotKept(s.d, s.pushed, f, t);
      assert Fetch(Push(s.d, t).ring, s.d.base, s.c) == Fetch(s.d.ring, s.d.base, s.c);
    }
  }

  lemma LinkHolds(base: nat, c: nat)
    requires c < 2
    ensures Cycle(Link(base, 1 - c)) != c
  {
  }

  /** The push goes to another slot than the oldest command's. */
  lemma SlotKept(d: Driver, pushed: seq<Trb>, f: nat, t: Trb)
    requires RingOk(d, pushed, f) && |pushed| == f + 62
    ensures |d.ring| == RING && d.enq < CMDS && d.cycle < 2 && Slot(f) < CMDS && Push(d, t).ring[Slot(f)] == d.ring[Slot(f)]
  {
    NextSlot(f);
    NextSlot(|pushed|);
    Apart(f, f + CMDS - 1);
  }

  /** A 63rd outstanding command, pushed while the controller is at the Link TRB, gives
      the Link TRB the wrong bit: the controller takes nothing, whatever is pushed, until
      63 further pushes rewrite it.  Then it passes the Link TRB, with none of the 126
      commands taken, and again finds nothing. */
  lemma StallsAt63(s: Sys, t: Trb, ts: seq<Trb>)
    requires SysOk(s) && |s.pushed| == |s.fetched| + 62 && s.c.deq == CMDS && |ts| <= CMDS
    ensures |s.d.ring| == RING && s.d.enq < CMDS && s.d.cycle < 2 && s.c.ccs < 2
    ensures var r := PushAll(Push(s.d, t), ts).ring;
            if |ts| < CMDS then Fetch(r, s.d.base, s.c) == Fetched(s.c, None)
            else
              var next := Fetch(r, s.d.base, s.c).next;
              Fetch(r, s.d.base, s.c) == Fetched(Controller(0, 1 - s.c.ccs), None) && Fetch(r, s.d.base, next) == Fetched(next, None)
  {
    hide RingOk, PushAll;
    AtEnd(s, t);
    var d := Push(s.d, t);
    if |ts| < CMDS {
      PushesBefore(d, ts);
    } else {
      var last := CMDS - 1;
      var d1 := Push(d, ts[0]);
      assert ts == [ts[0]] + ts[1..last] + [ts[last]];
      PushAllFirst(d, [ts[0]] + ts[1..last]);
      assert ([ts[0]] + ts[1..last])[1..] == ts[1..last];
      PushAllLast(d, [ts[0]] + ts[1..last], ts[last]);
      PushesBefore(d1, ts[1..last]);
      assert d1.ring[0] == WithCycle(ts[0], d.cycle);
    }
  }

  lemma PushAllFirst(d: Driver, ts: seq<Trb>)
    requires |d.ring| == RING && d.enq < CMDS && d.cycle < 2 && ts != []
    ensures PushAll(d, ts) == PushAll(Push(d, ts[0]), ts[1..])
  {
  }

  /** The driver completes a lap and leaves the bit the controller does not wait for. */
  lemma AtEnd(s: Sys, t: Trb)
    requires SysOk(s) && |s.pushed| == |s.fetched| + 62 && s.c.deq == CMDS
    ensures |s.d.ring| == RING && s.d.enq < CMDS && s.d.cycle < 2 && s.c.ccs < 2
    ensures var d := Push(s.d, t);
            |d.ring| == RING && d.enq == 0 && d.cycle == s.c.ccs && d.ring[CMDS] == Link(s.d.base, 1 - s.c.ccs)
  {
    var f := |s.fetched|;
    NextSlot(f);
    var q := f / CMDS;
    assert f == CMDS * q && |s.pushed| / CMDS == q && Slot(|s.pushed|) == CMDS - 1;
  }

  function Pairs(t: Trb, n: nat): seq<Op> { if n == 0 then [] else [PushOp(t), Look] + Pairs(t, n - 1) }

  function Pushes(t: Trb, n: nat): seq<Op> { if n == 0 then [] else [PushOp(t)] + Pushes(t, n - 1) }

  lemma {:induction false} PairsRun(s: Sys, t: Trb, n: nat)
    requires SysOk(s) && !IsLink(t) && |s.pushed| == |s.fetched| && |s.fetched| + n <= CMDS && s.c == Controller(|s.fetched|, 1)
    ensures var r := After(s, Pairs(t, n));
            |r.pushed| == |r.fetched| == |s.fetched| + n && r.c == Controller(|r.fetched|, 1)
    decreases n
  {
    hide SysOk, Do, IsLink;
    if n > 0 {
      PairStep(s, t);
      var s1 := Do(s, PushOp(t));
      var s2 := Do(s1, Look);
      var rest := [Look] + Pairs(t, n - 1);
      assert Pairs(t, n)[1..] == rest && rest[1..] == Pairs(t, n - 1);
      assert After(s1, rest) == After(s2, Pairs(t, n - 1));
      PairsRun(s2, t, n - 1);
    }
  }

  lemma PushStep(s: Sys, t: Trb)
    requires SysOk(s) && !IsLink(t) && |s.pushed| + 1 < |s.fetched| + CMDS
    ensures Do(s, PushOp(t)) == s.(d := Do(s, PushOp(t)).d, pushed := s.pushed + [t])
  {
  }

  lemma PairStep(s: Sys, t: Trb)
    requires SysOk(s) && !IsLink(t) && |s.pushed| == |s.fetched| < CMDS && s.c == Controller(|s.fetched|, 1)
    ensures var r := Do(Do(s, PushOp(t)), Look);
            |r.pushed| == |r.fetched| == |s.fetched| + 1 && r.c == Controller(|r.fetched|, 1)
  {
    hide RingOk, Push;
    PushStep(s, t);
    var s1 := Do(s, PushOp(t));
    FetchOk(s1.d, s1.pushed, |s1.fetched|, s1.c);
  }

  lemma {:induction false} PushesRun(s: Sys, t: Trb, n: nat)
    requires SysOk(s) && !IsLink(t) && |s.pushed| + n < |s.fetched| + CMDS
    ensures var r := After(s, Pushes(t, n)); r.fetched == s.fetched && r.c == s.c && |r.pushed| == |s.pushed| + n
    decreases n
  {
    hide SysOk, Do, IsLink;
    if n > 0 {
      PushStep(s, t);
      assert Pushes(t, n)[1..] == Pushes(t, n - 1);
      PushesRun(Do(s, PushOp(t)), t, n - 1);
    }
  }

  /** A run from boot reaches the state of StallsAt63: 63 commands each taken at once,
      then 62 that are not. */
  lemma StallReached(base: nat, t: Trb)
    requires !IsLink(t)
    ensures SysOk(Boot(base))
    ensures var s := After(After(Boot(base), Pairs(t, CMDS)), Pushes(t, CMDS - 1));
            SysOk(s) && |s.pushed| == |s.fetched| + 62 && s.c.deq == CMDS
  {
    hide SysOk, Do;
    BootOk(base);
    PairsRun(Boot(base), t, CMDS);
    PushesRun(After(Boot(base), Pairs(t, CMDS)), t, CMDS - 1);
  }
}
