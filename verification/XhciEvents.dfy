/**
 The event ring of drivers/usb/xhci.c: the host controller writes events, the driver
 polls them (section 4.9.4 of the xHCI 1.2 specification).  The dequeue pointer
 register tells the controller which events are done with.
 */
module XhciEvents {
  import opened XhciRings

  function EventSlot(k: nat): nat { k % RING }

  function EventLap(k: nat): nat { if k / RING % 2 == 0 then 1 else 0 }

  /** The events produced, of which the driver has consumed d: those of the last lap
      are in their slots with its bit, the rest of a first lap is empty. */
  ghost predicate EventsOk(r: seq<Trb>, produced: seq<Trb>, d: nat)
  {
    ( && |r| == RING && d <= |produced| <= d + RING
      && (forall k :: 0 <= k < |produced| && |produced| <= k + RING ==> r[EventSlot(k)] == WithCycle(produced[k], EventLap(k)))
      && (forall j :: |produced| <= j < RING ==> r[j] == Empty)) == true
  }

  lemma NextEventSlot(k: nat)
    ensures EventSlot(k) < RING && EventLap(k) < 2
    ensures EventSlot(k) + 1 < RING ==> EventSlot(k + 1) == EventSlot(k) + 1 && EventLap(k + 1) == EventLap(k)
    ensures EventSlot(k) + 1 == RING ==> EventSlot(k + 1) == 0 && EventLap(k + 1) == 1 - EventLap(k)
  {
  }

  lemma EventsApart(j: nat, k: nat)
    requires j < k <= j + RING
    ensures k < j + RING ==> EventSlot(j) != EventSlot(k)
    ensures k == j + RING ==> EventSlot(j) == EventSlot(k) && EventLap(k) == 1 - EventLap(j)
  {
  }

  lemma FirstEventLap(k: nat)
    requires k < RING
    ensures EventSlot(k) == k && EventLap(k) == 1
  {
  }

  /** The controller adds an event while the ring is not full. */
  lemma ProduceOk(r: seq<Trb>, produced: seq<Trb>, d: nat, t: Trb)
    requires EventsOk(r, produced, d) && |produced| < d + RING
    ensures EventSlot(|produced|) < |r| && EventLap(|produced|) < 2
    ensures EventsOk(r[EventSlot(|produced|) := WithCycle(t, EventLap(|produced|))], produced + [t], d)
  {
    var n := |produced|;
    NextEventSlot(n);
    var r' := r[EventSlot(n) := WithCycle(t, EventLap(n))];
    var p := produced + [t];
    forall k | 0 <= k < |p| && |p| <= k + RING ensures r'[EventSlot(k)] == WithCycle(p[k], EventLap(k)) {
      NextEventSlot(k);
      if k < n { EventsApart(k, n); }
    }
    if n < RING { FirstEventLap(n); }
  }

  /** The driver sees its cycle bit exactly when an event is waiting, and the slot
      then holds the oldest one. */
  lemma WaitingEvent(r: seq<Trb>, produced: seq<Trb>, d: nat)
    requires EventsOk(r, produced, d)
    ensures |r| == RING && EventSlot(d) < RING && EventLap(d) < 2 && d <= |produced|
    ensures Cycle(r[EventSlot(d)]) == EventLap(d) <==> d < |produced|
    ensures d < |produced| ==> r[EventSlot(d)] == WithCycle(produced[d], EventLap(d)) && EventsOk(r, produced, d + 1)
  {
    NextEventSlot(d);
    if d < |produced| {
      assert r[EventSlot(d)] == WithCycle(produced[d], EventLap(d));
    } else if d < RING {
      FirstEventLap(d);
    } else {
      EventsApart(d - RING, d);
      NextEventSlot(d - RING);
      assert r[EventSlot(d - RING)] == WithCycle(produced[d - RING], EventLap(d - RING));
    }
  }

  // ---- Runs ----------------------------------------------------------------------------

  /** ring: shared memory; enq, pcs: the controller's index and cycle state; erdp: slot in
      the dequeue pointer register; deq, ccs: the driver's.  produced, consumed: the events
      so far; acked: how many had been consumed when the register was written. */
  datatype Events = Events(ring: seq<Trb>, enq: nat, pcs: nat, erdp: nat, deq: nat, ccs: nat,
                           produced: seq<Trb>, consumed: seq<Trb>, acked: nat)

  datatype EventOp = Write(t: Trb) | Poll | Ack

  ghost predicate EventSysOk(s: Events)
  {
    ( && EventsOk(s.ring, s.produced, |s.consumed|)
      && s.enq == EventSlot(|s.produced|) && s.pcs == EventLap(|s.produced|)
      && s.deq == EventSlot(|s.consumed|) && s.ccs == EventLap(|s.consumed|)
      && s.erdp == EventSlot(s.acked) && s.acked <= |s.consumed| && |s.produced| < s.acked + RING
      && (forall k :: 0 <= k < |s.consumed| ==> s.consumed[k] == WithCycle(s.produced[k], EventLap(k)))) == true
  }

  function NextIx(i: nat): nat { if i + 1 >= RING then 0 else i + 1 }

  function NextBit(i: nat, c: nat): nat
    requires c < 2
  {
    if i + 1 >= RING then 1 - c else c
  }

  lemma NextEvent(k: nat)
    ensures EventSlot(k) < RING && EventLap(k) < 2
    ensures EventSlot(k + 1) == NextIx(EventSlot(k)) && EventLap(k + 1) == NextBit(EventSlot(k), EventLap(k))
  {
    NextEventSlot(k);
  }

  /** The controller stops in front of the slot in the register. */
  predicate Full(s: Events) { NextIx(s.enq) == s.erdp }

  /** The ring is full exactly with 63 events not acknowledged. */
  lemma FullIs(s: Events)
    requires EventSysOk(s)
    ensures Full(s) <==> |s.produced| == s.acked + 63
    ensures |s.ring| == RING && s.enq < RING && s.pcs < 2 && s.deq < RING && s.ccs < 2
  {
    NextEvent(|s.produced|);
    NextEvent(|s.consumed|);
    if |s.produced| + 1 < s.acked + RING {
      EventsApart(s.acked, |s.produced| + 1);
    } else {
      EventsApart(s.acked, s.acked + RING);
    }
  }

  /** A step: the controller writes an event unless the ring is full; the driver takes the
      event at its index if its cycle bit matches; the driver writes the register. */
  ghost function Do(s: Events, op: EventOp): (r: Events)
    requires EventSysOk(s)
    ensures EventSysOk(r)
  {
    FullIs(s);
    match op
    case Write(t) =>
      if Full(s) then s
      else
        var r := s.(ring := s.ring[s.enq := WithCycle(t, s.pcs)], enq := NextIx(s.enq), pcs := NextBit(s.enq, s.pcs),
                    produced := s.produced + [t]);
        WriteOk(s, t, r);
        r
    case Poll =>
      if Cycle(s.ring[s.deq]) != s.ccs then s
      else
        var r := s.(deq := NextIx(s.deq), ccs := NextBit(s.deq, s.ccs), consumed := s.consumed + [s.ring[s.deq]]);
        PollOk(s, r);
        r
    case Ack => s.(erdp := s.deq, acked := |s.consumed|)
  }

  lemma WriteOk(s: Events, t: Trb, r: Events)
    requires EventSysOk(s) && !Full(s) && s.enq < |s.ring| && s.pcs < 2
    requires r == s.(ring := s.ring[s.enq := WithCycle(t, s.pcs)], enq := NextIx(s.enq), pcs := NextBit(s.enq, s.pcs),
                     produced := s.produced + [t])
    ensures EventSysOk(r)
  {
    hide EventsOk;
    FullIs(s);
    NextEvent(|s.produced|);
    EventCount(s);
    ProduceOk(s.ring, s.produced, |s.consumed|, t);
  }

  lemma EventCount(s: Events)
    requires EventSysOk(s)
    ensures |s.consumed| <= |s.produced|
  {
  }

  lemma PollOk(s: Events, r: Events)
    requires EventSysOk(s) && s.deq < |s.ring| && s.ccs < 2 && Cycle(s.ring[s.deq]) == s.ccs
    requires r == s.(deq := NextIx(s.deq), ccs := NextBit(s.deq, s.ccs), consumed := s.consumed + [s.ring[s.deq]])
    ensures EventSysOk(r) && |s.consumed| < |s.produced|
  {
    hide EventsOk;
    WaitingEvent(s.ring, s.produced, |s.consumed|);
    NextEvent(|s.consumed|);
  }

  ghost function After(s: Events, ops: seq<EventOp>): (r: Events)
    requires EventSysOk(s)
    ensures EventSysOk(r)
    decreases |ops|
  {
    if ops == [] then s else After(Do(s, ops[0]), ops[1..])
  }

  lemma {:induction false} AfterAppend(s: Events, a: seq<EventOp>, b: seq<EventOp>)
    requires EventSysOk(s)
    ensures After(s, a + b) == After(After(s, a), b)
    decreases |a|
  {
    hide EventSysOk, Do;
    if a == [] {
      assert a + b == b;
    } else {
      assert (a + b)[1..] == a[1..] + b;
      AfterAppend(Do(s, a[0]), a[1..], b);
    }
  }

  lemma AfterLast(s: Events, a: seq<EventOp>, op: EventOp)
    requires EventSysOk(s)
    ensures After(s, a + [op]) == Do(After(s, a), op)
  {
    hide EventSysOk, Do;
    AfterAppend(s, a, [op]);
    assert After(Do(After(s, a), op), [op][1..]) == Do(After(s, a), op);
  }

  /** A zeroed ring with both sides at slot 0 and cycle 1, and the register written. */
  function Boot(): Events
  {
    Events(seq(RING, _ => Empty), 0, 1, 0, 0, 1, [], [], 0)
  }

  lemma BootOk()
    ensures EventSysOk(Boot())
  {
    FirstEventLap(0);
  }

  /** In every interleaving of controller and driver the events consumed are the first
      ones produced, in order, each once. */
  lemma EventsInOrder(ops: seq<EventOp>)
    ensures EventSysOk(Boot())
    ensures var s := After(Boot(), ops);
            |s.consumed| <= |s.produced| && forall k :: 0 <= k < |s.consumed| ==> SameCommand(s.consumed[k], s.produced[k])
  {
    BootOk();
    var s := After(Boot(), ops);
    EventCount(s);
    forall k | 0 <= k < |s.consumed| ensures SameCommand(s.consumed[k], s.produced[k]) {
      NextEventSlot(k);
      assert s.consumed[k] == WithCycle(s.produced[k], EventLap(k));
    }
  }

  /** A poll takes an event exactly when one is waiting, and no step of the controller
      takes it back. */
  lemma PollTakes(s: Events)
    requires EventSysOk(s)
    ensures var r := Do(s, Poll);
            && (|s.consumed| < |s.produced| ==> |r.consumed| == |s.consumed| + 1 && SameCommand(r.consumed[|s.consumed|], s.produced[|s.consumed|]))
            && (|s.consumed| == |s.produced| ==> r == s)
  {
    hide EventsOk;
    FullIs(s);
    WaitingEvent(s.ring, s.produced, |s.consumed|);
  }

  /** Once everything is consumed and the register written, the controller can write. */
  lemma AckMakesRoom(s: Events, t: Trb)
    requires EventSysOk(s) && |s.consumed| == |s.produced|
    ensures Do(Do(s, Ack), Write(t)).produced == s.produced + [t]
  {
    FullIs(Do(s, Ack));
  }
}
