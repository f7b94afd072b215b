/**
 drivers/usb/xhci.c: the driver's side of the command and event rings, kept in
 DMA memory that the controller shares; the controller's side as the other party.
 */
module Xhci {
  import opened Options
  import opened XhciRings
  import E = XhciEvents

  function TypeOf(t: Trb): nat { t.control / 1024 % 64 }

  /** The completion event of the command at address phys. */
  predicate Completes(t: Trb, phys: nat) { TypeOf(t) == 33 && t.parameter == phys }

  function Writes(ts: seq<Trb>): seq<E.EventOp> { seq(|ts|, i requires 0 <= i < |ts| => E.Write(ts[i])) }

  class HostController {
    const cmdRing: array<Trb>
    const eventRing: array<Trb>
    var base: nat
    var enq: nat
    var cycle: nat
    var evtBase: nat
    var evtDeq: nat
    var evtCycle: nat
    /** Event ring dequeue pointer register. */
    var erdp: nat
    /** Command ring pointer register. */
    const crcr: nat
    /** The controller's own indices and cycle states in the two rings. */
    var hwDeq: nat
    var hwCcs: nat
    var hwEnq: nat
    var hwPcs: nat
    /** Commands pushed and taken; events written and consumed; the slot in the register
        and how many events it acknowledges. */
    ghost var pushed: seq<Trb>
    ghost var fetched: seq<Trb>
    ghost var produced: seq<Trb>
    ghost var consumed: seq<Trb>
    ghost var ackSlot: nat
    ghost var acked: nat

    ghost function CommandView(): Sys
      reads this`base, this`enq, this`cycle, this`hwDeq, this`hwCcs, this`pushed, this`fetched, cmdRing
    {
      Sys(Driver(cmdRing[..], base, enq, cycle), Controller(hwDeq, hwCcs), pushed, fetched)
    }

    ghost function EventView(): E.Events
      reads this`hwEnq, this`hwPcs, this`evtDeq, this`evtCycle, this`produced, this`consumed, this`ackSlot, this`acked, eventRing
    {
      E.Events(eventRing[..], hwEnq, hwPcs, ackSlot, evtDeq, evtCycle, produced, consumed, acked)
    }

    ghost predicate Commands()
      reads this`base, this`enq, this`cycle, this`hwDeq, this`hwCcs, this`pushed, this`fetched, cmdRing
    {
      cmdRing.Length == RING && cmdRing != eventRing && crcr == base && SysOk(CommandView())
    }

    ghost predicate Events()
      reads this`hwEnq, this`hwPcs, this`evtDeq, this`evtCycle, this`produced, this`consumed, this`ackSlot, this`acked, eventRing
      reads this`erdp, this`evtBase
    {
      eventRing.Length == RING && E.EventSysOk(EventView()) && erdp == evtBase + 16 * ackSlot
    }

    /** xhci_alloc_rings on a zeroed page at phys, and the registers as xhci_init writes them. */
    constructor (phys: nat)
      ensures Commands() && Events() && CommandView() == Boot(phys) && EventView() == E.Boot()
      ensures evtBase == phys + 1024 && fresh(cmdRing) && fresh(eventRing)
    {
      cmdRing := new Trb[RING](_ => Empty);
      eventRing := new Trb[RING](_ => Empty);
      crcr := phys;
      base, enq, cycle := phys, 0, 1;
      evtBase, evtDeq, evtCycle, erdp := phys + 1024, 0, 1, phys + 1024;
      hwDeq, hwCcs, hwEnq, hwPcs := 0, 1, 0, 1;
      pushed, fetched, produced, consumed, ackSlot, acked := [], [], [], [], 0, 0;
      new;
      BootOk(phys);
      E.BootOk();
      assert CommandView() == Boot(phys) && EventView() == E.Boot();
    }

    /** xhci_command_ring_push of a command, with at most 61 outstanding. */
    method PushCommand(t: Trb)
      requires Commands() && |pushed| < |fetched| + 62 && !IsLink(t)
      modifies cmdRing, this`enq, this`cycle, this`pushed
      ensures Commands() && pushed == old(pushed) + [t] && CommandView() == Do(old(CommandView()), PushOp(t))
    {
      hide RingOk, IsLink, AtCommand;
      ghost var s := CommandView();
      PushOk(s.d, pushed, |fetched|, t);
      cmdRing[enq] := WithCycle(t, cycle);
      assert cmdRing[..] == s.d.ring[enq := WithCycle(t, cycle)];
      enq := enq + 1;
      if enq >= RING - 1 {
        ghost var r := cmdRing[..];
        cmdRing[RING - 1] := Link(base, cycle);
        assert cmdRing[..] == r[RING - 1 := Link(base, cycle)];
        enq := 0;
        cycle := 1 - cycle;
      }
      assert Driver(cmdRing[..], base, enq, cycle) == Push(s.d, t);
      pushed := pushed + [t];
      assert CommandView() == Do(s, PushOp(t));
    }

    /** The controller looks at the command ring. */
    method ControllerFetch() returns (cmd: Option<Trb>)
      requires Commands()
      modifies this`hwDeq, this`hwCcs, this`fetched
      ensures Commands() && CommandView() == Do(old(CommandView()), Look)
      ensures fetched == if cmd.Some? then old(fetched) + [cmd.value] else old(fetched)
    {
      hide RingOk, IsLink, AtCommand;
      ghost var s := CommandView();
      FetchOk(s.d, s.pushed, |s.fetched|, s.c);
      var t := cmdRing[hwDeq];
      if Cycle(t) != hwCcs {
        cmd := None;
      } else if IsLink(t) {
        cmd := None;
        hwDeq, hwCcs := SlotAt(crcr, t.parameter), if Toggles(t) then 1 - hwCcs else hwCcs;
      } else {
        cmd := Some(t);
        hwDeq := hwDeq + 1;
        fetched := fetched + [t];
      }
      assert CommandView() == Do(s, Look);
    }

    /** The controller writes an event unless the ring is full. */
    method ControllerWrite(t: Trb) returns (written: bool)
      requires Events()
      modifies eventRing, this`hwEnq, this`hwPcs, this`produced
      ensures Events() && EventView() == E.Do(old(EventView()), E.Write(t))
      ensures produced == if written then old(produced) + [t] else old(produced)
      ensures !written <==> |old(produced)| == acked + 63
    {
      hide E.EventSysOk;
      ghost var s := EventView();
      E.FullIs(s);
      var next := if hwEnq + 1 >= RING then 0 else hwEnq + 1;
      written := evtBase + 16 * next != erdp;
      if written {
        eventRing[hwEnq] := WithCycle(t, hwPcs);
        assert eventRing[..] == s.ring[hwEnq := WithCycle(t, hwPcs)];
        if next == 0 {
          hwPcs := 1 - hwPcs;
        }
        hwEnq := next;
        produced := produced + [t];
      }
      assert EventView() == E.Do(s, E.Write(t));
    }

    /** The controller tries to write the events ts. */
    method Arrive(ts: seq<Trb>)
      requires Events()
      modifies eventRing, this`hwEnq, this`hwPcs, this`produced
      ensures Events() && EventView() == E.After(old(EventView()), Writes(ts))
      ensures old(produced) <= produced
    {
      hide E.EventSysOk, E.Do;
      for i := 0 to |ts|
        invariant Events() && EventView() == E.After(old(EventView()), Writes(ts[..i])) && old(produced) <= produced
      {
        var _ := ControllerWrite(ts[i]);
        assert Writes(ts[..i + 1]) == Writes(ts[..i]) + [E.Write(ts[i])];
        E.AfterLast(old(EventView()), Writes(ts[..i]), E.Write(ts[i]));
      }
      assert ts[..|ts|] == ts;
    }

    /** The same as a continuation of the run ops from s. */
    method ArriveAfter(ts: seq<Trb>, ghost s: E.Events, ghost ops: seq<E.EventOp>) returns (ghost ops': seq<E.EventOp>)
      requires Events() && E.EventSysOk(s) && EventView() == E.After(s, ops)
      modifies eventRing, this`hwEnq, this`hwPcs, this`produced
      ensures Events() && EventView() == E.After(s, ops')
      ensures |old(produced)| <= |produced| && forall k :: 0 <= k < |old(produced)| ==> produced[k] == old(produced)[k]
    {
      hide E.EventSysOk, E.Do, E.After, Writes;
      Arrive(ts);
      E.AfterAppend(s, ops, Writes(ts));
      ops' := ops + Writes(ts);
    }

    /** Moving past the event at the dequeue index. */
    method Advance()
      requires Events() && |consumed| < |produced|
      modifies this`evtDeq, this`evtCycle, this`consumed
      ensures Events() && EventView() == E.Do(old(EventView()), E.Poll) && |consumed| == |old(consumed)| + 1
      ensures consumed == old(consumed) + [WithCycle(produced[|old(consumed)|], E.EventLap(|old(consumed)|))]
    {
      hide E.EventsOk;
      ghost var s := EventView();
      E.FullIs(s);
      E.WaitingEvent(s.ring, s.produced, |s.consumed|);
      consumed := consumed + [eventRing[evtDeq]];
      evtDeq := evtDeq + 1;
      if evtDeq >= RING {
        evtDeq := 0;
        evtCycle := 1 - evtCycle;
      }
      assert EventView() == E.Do(s, E.Poll);
    }

    /** Writing the dequeue pointer register. */
    method Acknowledge()
      requires Events()
      modifies this`erdp, this`ackSlot, this`acked
      ensures Events() && EventView() == E.Do(old(EventView()), E.Ack) && acked == |consumed|
    {
      hide E.EventsOk;
      erdp := evtBase + 16 * evtDeq;
      ackSlot, acked := evtDeq, |consumed|;
      assert EventView() == E.Do(old(EventView()), E.Ack);
    }

    /** One round of xhci_wait_command with an event waiting: it is consumed and
        acknowledged. */
    method TakeEvent(ghost s: E.Events, ghost ops: seq<E.EventOp>) returns (evt: Trb, ghost ops': seq<E.EventOp>)
      requires Events() && E.EventSysOk(s) && EventView() == E.After(s, ops) && |consumed| < |produced|
      modifies this`evtDeq, this`evtCycle, this`consumed, this`erdp, this`ackSlot, this`acked
      ensures Events() && EventView() == E.After(s, ops') && |consumed| == |old(consumed)| + 1
      ensures var e := produced[|old(consumed)|];
              && TypeOf(evt) == TypeOf(e) && evt.parameter == e.parameter && evt.status == e.status
              && evt.control / 0x100_0000 == e.control / 0x100_0000
    {
      hide E.EventSysOk, E.Do, E.After, E.EventLap, TypeOf, WithCycle;
      Waiting();
      evt := eventRing[evtDeq];
      FieldsKept(produced[|consumed|], E.EventLap(|consumed|));
      Advance();
      E.AfterLast(s, ops, E.Poll);
      Acknowledge();
      E.AfterLast(s, ops + [E.Poll], E.Ack);
      ops' := ops + [E.Poll] + [E.Ack];
    }

    /** The event at the dequeue index has the driver's cycle bit exactly when it waits. */
    lemma Waiting()
      requires Events()
      ensures evtDeq < RING == eventRing.Length && E.EventLap(|consumed|) < 2 && |consumed| <= |produced|
      ensures Cycle(eventRing[evtDeq]) == evtCycle <==> |consumed| < |produced|
      ensures |consumed| < |produced| ==> eventRing[evtDeq] == WithCycle(produced[|consumed|], E.EventLap(|consumed|))
    {
      E.FullIs(EventView());
      E.WaitingEvent(eventRing[..], produced, |consumed|);
    }

    /** xhci_process_events, while the controller tries to write the events arrivals[i]
        before look i: a run of the event machine that ends with no event waiting and the
        register behind the last one. */
    method ProcessEvents(arrivals: seq<seq<Trb>>) returns (seen: seq<Trb>, ghost ops: seq<E.EventOp>)
      requires Events()
      modifies eventRing, this`hwEnq, this`hwPcs, this`produced
      modifies this`evtDeq, this`evtCycle, this`consumed, this`erdp, this`ackSlot, this`acked
      ensures Events() && EventView() == E.After(old(EventView()), ops)
      ensures old(produced) <= produced && |consumed| == |produced| && consumed == old(consumed) + seen
      ensures |seen| > 0 ==> acked == |consumed|
    {
      hide E.EventSysOk, E.Do, E.EventLap, Cycle, WithCycle;
      seen, ops := [], [];
      ghost var s := EventView();
      var i := 0;
      while true
        invariant Events() && EventView() == E.After(s, ops)
        invariant old(produced) <= produced && consumed == old(consumed) + seen && acked == old(acked) && ackSlot == old(ackSlot)
        decreases if i < |arrivals| then |arrivals| - i else 0, |produced| - |consumed|
      {
        Waiting();
        if i < |arrivals| {
          ops := ArriveAfter(arrivals[i], s, ops);
          i := i + 1;
        }
        Waiting();
        if Cycle(eventRing[evtDeq]) != evtCycle {
          break;
        }
        seen := seen + [eventRing[evtDeq]];
        Advance();
        Waiting();
        E.AfterLast(s, ops, E.Poll);
        ops := ops + [E.Poll];
      }
      if |seen| > 0 {
        Acknowledge();
        E.AfterLast(s, ops, E.Ack);
        ops := ops + [E.Ack];
      }
    }

    /** xhci_wait_command with time for |arrivals| looks at the ring, while the controller
        tries to write the events arrivals[i] before look i.  It consumes events in order
        up to the completion of the command at phys; without one it has looked at every
        event there was at the call, or used all its looks on events. */
    method WaitCommand(phys: nat, arrivals: seq<seq<Trb>>) returns (ok: bool, cc: nat, slot: nat, ghost ops: seq<E.EventOp>)
      requires Events()
      modifies eventRing, this`hwEnq, this`hwPcs, this`produced
      modifies this`evtDeq, this`evtCycle, this`consumed, this`erdp, this`ackSlot, this`acked
      ensures Events() && EventView() == E.After(old(EventView()), ops)
      ensures old(produced) <= produced && |old(consumed)| <= |consumed| <= |produced|
      ensures ok ==> |consumed| > |old(consumed)| && Completes(produced[|consumed| - 1], phys)
                     && cc == produced[|consumed| - 1].status / 0x100_0000 % 256
                     && slot == produced[|consumed| - 1].control / 0x100_0000 % 256
      ensures !ok ==> |consumed| >= |old(produced)| || |consumed| == |old(consumed)| + |arrivals|
      ensures forall i :: |old(consumed)| <= i < (if ok then |consumed| - 1 else |consumed|) ==> !Completes(produced[i], phys)
    {
      hide E.EventSysOk, E.Do, E.EventLap, TypeOf, Cycle, WithCycle;
      ops := [];
      ghost var s := EventView();
      Waiting();
      for i := 0 to |arrivals|
        invariant Events() && EventView() == E.After(s, ops) && old(produced) <= produced
        invariant |old(consumed)| <= |consumed| <= |produced|
        invariant |consumed| >= |old(produced)| || |consumed| == |old(consumed)| + i
        invariant forall k :: |old(consumed)| <= k < |consumed| ==> !Completes(produced[k], phys)
      {
        ops := ArriveAfter(arrivals[i], s, ops);
        Waiting();
        if Cycle(eventRing[evtDeq]) == evtCycle {
          var evt;
          evt, ops := TakeEvent(s, ops);
          if TypeOf(evt) == 33 && evt.parameter == phys {
            return true, evt.status / 0x100_0000 % 256, evt.control / 0x100_0000 % 256, ops;
          }
        }
      }
      return false, 0, 0, ops;
    }
  }

  /** The cycle bit is outside the type and slot fields. */
  lemma FieldsKept(t: Trb, c: nat)
    requires c < 2
    ensures var r := WithCycle(t, c);
            TypeOf(r) == TypeOf(t) && r.parameter == t.parameter && r.status == t.status
            && r.control / 0x100_0000 == t.control / 0x100_0000
  {
    var r := WithCycle(t, c);
    assert r.control / 1024 == r.control / 2 / 512 && t.control / 1024 == t.control / 2 / 512;
    assert r.control / 0x100_0000 == r.control / 2 / 0x80_0000 && t.control / 0x100_0000 == t.control / 2 / 0x80_0000;
  }
}
