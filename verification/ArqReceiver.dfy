/**
 The receiving half of a connection (connection/arq.rs receiver section; the SHUTDOWN branch of
 `on_connected_packet` and `poll_event` in connection.rs). Every method follows its model function.
 */
module ArqReceiver {
  import opened Options
  import opened SeqNumbers
  import opened Timestamps
  import opened Packets
  import opened RecvBuffers
  import opened SendBuffers
  import opened Reassembly
  import opened ArqModel

  const MAX_REORDER_TOLERANCE: nat := 32
  const REORDER_DECAY_AFTER: nat := 50

  /** The loss report owed for a view: the gaps at least `tolerance` packets below the highest held packet. */
  ghost predicate IsAgedLoss(v: RecvView, tolerance: nat, spans: seq<Span>) {
    && (v.held == map[] ==> spans == [])
    && forall h :: IsHighest(v, h) ==> IsLossList(v, h - tolerance, spans)
  }

  /** The loss report sent on an arrival: the aged losses, when there are any and they changed. */
  ghost function NewLoss(spans: seq<Span>, reported: seq<LossRange>): seq<Msg> {
    if spans != [] && WireRanges(spans) != reported then [Nak(spans)] else []
  }

  class Receiver {
    const latency: nat
    const flowWindow: nat
    const buffer: RecvBuffer
    const wrap: TsbpdWrap
    const reassembler: Reassembler
    var connected: bool
    var anchor: Option<(Timestamp, Instant)>
    var events: seq<Event>
    var dropped: nat
    var sinceAck: nat
    var lastAcked: Option<(SeqNumber, nat)>
    var reportedLoss: seq<LossRange>
    var lastNak: Option<Instant>
    var tolerance: nat
    var highest: Option<SeqNumber>
    var streak: nat
    var outputs: seq<Datagram>
    ghost var model: ReceiverModel

    ghost predicate Valid()
      reads this, buffer, wrap, reassembler
    {
      && Coupled()
      && tolerance <= MAX_REORDER_TOLERANCE
    }

    /** The fields are the model's, with indices reduced to the wire. */
    ghost predicate Coupled()
      reads this, buffer, wrap, reassembler
    {
      && buffer.Valid() && wrap.Valid()
      && buffer.view == model.view && wrap.newest == model.newest
      && reassembler.State() == Feed(EMPTY, model.delivered).0
      && latency == model.latency && flowWindow == model.flowWindow
      && connected == model.connected && anchor == model.anchor
      && events == model.events && dropped == model.dropped
      && sinceAck == model.sinceAck && lastAcked == model.lastAcked
      && outputs == AllOnWire(model.emitted)
    }

    constructor (initial: SeqNumber, latency: nat, flowWindow: nat, events: seq<Event>)
      ensures Valid() && fresh(buffer) && fresh(wrap) && fresh(reassembler)
      ensures model == ReceiverStart(initial, latency, flowWindow, events)
    {
      this.latency, this.flowWindow := latency, flowWindow;
      buffer := new RecvBuffer(initial, initial);
      wrap := new TsbpdWrap(0);
      reassembler := new Reassembler();
      connected, anchor, this.events, dropped := true, None, events, 0;
      sinceAck, lastAcked, outputs := 0, None, [];
      reportedLoss, lastNak, tolerance, highest, streak := [], None, 0, None, 0;
      model := ReceiverStart(initial, latency, flowWindow, events);
    }

    /** Queues a datagram. */
    method Emit(d: Datagram, ghost msg: Msg)
      requires Coupled() && d == OnWire(msg)
      modifies this`outputs, this`model
      ensures Coupled() && model == ArqModel.Emit(old(model), [msg])
    {
      AllOnWireSnoc(model.emitted, msg);
      outputs := outputs + [d];
      model := ArqModel.Emit(model, [msg]);
    }

    function AvailableRecvBuffer(): (n: nat)
      requires Coupled()
      reads this, buffer, wrap, reassembler
      ensures n == Available(model)
    {
      SatSub(flowWindow, buffer.Occupancy() + |events|)
    }

    /** Delivers the earliest held packet through the reassembler, counting the gap it skips as dropped. */
    method DeliverFirst()
      requires Coupled() && model.view.held != map[]
      modifies this`events, this`dropped, this`model, buffer, reassembler
      ensures Coupled() && model == DeliverCounted(old(model), FirstHeld(old(model).view))
    {
      DeliverAt(FirstHeld(model.view));
    }

    method DeliverAt(ghost i: int)
      requires Coupled() && IsFirst(model.view, i)
      modifies this`events, this`dropped, this`model, buffer, reassembler
      ensures Coupled() && model == DeliverCounted(old(model), i)
    {
      var packet := PopFirst(i);
      PushPacket(packet, i);
    }

    /** Takes the earliest packet out of the buffer and counts what was skipped. */
    method PopFirst(ghost i: int) returns (packet: DataPacket)
      requires Coupled() && IsFirst(model.view, i)
      modifies this`dropped, this`model, buffer
      ensures Coupled() && packet == old(model).view.held[i]
      ensures model == old(model).(view := Popped(old(model).view, i),
                                   dropped := old(model).dropped + Counted(old(model).view.base, i + 1, 1))
    {
      var skipped;
      packet, skipped := TakeFirst(i);
      dropped := dropped + skipped;
      model := model.(view := buffer.view, dropped := dropped);
    }

    method TakeFirst(ghost i: int) returns (packet: DataPacket, skipped: nat)
      requires buffer.Valid() && IsFirst(buffer.view, i)
      modifies buffer
      ensures buffer.Valid() && buffer.view == Popped(old(buffer.view), i)
      ensures packet == old(buffer.view).held[i]
      ensures skipped == Counted(old(buffer.view).base, i + 1, 1)
    {
      var before := buffer.AckPoint();
      var r := buffer.Pop();
      FirstUnique(old(buffer.view), i, buffer.view.base - 1);
      packet := r.value;
      skipped := CountAdvance(before, buffer.AckPoint(), 1);
    }

    /** Hands a packet to the reassembler and queues the message it completes, if any. */
    method PushPacket(packet: DataPacket, ghost i: int)
      requires Coupled()
      modifies this`events, this`model, reassembler
      ensures Coupled()
      ensures model == old(model).(events := AfterPush(old(model).events, old(model).delivered, packet),
                                   delivered := old(model).delivered + [Delivery(i, packet)])
    {
      FeedSnoc(model.delivered, Delivery(i, packet));
      var message := reassembler.Push(packet);
      if message.Some? {
        events := events + [DataReceived(message.value)];
      }
      model := model.(events := events, delivered := model.delivered + [Delivery(i, packet)]);
    }

    /** Delivers every packet whose play time has come, dropping too-late gaps. */
    method DeliverTsbpd(now: Instant, drift: int)
      requires Coupled()
      modifies this`events, this`dropped, this`model, buffer, reassembler
      ensures Coupled() && model == DeliverDue(old(model), now, drift)
    {
      ghost var goal := DeliverDue(model, now, drift);
      var due := NextIsDue(now, drift);
      while due
        invariant Coupled() && DeliverDue(model, now, drift) == goal
        invariant due == HeadDue(model, now, drift)
        decreases |model.view.held|
      {
        PoppedSmaller(model.view, FirstHeld(model.view));
        DeliverFirst();
        due := NextIsDue(now, drift);
      }
    }

    /** Whether the earliest held packet has reached its play time. */
    method NextIsDue(now: Instant, drift: int) returns (due: bool)
      requires Coupled()
      ensures due == HeadDue(model, now, drift)
    {
      var next := buffer.Peek();
      if next.None? || anchor.None? {
        return false;
      }
      ghost var i :| IsFirst(buffer.view, i) && next.value == (Wire(i), buffer.view.held[i].timestamp);
      FirstUnique(model.view, i, FirstHeld(model.view));
      var offset := wrap.OffsetOf(next.value.1) - anchor.value.0 + drift;
      var playTime := ApplySigned(anchor.value.1, offset) + latency;
      due := playTime <= now;
    }

    /** Buffers a data packet, drives delivery, acknowledges every 64th packet and reports newly aged loss. */
    method InsertData(packet: DataPacket, now: Instant, drift: int)
      returns (accepted: bool, ghost naks: seq<Msg>, ghost spans: seq<Span>)
      requires Valid()
      modifies this, buffer, wrap, reassembler
      ensures Valid() && model == OnData(old(model), packet, now, drift, naks)
      ensures accepted == Accepts(old(model), packet)
      ensures accepted ==> IsAgedLoss(model.view, tolerance, spans)
      ensures naks == if accepted then NewLoss(spans, old(reportedLoss)) else []
    {
      accepted, naks, spans := false, [], [];
      accepted := StorePacket(packet, now);
      if !accepted {
        return;
      }
      TrackReorder(packet.number, packet.retransmitted);
      naks, spans := AfterStore(now, drift);
    }

    /** What follows a stored packet: delivery, the light ACK and the loss report. */
    method AfterStore(now: Instant, drift: int) returns (ghost naks: seq<Msg>, ghost spans: seq<Span>)
      requires Valid()
      modifies this`events, this`dropped, this`sinceAck, this`reportedLoss, this`lastNak, this`outputs, this`model
      modifies buffer, reassembler
      ensures Valid() && model == ArqModel.Emit(LightAck(DeliverDue(old(model), now, drift)), naks)
      ensures IsAgedLoss(model.view, tolerance, spans)
      ensures naks == NewLoss(spans, old(reportedLoss))
    {
      DeliverTsbpd(now, drift);
      CountForAck();
      naks, spans := ReportLoss(now);
    }

    /** Stores a packet if there is room and it is neither passed nor held, and moves the timestamp tracker. */
    method StorePacket(packet: DataPacket, now: Instant) returns (stored: bool)
      requires Coupled()
      modifies this`anchor, this`model, buffer, wrap
      ensures Coupled() && stored == Accepts(old(model), packet)
      ensures model == if stored then Store(old(model), packet, now) else old(model)
    {
      var avail := AvailableRecvBuffer();
      if avail == 0 {
        return false;
      }
      stored := buffer.Insert(packet);
      if stored {
        Anchor(packet, now);
      }
    }

    method Anchor(packet: DataPacket, now: Instant)
      requires wrap.Valid() && wrap.newest == model.newest && anchor == model.anchor
      modifies this`anchor, this`model, wrap
      ensures wrap.Valid() && model == Store(old(model), packet, now)
      ensures wrap.newest == model.newest && anchor == model.anchor
    {
      ghost var after := Store(model, packet, now);
      if anchor.None? {
        anchor := Some((packet.timestamp, now));
        wrap.Anchor(packet.timestamp);
      } else {
        wrap.Observe(packet.timestamp);
      }
      model := after;
    }

    /** Counts a stored packet and sends the light ACK every 64th. */
    method CountForAck()
      requires Coupled()
      modifies this`sinceAck, this`outputs, this`model
      ensures Coupled() && model == LightAck(old(model))
    {
      ghost var was := model;
      sinceAck := sinceAck + 1;
      model := model.(sinceAck := sinceAck);
      if sinceAck >= LIGHT_ACK_EVERY {
        sinceAck := 0;
        model := model.(sinceAck := 0);
        var point := AckNumber();
        Emit(AckPkt(point, false), Ack(AckPointOf(was.view), false));
      }
    }

    /** The acknowledgement point on the wire. */
    method AckNumber() returns (point: SeqNumber)
      requires Coupled()
      ensures point == Wire(AckPointOf(model.view))
    {
      point := buffer.ReceivedAckPoint();
      ghost var a :| IsAckPoint(buffer.view, a) && point == Wire(a);
      AckPointUnique(model.view, a, AckPointOf(model.view));
    }

    /** Reports aged loss unless the same list was reported last. */
    method ReportLoss(now: Instant) returns (ghost naks: seq<Msg>, ghost spans: seq<Span>)
      requires Valid()
      modifies this`reportedLoss, this`lastNak, this`outputs, this`model
      ensures Valid() && model == ArqModel.Emit(old(model), naks)
      ensures IsAgedLoss(model.view, tolerance, spans)
      ensures naks == NewLoss(spans, old(reportedLoss))
    {
      naks := [];
      var missing;
      missing, spans := buffer.MissingAged(tolerance);
      NoGapsNoLoss(buffer.view, tolerance, spans);
      EmitNothing(model);
      if buffer.HasGaps() {
        if missing != [] && missing != reportedLoss {
          naks := [Nak(spans)];
          Emit(NakPkt(missing), Nak(spans));
          lastNak := Some(now);
          reportedLoss := missing;
        }
      } else if reportedLoss != [] {
        reportedLoss := [];
      }
    }

    /** Adapts the reorder tolerance to how far behind originals arrive; it never exceeds 32. */
    method TrackReorder(number: SeqNumber, retransmitted: bool)
      requires tolerance <= MAX_REORDER_TOLERANCE
      modifies this`tolerance, this`highest, this`streak
      ensures tolerance <= MAX_REORDER_TOLERANCE
      ensures retransmitted || old(highest).None? ==> tolerance == old(tolerance)
      ensures !retransmitted ==> highest.Some? && (highest.value == number || OffsetFrom(number, highest.value) < 0)
      ensures !retransmitted && old(highest).Some? && OffsetFrom(number, old(highest).value) < 0 ==>
                tolerance >= old(tolerance) && (tolerance >= -OffsetFrom(number, old(highest).value) || tolerance == MAX_REORDER_TOLERANCE)
                && streak == 0 && tolerance <= Max(old(tolerance), -OffsetFrom(number, old(highest).value))
      ensures !retransmitted && old(highest).Some? && OffsetFrom(number, old(highest).value) >= 0 ==>
                if old(streak) + 1 >= REORDER_DECAY_AFTER
                then streak == 0 && old(tolerance) - 1 <= tolerance <= old(tolerance) && (old(tolerance) > 0 ==> tolerance < old(tolerance))
                else streak == old(streak) + 1 && tolerance == old(tolerance)
    {
      if retransmitted {
        return;
      }
      if highest.None? {
        highest := Some(number);
        return;
      }
      var offset := OffsetFrom(number, highest.value);
      if offset >= 0 {
        highest := Some(number);
        streak := streak + 1;
        if streak >= REORDER_DECAY_AFTER {
          streak := 0;
          tolerance := if tolerance == 0 then 0 else tolerance - 1;
        }
      } else {
        var displacement := if -offset < MAX_REORDER_TOLERANCE then -offset else MAX_REORDER_TOLERANCE;
        tolerance := if tolerance < displacement then displacement else tolerance;
        streak := 0;
      }
    }

    method OnDropReq(first: SeqNumber, last: SeqNumber, now: Instant, drift: int)
      requires Valid()
      modifies this, buffer, wrap, reassembler
      ensures Valid() && model == ArqModel.OnDropReq(old(model), first, last, now, drift)
    {
      DropRange(first, last);
      ghost var spans;
      reportedLoss, spans := buffer.MissingRanges();
      DeliverTsbpd(now, drift);
    }

    method DropRange(first: SeqNumber, last: SeqNumber)
      requires Coupled()
      modifies this`dropped, this`model, buffer
      ensures Coupled() && model == GiveUp(old(model), first, last)
    {
      ghost var after := GiveUp(model, first, last);
      var before := buffer.AckPoint();
      buffer.DropRange(first, last);
      dropped := dropped + CountAdvance(before, buffer.AckPoint(), 0);
      model := after;
    }

    method OnAckTimer()
      requires Valid()
      modifies this
      ensures Valid() && model == ArqModel.OnAckTimer(old(model))
    {
      if !connected {
        return;
      }
      var point := AckNumber();
      var avail := AvailableRecvBuffer();
      if lastAcked == Some((point, avail)) {
        return;
      }
      lastAcked := Some((point, avail));
      sinceAck := 0;
      model := model.(lastAcked := lastAcked, sinceAck := 0);
      Emit(AckPkt(point, true), Ack(AckPointOf(model.view), true));
    }

    /** The periodic loss report, after a retransmission timeout of NAK silence. */
    method OnNakTimer(now: Instant, rto: nat) returns (ghost naks: seq<Msg>, ghost spans: seq<Span>)
      requires Valid()
      modifies this
      ensures Valid() && model == ArqModel.Emit(old(model), naks)
      ensures IsAgedLoss(model.view, tolerance, spans)
      ensures naks == if connected && spans != [] && (old(lastNak).None? || SatSub(now, old(lastNak).value) >= rto)
                      then [Nak(spans)] else []
    {
      naks := [];
      EmitNothing(model);
      var missing;
      missing, spans := buffer.MissingAged(tolerance);
      if !connected || (lastNak.Some? && SatSub(now, lastNak.value) < rto) {
        return;
      }
      if missing != [] {
        naks := [Nak(spans)];
        Emit(NakPkt(missing), Nak(spans));
        lastNak := Some(now);
      }
    }

    /** The peer closed: flush what is contiguous, stop at the first hole, then report Closed. */
    method OnShutdown()
      requires Valid() && connected
      modifies this, buffer, wrap, reassembler
      ensures Valid() && model == ArqModel.OnShutdown(old(model))
    {
      FlushInOrder();
      connected := false;
      events := events + [Closed];
      model := model.(connected := false, events := events);
    }

    method FlushInOrder()
      requires Coupled()
      modifies this`events, this`model, buffer, reassembler
      ensures Coupled() && model == Flush(old(model))
    {
      ghost var goal := Flush(model);
      var more := true;
      while more
        invariant Coupled() && Flush(model) == goal
        invariant !more ==> model.view.base !in model.view.held
        decreases more, |model.view.held|
      {
        ghost var was := model;
        more := DeliverInOrder();
        if more {
          PoppedSmaller(was.view, was.view.base);
        }
      }
    }

    /** Delivers the packet at the base, if it is held. */
    method DeliverInOrder() returns (more: bool)
      requires Coupled()
      modifies this`events, this`model, buffer, reassembler
      ensures Coupled() && more == (old(model).view.base in old(model).view.held)
      ensures model == if more then DeliverOne(old(model), old(model).view.base) else old(model)
    {
      var packet := PopNext();
      more := packet.Some?;
      if more {
        PushPacket(packet.value, old(model).view.base);
      }
    }

    /** Takes the packet at the base out of the buffer, if it is there. */
    method PopNext() returns (packet: Option<DataPacket>)
      requires Coupled()
      modifies this`model, buffer
      ensures Coupled() && packet.Some? == (old(model).view.base in old(model).view.held)
      ensures if packet.Some?
              then packet.value == old(model).view.held[old(model).view.base]
                && model == old(model).(view := Popped(old(model).view, old(model).view.base))
              else model == old(model)
    {
      packet := buffer.PopInOrder();
      model := model.(view := buffer.view);
    }

    method PollEvent() returns (e: Option<Event>)
      requires Valid()
      modifies this
      ensures Valid()
      ensures model == PollOne(old(model))
      ensures e == if old(events) == [] then None else Some(old(events)[0])
    {
      if events == [] {
        return None;
      }
      e := Some(events[0]);
      model := PollOne(model);
      events := events[1..];
    }
  }

  lemma FeedSnoc(ds: seq<Delivery>, d: Delivery)
    ensures Feed(EMPTY, ds + [d]).0 == Pushed(Feed(EMPTY, ds).0, d.packet).0
  {
    assert (ds + [d])[..|ds + [d]| - 1] == ds;
  }

  lemma EmitNothing(m: ReceiverModel)
    ensures ArqModel.Emit(m, []) == m
  {
    assert m.emitted + [] == m.emitted;
  }

  /** Without gaps there is no loss to report at any tolerance. */
  lemma NoGapsNoLoss(v: RecvView, tolerance: nat, spans: seq<Span>)
    requires IsAgedLoss(v, tolerance, spans)
    ensures (forall i :: !Missing(v, i)) ==> spans == []
  {
    if spans != [] && v.held != map[] {
      HighestExists(v);
      var h :| IsHighest(v, h);
      assert Covers(spans, spans[0].lo);
      assert Missing(v, spans[0].lo);
    }
  }

  lemma HighestExists(v: RecvView)
    requires v.held != map[]
    ensures exists h :: IsHighest(v, h)
  {
    KeyExists(v.held);
    var x :| x in v.held;
    var negated := set i | i in v.held :: -i;
    LeastExists(negated, -x);
    var i :| IsLeast(negated, i);
    assert forall j :: j in v.held ==> -j in negated;
    assert IsHighest(v, -i);
  }
}
