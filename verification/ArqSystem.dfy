/**
 The two ends of one direction of a connection over a network that may lose, duplicate, delay and reorder
 datagrams: any datagram ever emitted may be delivered at any later time, any number of times, or never. The one
 assumption is that a delivered datagram's numbers are within half the number space of the handler's reference.
 */
module ArqSystem {
  import opened Options
  import opened SeqNumbers
  import opened Packets
  import opened RecvBuffers
  import opened SendBuffers
  import opened Reassembly
  import opened ArqModel
  import opened SR = SenderRuns
  import opened RR = ReceiverRuns

  datatype System = System(snd: SenderModel, rcv: ReceiverModel)

  datatype Action = AtSender(s: SenderInput) | AtReceiver(r: ReceiverInput)

  ghost predicate AckOnNetwork(s: System, ack: SeqNumber, full: bool, a: int) {
    Ack(a, full) in s.rcv.emitted && ack == Wire(a) && Front(s.snd) - HALF < a
  }

  ghost predicate DataOnNetwork(s: System, packet: DataPacket, i: int) {
    Data(i, packet) in s.snd.emitted && s.rcv.view.base - HALF <= i < s.rcv.view.base + HALF
  }

  ghost predicate DropReqOnNetwork(s: System, first: SeqNumber, last: SeqNumber, span: Span) {
    && DropReq(span) in s.snd.emitted && first == Wire(span.lo) && last == Wire(span.hi)
    && s.rcv.view.base - HALF <= span.lo <= span.hi < s.rcv.view.base + HALF
  }

  /** The datagram an input brings, if any, was emitted by the other end. Loss reports may be arbitrary. */
  ghost predicate OnNetwork(s: System, a: Action) {
    match a
    case AtSender(AckIn(ack, full, _, _)) => exists i :: AckOnNetwork(s, ack, full, i)
    case AtReceiver(DataIn(packet, _, _, _)) => exists i :: DataOnNetwork(s, packet, i)
    case AtReceiver(DropReqIn(first, last, _, _)) => exists span :: DropReqOnNetwork(s, first, last, span)
    case AtReceiver(ShutdownIn) => Shutdown in s.snd.emitted
    case _ => true
  }

  ghost predicate Enabled(s: System, a: Action) {
    && OnNetwork(s, a)
    && (a.AtSender? ==> SenderAllowed(s.snd, a.s))
    && (a.AtReceiver? ==> ReceiverAllowed(s.rcv, a.r))
  }

  ghost function Next(s: System, a: Action): System {
    match a
    case AtSender(x) => s.(snd := SenderStep(s.snd, x))
    case AtReceiver(x) => s.(rcv := ReceiverStep(s.rcv, x))
  }

  ghost predicate Starts(s: System) {
    exists cfg, isn, period, latency, flowWindow, events ::
      MessagesIn(events) == [] && s == System(SenderStart(cfg, isn, period), ReceiverStart(isn, latency, flowWindow, events))
  }

  ghost function Run(s: System, actions: seq<Action>): System {
    if actions == [] then s else Next(Run(s, actions[..|actions| - 1]), actions[|actions| - 1])
  }

  ghost predicate RunEnabled(s: System, actions: seq<Action>) {
    actions != [] ==>
      RunEnabled(s, actions[..|actions| - 1]) && Enabled(Run(s, actions[..|actions| - 1]), actions[|actions| - 1])
  }

  // ---- The invariant across both ends ----

  /** Everything the receiver holds or handed on is a packet the sender originated at that index. */
  ghost predicate Sourced(snd: SenderModel, rcv: ReceiverModel) {
    && rcv.view.base <= snd.next
    && (forall i :: i in rcv.view.held ==> Genuine(snd, i, rcv.view.held[i]))
    && (forall k :: 0 <= k < |rcv.delivered| ==> Genuine(snd, rcv.delivered[k].i, rcv.delivered[k].packet))
  }

  /** Whatever the sender released as acknowledged, the receiver holds or has passed. */
  ghost predicate Released(snd: SenderModel, rcv: ReceiverModel) {
    forall i :: FateOf(snd, i) == Some(Acked) ==> Covered(rcv.view, i)
  }

  ghost predicate SystemInv(s: System) {
    && SenderInv(s.snd) && ReceiverInv(s.rcv) && s.snd.isn == s.rcv.isn
    && Sourced(s.snd, s.rcv) && Released(s.snd, s.rcv)
  }

  // ---- Sender steps ----

  /** A sender step only ever adds to its histories. */
  ghost predicate Extends(m: SenderModel, r: SenderModel) {
    r.isn == m.isn && m.log <= r.log && m.fates <= r.fates
  }

  /** Indices newly released as acknowledged lie below `a`. */
  ghost predicate AcksBelow(m: SenderModel, r: SenderModel, a: int) {
    forall i :: FateOf(r, i) == Some(Acked) ==> FateOf(m, i) == Some(Acked) || i < a
  }

  ghost predicate NoNewAcks(m: SenderModel, r: SenderModel) {
    forall i :: FateOf(r, i) == Some(Acked) ==> FateOf(m, i) == Some(Acked)
  }

  lemma ShedExtends(m: SenderModel, now: Instant)
    ensures Extends(m, ShedLate(m, now)) && NoNewAcks(m, ShedLate(m, now))
  {
  }

  lemma AckExtends(m: SenderModel, ack: SeqNumber)
    requires Books(m)
    ensures Extends(m, AckTo(m, ack)) && AcksBelow(m, AckTo(m, ack), ResolveBack(Front(m), ack))
  {
  }

  lemma {:induction false} ResendExtends(m: SenderModel, range: LossRange, now: Instant, gate: nat, n: nat)
    requires n <= |m.window|
    ensures
      var r := ResendUpTo(m, range, now, gate, n);
      r.isn == m.isn && r.log == m.log && r.fates == m.fates
  {
    if n > 0 {
      ResendExtends(m, range, now, gate, n - 1);
    }
  }

  lemma {:induction false} ResendRangesExtends(m: SenderModel, ranges: seq<LossRange>, now: Instant, gate: nat)
    ensures
      var r := ResendRanges(m, ranges, now, gate);
      r.isn == m.isn && r.log == m.log && r.fates == m.fates
  {
    if ranges != [] {
      ResendRangesExtends(m, ranges[..|ranges| - 1], now, gate);
      var r := ResendRanges(m, ranges[..|ranges| - 1], now, gate);
      ResendExtends(r, ranges[|ranges| - 1], now, gate, |r.window|);
    }
  }

  lemma {:induction false} PaceLoopExtends(m: SenderModel, now: Instant, period: nat, released: nat)
    requires released <= MAX_PACE_BURST
    ensures
      var r := PaceLoop(m, now, period, released).0;
      r.isn == m.isn && m.log <= r.log && r.fates == m.fates
    decreases MAX_PACE_BURST - released
  {
    if released == MAX_PACE_BURST || (m.nextSend.Some? && now < m.nextSend.value) {
    } else if m.queue != [] {
      PaceLoopExtends(PaceOne(m, now, period), now, period, released + 1);
    }
  }

  lemma PaceExtends(m: SenderModel, now: Instant)
    ensures Pace(m, now).isn == m.isn && m.log <= Pace(m, now).log && Pace(m, now).fates == m.fates
  {
    if m.period.Some? {
      PaceLoopExtends(m, now, m.period.value, 0);
    }
  }

  lemma {:induction false} OriginateAllExtends(m: SenderModel, fs: seq<Fragment>, now: Instant)
    ensures
      var r := OriginateAll(m, fs, now);
      r.isn == m.isn && m.log <= r.log && r.fates == m.fates
  {
    if fs != [] {
      OriginateAllExtends(m, fs[..|fs| - 1], now);
    }
  }

  lemma SubmitExtends(m: SenderModel, fragments: seq<Fragment>, now: Instant)
    ensures
      var r := Submit(m, fragments, now);
      r.isn == m.isn && m.log <= r.log && r.fates == m.fates
  {
    var accepted := m.(messages := m.messages + [fragments]);
    OriginateAllExtends(accepted, fragments, now);
    PaceExtends(accepted.(queue := m.queue + fragments), now);
  }

  lemma OnExpExtends(m: SenderModel, now: Instant, gate: nat)
    ensures Extends(m, OnExp(m, now, gate)) && NoNewAcks(m, OnExp(m, now, gate))
  {
    ShedExtends(m, now);
    var shed := ShedLate(m, now);
    ResendExtends(shed, LossRange(Wire(Front(shed)), Wire(shed.next - 1)), now, gate, |shed.window|);
  }

  lemma OnAckExtends(m: SenderModel, ack: SeqNumber, full: bool, now: Instant, recomputed: nat)
    requires Books(m)
    ensures
      var r := OnAck(m, ack, full, now, recomputed);
      Extends(m, r) && AcksBelow(m, r, ResolveBack(Front(m), ack))
  {
    AckExtends(m, ack);
    ShedExtends(AckTo(m, ack), now);
    var r, shed := OnAck(m, ack, full, now, recomputed), ShedLate(AckTo(m, ack), now);
    assert r.isn == shed.isn && r.log == shed.log && r.fates == shed.fates;
  }

  lemma OnNakExtends(m: SenderModel, loss: seq<LossRange>, now: Instant, gate: nat)
    ensures Extends(m, OnNak(m, loss, now, gate)) && NoNewAcks(m, OnNak(m, loss, now, gate))
  {
    ShedExtends(m, now);
    ResendRangesExtends(ShedLate(m, now), loss, now, gate);
    SameFates(ShedLate(m, now), OnNak(m, loss, now, gate));
  }

  lemma SameFates(m: SenderModel, r: SenderModel)
    requires r.isn == m.isn && m.log <= r.log && r.fates == m.fates
    ensures Extends(m, r) && NoNewAcks(m, r)
    ensures forall i :: FateOf(r, i) == FateOf(m, i)
  {
  }

  lemma SenderExtends(m: SenderModel, x: SenderInput)
    requires Books(m)
    ensures Extends(m, SenderStep(m, x))
    ensures !x.AckIn? ==> NoNewAcks(m, SenderStep(m, x))
    ensures x.AckIn? ==> AcksBelow(m, SenderStep(m, x), ResolveBack(Front(m), x.ack))
  {
    var r := SenderStep(m, x);
    match x
    case Message(fragments, now) =>
      SubmitExtends(m, fragments, now);
      SameFates(m, r);
    case AckIn(ack, full, now, recomputed) =>
      OnAckExtends(m, ack, full, now, recomputed);
    case NakIn(loss, now, gate) =>
      OnNakExtends(m, loss, now, gate);
    case ExpTimer(now, gate) =>
      OnExpExtends(m, now, gate);
    case PaceTimer(now) =>
      PaceExtends(m, now);
      SameFates(m, r);
    case _ =>
      SameFates(m, r);
  }

  lemma GenuineStays(m: SenderModel, r: SenderModel, i: int, p: DataPacket)
    requires Extends(m, r) && Genuine(m, i, p)
    ensures Genuine(r, i, p)
  {
  }

  /** An acknowledgement on the network never points past what was sent. */
  lemma AckWithinSent(s: System, a: int)
    requires SystemInv(s) && Received(s.rcv.view, s.rcv.isn, a)
    ensures a <= s.snd.next
  {
    if s.rcv.isn < a {
      assert Covered(s.rcv.view, a - 1);
    }
  }

  lemma SenderKeeps(s: System, x: SenderInput)
    requires SystemInv(s) && Enabled(s, AtSender(x))
    ensures SystemInv(Next(s, AtSender(x)))
  {
    SR.StepKeeps(s.snd, x);
    SenderExtends(s.snd, x);
    var r := SenderStep(s.snd, x);
    forall i | i in s.rcv.view.held ensures Genuine(r, i, s.rcv.view.held[i]) {
      GenuineStays(s.snd, r, i, s.rcv.view.held[i]);
    }
    forall k | 0 <= k < |s.rcv.delivered| ensures Genuine(r, s.rcv.delivered[k].i, s.rcv.delivered[k].packet) {
      GenuineStays(s.snd, r, s.rcv.delivered[k].i, s.rcv.delivered[k].packet);
    }
    if x.AckIn? {
      var a :| AckOnNetwork(s, x.ack, x.full, a);
      AckReleases(s, x.ack, x.full, a, r);
    }
  }

  /** An acknowledgement from the network releases only what the receiver has. */
  lemma AckReleases(s: System, ack: SeqNumber, full: bool, a: int, r: SenderModel)
    requires SystemInv(s) && AckOnNetwork(s, ack, full, a)
    requires AcksBelow(s.snd, r, ResolveBack(Front(s.snd), ack)) && r.isn == s.snd.isn
    ensures Released(r, s.rcv)
  {
    assert Received(s.rcv.view, s.rcv.isn, a);
    AckWithinSent(s, a);
    ResolveBackExact(Front(s.snd), a);
    forall i | FateOf(r, i) == Some(Acked) ensures Covered(s.rcv.view, i) {
    }
  }

  // ---- Receiver steps ----

  /** `r` still only has the sender's packets and has lost nothing `m` had received. */
  ghost predicate Follows(snd: SenderModel, m: ReceiverModel, r: ReceiverModel) {
    Sourced(snd, r) && r.isn == m.isn && forall i :: Covered(m.view, i) ==> Covered(r.view, i)
  }

  lemma DeliverOneFollows(snd: SenderModel, m: ReceiverModel, i: int)
    requires Sourced(snd, m) && Books(snd) && Placed(m.view) && IsFirst(m.view, i)
    ensures Follows(snd, m, DeliverOne(m, i)) && Placed(Popped(m.view, i))
  {
    PoppedFollows(snd, m.view, i);
    var r := DeliverOne(m, i);
    forall k | 0 <= k < |r.delivered| ensures Genuine(snd, r.delivered[k].i, r.delivered[k].packet) {
      if k < |m.delivered| {
        assert r.delivered[k] == m.delivered[k];
      }
    }
  }

  lemma PoppedFollows(snd: SenderModel, v: RecvView, i: int)
    requires snd.next == snd.isn + |snd.log| && Placed(v) && IsFirst(v, i) && forall j :: j in v.held ==> Genuine(snd, j, v.held[j])
    ensures Placed(Popped(v, i)) && Popped(v, i).base <= snd.next && Genuine(snd, i, v.held[i])
    ensures forall j :: j in Popped(v, i).held ==> Genuine(snd, j, Popped(v, i).held[j])
    ensures forall j :: Covered(v, j) ==> Covered(Popped(v, i), j)
  {
    assert Genuine(snd, i, v.held[i]);
  }

  lemma {:induction false} DeliverDueFollows(snd: SenderModel, m: ReceiverModel, now: Instant, drift: int)
    requires Sourced(snd, m) && Books(snd) && Placed(m.view)
    ensures Follows(snd, m, DeliverDue(m, now, drift))
    decreases |m.view.held|
  {
    if HeadDue(m, now, drift) {
      var i := FirstHeld(m.view);
      DeliverOneFollows(snd, m, i);
      PoppedSmaller(m.view, i);
      var r := DeliverCounted(m, i);
      assert Sourced(snd, r);
      DeliverDueFollows(snd, r, now, drift);
    }
  }

  lemma {:induction false} FlushFollows(snd: SenderModel, m: ReceiverModel)
    requires Sourced(snd, m) && Books(snd) && Placed(m.view)
    ensures Follows(snd, m, Flush(m))
    decreases |m.view.held|
  {
    if m.view.base in m.view.held {
      DeliverOneFollows(snd, m, m.view.base);
      PoppedSmaller(m.view, m.view.base);
      FlushFollows(snd, DeliverOne(m, m.view.base));
    }
  }

  lemma DataFollows(s: System, packet: DataPacket, now: Instant, drift: int, naks: seq<Msg>, i: int)
    requires Sourced(s.snd, s.rcv) && Books(s.snd) && Faithful(s.snd) && Placed(s.rcv.view) && DataOnNetwork(s, packet, i)
    ensures Follows(s.snd, s.rcv, OnData(s.rcv, packet, now, drift, naks))
  {
    assert Genuine(s.snd, i, packet);
    assert packet.number == Wire(i);
    ResolveExact(s.rcv.view.base, i);
    if Accepts(s.rcv, packet) {
      var stored := Store(s.rcv, packet, now);
      StoredFollows(s.snd, s.rcv, packet, now, i);
      DeliverDueFollows(s.snd, stored, now, drift);
      assert OnData(s.rcv, packet, now, drift, naks).view == DeliverDue(stored, now, drift).view;
    }
  }

  lemma StoredFollows(snd: SenderModel, m: ReceiverModel, packet: DataPacket, now: Instant, i: int)
    requires Sourced(snd, m) && Placed(m.view) && Genuine(snd, i, packet) && packet.number == Wire(i)
    requires m.view.base <= i < m.view.base + HALF && Resolve(m.view.base, packet.number) == i
    ensures Follows(snd, m, Store(m, packet, now)) && Placed(Store(m, packet, now).view)
  {
  }

  lemma DropReqFollows(s: System, first: SeqNumber, last: SeqNumber, now: Instant, drift: int, span: Span)
    requires SystemInv(s) && DropReqOnNetwork(s, first, last, span)
    ensures Follows(s.snd, s.rcv, OnDropReq(s.rcv, first, last, now, drift))
  {
    ResolveExact(s.rcv.view.base, span.lo);
    ResolveExact(s.rcv.view.base, span.hi);
    assert AllShed(s.snd, span);
    assert FateOf(s.snd, span.hi).Some?;
    GiveUpKeeps(s.rcv, first, last);
    var given := GiveUp(s.rcv, first, last);
    assert Sourced(s.snd, given);
    DeliverDueFollows(s.snd, given, now, drift);
  }

  lemma ReceiverFollows(s: System, x: ReceiverInput)
    requires SystemInv(s) && Enabled(s, AtReceiver(x))
    ensures Follows(s.snd, s.rcv, ReceiverStep(s.rcv, x))
  {
    match x
    case DataIn(packet, now, drift, naks) =>
      var i :| DataOnNetwork(s, packet, i);
      DataFollows(s, packet, now, drift, naks, i);
    case DropReqIn(first, last, now, drift) =>
      var span :| DropReqOnNetwork(s, first, last, span);
      DropReqFollows(s, first, last, now, drift, span);
    case ShutdownIn => FlushFollows(s.snd, s.rcv);
    case TsbpdTimer(now, drift) => DeliverDueFollows(s.snd, s.rcv, now, drift);
    case _ =>
  }

  lemma ReceiverKeeps(s: System, x: ReceiverInput)
    requires SystemInv(s) && Enabled(s, AtReceiver(x))
    ensures SystemInv(Next(s, AtReceiver(x)))
  {
    RR.StepKeeps(s.rcv, x);
    ReceiverFollows(s, x);
  }

  // ---- Reachable states ----

  lemma SenderStartInv(cfg: SenderConfig, isn: int, period: Option<nat>)
    ensures SenderInv(SenderStart(cfg, isn, period))
  {
  }

  lemma StartInv(s: System)
    requires Starts(s)
    ensures SystemInv(s)
  {
    var cfg, isn, period, latency, flowWindow, events :|
      MessagesIn(events) == [] && s == System(SenderStart(cfg, isn, period), ReceiverStart(isn, latency, flowWindow, events));
    SenderStartInv(cfg, isn, period);
    StartHolds(isn, latency, flowWindow, events);
    assert Sourced(s.snd, s.rcv) && Released(s.snd, s.rcv);
  }

  lemma {:induction false} Reachable(s: System, actions: seq<Action>)
    requires Starts(s) && RunEnabled(s, actions)
    ensures SystemInv(Run(s, actions))
  {
    if actions == [] {
      StartInv(s);
    } else {
      var front, a := actions[..|actions| - 1], actions[|actions| - 1];
      Reachable(s, front);
      match a
      case AtSender(x) => SenderKeeps(Run(s, front), x);
      case AtReceiver(x) => ReceiverKeeps(Run(s, front), x);
    }
  }
}
