/**
 Runs of the receiving half under arbitrary inputs: any packet from any peer, any timer, any draining.
 */
module ReceiverRuns {
  import opened Options
  import opened SeqNumbers
  import opened Timestamps
  import opened Packets
  import opened RecvBuffers
  import opened SendBuffers
  import opened Reassembly
  import opened ArqModel

  datatype ReceiverInput =
    | DataIn(packet: DataPacket, now: Instant, drift: int, naks: seq<Msg>)
    | DropReqIn(first: SeqNumber, last: SeqNumber, now: Instant, drift: int)
    | ShutdownIn
    | TsbpdTimer(now: Instant, drift: int)
    | AckTimer
    | NakTimer(naks: seq<Msg>)
    | Poll
    | OtherHalf                        // the sending half queued an event
    | ReceiverLost                     // the connection failed or was closed locally

  /** Datagrams are handled only while connected; the loss report is whatever the handler computed. */
  ghost predicate ReceiverAllowed(m: ReceiverModel, x: ReceiverInput) {
    && (x.DataIn? || x.DropReqIn? || x.ShutdownIn? ==> m.connected)
    && (x.DataIn? || x.NakTimer? ==> forall k :: 0 <= k < |x.naks| ==> x.naks[k].Nak?)
  }

  ghost function ReceiverStep(m: ReceiverModel, x: ReceiverInput): ReceiverModel {
    match x
    case DataIn(packet, now, drift, naks) => OnData(m, packet, now, drift, naks)
    case DropReqIn(first, last, now, drift) => OnDropReq(m, first, last, now, drift)
    case ShutdownIn => OnShutdown(m)
    case TsbpdTimer(now, drift) => DeliverDue(m, now, drift)
    case AckTimer => OnAckTimer(m)
    case NakTimer(naks) => Emit(m, naks)
    case Poll => PollOne(m)
    case OtherHalf => m.(events := m.events + [OtherEvent])
    case ReceiverLost => m.(connected := false)
  }

  ghost function ReceiverRun(m: ReceiverModel, xs: seq<ReceiverInput>): ReceiverModel {
    if xs == [] then m else ReceiverStep(ReceiverRun(m, xs[..|xs| - 1]), xs[|xs| - 1])
  }

  ghost predicate ReceiverRunAllowed(m: ReceiverModel, xs: seq<ReceiverInput>) {
    xs != [] ==> ReceiverRunAllowed(m, xs[..|xs| - 1]) && ReceiverAllowed(ReceiverRun(m, xs[..|xs| - 1]), xs[|xs| - 1])
  }

  // ---- Invariants ----

  /** Held packets sit at their own index, less than half the number space above the base. */
  ghost predicate Placed(v: RecvView) {
    WellFormed(v) && forall i :: i in v.held ==> i < v.base + HALF
  }

  /** Packets handed on have strictly rising indices, all behind the base. */
  ghost predicate InOrder(m: ReceiverModel) {
    OrderedBelow(m.isn, m.view.base, m.delivered)
  }

  ghost predicate OrderedBelow(isn: int, base: int, ds: seq<Delivery>) {
    && isn <= base
    && (forall k :: 0 <= k < |ds| ==> isn <= ds[k].i < base && ds[k].packet.number == Wire(ds[k].i))
    && (forall k, l :: 0 <= k < l < |ds| ==> ds[k].i < ds[l].i)
  }

  /** The messages the application has or will get are exactly what reassembly made of the delivered packets. */
  ghost predicate Reassembled(m: ReceiverModel) {
    SameMessages(m.taken + m.events, m.delivered)
  }

  ghost predicate SameMessages(events: seq<Event>, ds: seq<Delivery>) {
    MessagesIn(events) == Feed(EMPTY, ds).1
  }

  /** Buffered packets and undrained messages together fit the flow window. */
  ghost predicate Bounded(m: ReceiverModel) {
    Fits(m.view.held, m.events, m.flowWindow)
  }

  ghost predicate Fits(held: map<int, DataPacket>, events: seq<Event>, window: nat) {
    |held| + |MessagesIn(events)| <= window
  }

  ghost predicate Received(v: RecvView, isn: int, a: int) {
    isn <= a && forall i :: isn <= i < a ==> Covered(v, i)
  }

  /** Every acknowledgement ever sent is below something received or passed. */
  ghost predicate Honest(m: ReceiverModel) {
    AllReceived(m.view, m.isn, m.emitted)
  }

  ghost predicate AllReceived(v: RecvView, isn: int, emitted: seq<Msg>) {
    forall msg :: msg in emitted && msg.Ack? ==> Received(v, isn, msg.a)
  }

  ghost predicate ReceiverInv(m: ReceiverModel) {
    Placed(m.view) && InOrder(m) && Reassembled(m) && Bounded(m) && Honest(m)
  }

  // ---- Events ----

  lemma {:induction false} MessagesConcat(a: seq<Event>, b: seq<Event>)
    ensures MessagesIn(a + b) == MessagesIn(a) + MessagesIn(b)
  {
    if b == [] {
      assert a + b == a;
    } else {
      MessagesConcat(a, b[..|b| - 1]);
      assert (a + b)[..|a + b| - 1] == a + b[..|b| - 1];
    }
  }

  lemma MessagesSnoc(a: seq<Event>, e: Event)
    ensures MessagesIn(a + [e]) == MessagesIn(a) + if e.DataReceived? then [e.message] else []
  {
    assert (a + [e])[..|a + [e]| - 1] == a;
  }

  // ---- Primitive steps ----

  lemma CoveredGrows(v: RecvView, w: RecvView, emitted: seq<Msg>, isn: int)
    requires forall i :: Covered(v, i) ==> Covered(w, i)
    requires AllReceived(v, isn, emitted)
    ensures AllReceived(w, isn, emitted)
  {
    forall msg | msg in emitted && msg.Ack? ensures Received(w, isn, msg.a) {
      assert Received(v, isn, msg.a);
    }
  }

  lemma StoreKeeps(m: ReceiverModel, packet: DataPacket, now: Instant)
    requires ReceiverInv(m) && Accepts(m, packet)
    ensures ReceiverInv(Store(m, packet, now))
  {
    var r := Store(m, packet, now);
    var i := Resolve(m.view.base, packet.number);
    assert |r.view.held| == |m.view.held| + 1 by {
      assert r.view.held.Keys == m.view.held.Keys + {i};
    }
    MessagesAtMost(m.events);
    CoveredGrows(m.view, r.view, m.emitted, m.isn);
  }

  lemma {:induction false} MessagesAtMost(events: seq<Event>)
    ensures |MessagesIn(events)| <= |events|
  {
    if events != [] {
      MessagesAtMost(events[..|events| - 1]);
    }
  }

  lemma DeliverReassembled(m: ReceiverModel, i: int)
    requires i in m.view.held && Reassembled(m)
    ensures Reassembled(DeliverOne(m, i))
    ensures |MessagesIn(DeliverOne(m, i).events)| <= |MessagesIn(m.events)| + 1
  {
    var r := DeliverOne(m, i);
    var d := Delivery(i, m.view.held[i]);
    assert (m.delivered + [d])[..|m.delivered + [d]| - 1] == m.delivered;
    var message := Pushed(Feed(EMPTY, m.delivered).0, d.packet).1;
    if message.Some? {
      MessagesSnoc(m.events, DataReceived(message.value));
      MessagesSnoc(m.taken + m.events, DataReceived(message.value));
      assert m.taken + (m.events + [DataReceived(message.value)]) == m.taken + m.events + [DataReceived(message.value)];
    } else {
      assert Feed(EMPTY, m.delivered).1 + [] == Feed(EMPTY, m.delivered).1;
    }
  }

  lemma DeliverOneKeeps(m: ReceiverModel, i: int)
    requires ReceiverInv(m) && IsFirst(m.view, i)
    ensures ReceiverInv(DeliverOne(m, i))
  {
    var r := DeliverOne(m, i);
    PoppedSmaller(m.view, i);
    DeliverReassembled(m, i);
    PoppedPlaced(m.view, i);
    OrderedNext(m.isn, m.view.base, m.delivered, Delivery(i, m.view.held[i]));
    CoveredGrows(m.view, Popped(m.view, i), m.emitted, m.isn);
    assert Placed(r.view) && InOrder(r) && Reassembled(r) && Bounded(r) && Honest(r);
  }

  lemma PoppedPlaced(v: RecvView, i: int)
    requires Placed(v) && IsFirst(v, i)
    ensures Placed(Popped(v, i)) && v.base <= i && v.held[i].number == Wire(i)
    ensures forall j :: Covered(v, j) ==> Covered(Popped(v, i), j)
  {
  }

  lemma OrderedNext(isn: int, base: int, ds: seq<Delivery>, d: Delivery)
    requires OrderedBelow(isn, base, ds) && base <= d.i && d.packet.number == Wire(d.i)
    ensures OrderedBelow(isn, d.i + 1, ds + [d])
  {
    var longer := ds + [d];
    assert longer[|ds|] == d && forall k :: 0 <= k < |ds| ==> longer[k] == ds[k];
  }

  /** The drop counter plays no part in the invariant. */
  lemma CountedKeeps(m: ReceiverModel, i: int)
    requires ReceiverInv(m) && IsFirst(m.view, i)
    ensures ReceiverInv(DeliverCounted(m, i))
  {
    DeliverOneKeeps(m, i);
  }

  lemma {:induction false} DeliverDueKeeps(m: ReceiverModel, now: Instant, drift: int)
    requires ReceiverInv(m)
    ensures ReceiverInv(DeliverDue(m, now, drift))
    decreases |m.view.held|
  {
    if HeadDue(m, now, drift) {
      var i := FirstHeld(m.view);
      CountedKeeps(m, i);
      PoppedSmaller(m.view, i);
      DeliverDueKeeps(DeliverCounted(m, i), now, drift);
    }
  }

  lemma AboveSmaller(held: map<int, DataPacket>, base: int)
    ensures |Above(held, base)| <= |held|
  {
    assert Above(held, base).Keys <= held.Keys;
    SubsetSize(Above(held, base).Keys, held.Keys);
  }

  lemma SubsetSize(a: set<int>, b: set<int>)
    requires a <= b
    ensures |a| <= |b|
  {
    assert b == a + (b - a);
  }

  lemma GiveUpKeeps(m: ReceiverModel, first: SeqNumber, last: SeqNumber)
    requires ReceiverInv(m)
    ensures ReceiverInv(GiveUp(m, first, last))
  {
    var r := GiveUp(m, first, last);
    AboveSmaller(m.view.held, r.view.base);
    CoveredGrows(m.view, r.view, m.emitted, m.isn);
  }

  lemma AckPointReceived(m: ReceiverModel)
    requires Placed(m.view) && m.isn <= m.view.base
    ensures Received(m.view, m.isn, AckPointOf(m.view))
  {
  }

  lemma EmitKeeps(m: ReceiverModel, more: seq<Msg>)
    requires ReceiverInv(m)
    requires forall k :: 0 <= k < |more| ==> more[k].Ack? ==> Received(m.view, m.isn, more[k].a)
    ensures ReceiverInv(Emit(m, more))
  {
  }

  lemma LightAckKeeps(m: ReceiverModel)
    requires ReceiverInv(m)
    ensures ReceiverInv(LightAck(m))
  {
    AckPointReceived(m);
    EmitKeeps(m.(sinceAck := 0), [Ack(AckPointOf(m.view), false)]);
  }

  lemma OnDataKeeps(m: ReceiverModel, packet: DataPacket, now: Instant, drift: int, naks: seq<Msg>)
    requires ReceiverInv(m) && forall k :: 0 <= k < |naks| ==> naks[k].Nak?
    ensures ReceiverInv(OnData(m, packet, now, drift, naks))
  {
    if Accepts(m, packet) {
      StoreKeeps(m, packet, now);
      var stored := Store(m, packet, now);
      DeliverDueKeeps(stored, now, drift);
      var delivered := DeliverDue(stored, now, drift);
      LightAckKeeps(delivered);
      EmitKeeps(LightAck(delivered), naks);
    }
  }

  lemma {:induction false} FlushKeeps(m: ReceiverModel)
    requires ReceiverInv(m)
    ensures ReceiverInv(Flush(m))
    decreases |m.view.held|
  {
    if m.view.base in m.view.held {
      DeliverOneKeeps(m, m.view.base);
      PoppedSmaller(m.view, m.view.base);
      FlushKeeps(DeliverOne(m, m.view.base));
    }
  }

  lemma QueueOther(m: ReceiverModel, e: Event)
    requires ReceiverInv(m) && !e.DataReceived?
    ensures ReceiverInv(m.(events := m.events + [e]))
  {
    var r := m.(events := m.events + [e]);
    MessagesSnoc(m.events, e);
    MessagesSnoc(m.taken + m.events, e);
    assert r.taken + r.events == m.taken + m.events + [e];
    assert InOrder(r) && Reassembled(r) && Bounded(r) && Honest(r);
  }

  lemma PollKeeps(m: ReceiverModel)
    requires ReceiverInv(m)
    ensures ReceiverInv(PollOne(m))
  {
    if m.events != [] {
      var r := PollOne(m);
      assert r.taken + r.events == m.taken + m.events;
      assert m.events == [m.events[0]] + m.events[1..];
      MessagesConcat([m.events[0]], m.events[1..]);
    }
  }

  lemma StepKeeps(m: ReceiverModel, x: ReceiverInput)
    requires ReceiverInv(m) && ReceiverAllowed(m, x)
    ensures ReceiverInv(ReceiverStep(m, x))
  {
    match x
    case DataIn(packet, now, drift, naks) => OnDataKeeps(m, packet, now, drift, naks);
    case DropReqIn(first, last, now, drift) =>
      GiveUpKeeps(m, first, last);
      DeliverDueKeeps(GiveUp(m, first, last), now, drift);
    case ShutdownIn =>
      FlushKeeps(m);
      QueueOther(Flush(m), Closed);
    case TsbpdTimer(now, drift) => DeliverDueKeeps(m, now, drift);
    case AckTimer =>
      AckPointReceived(m);
      var state := (Wire(AckPointOf(m.view)), Available(m));
      EmitKeeps(m.(lastAcked := Some(state), sinceAck := 0), [Ack(AckPointOf(m.view), true)]);
    case NakTimer(naks) => EmitKeeps(m, naks);
    case Poll => PollKeeps(m);
    case OtherHalf => QueueOther(m, OtherEvent);
    case ReceiverLost =>
  }

  /** A connection starts with no data events queued. */
  lemma {:induction false} StartHolds(isn: int, latency: nat, flowWindow: nat, events: seq<Event>)
    requires MessagesIn(events) == []
    ensures ReceiverInv(ReceiverStart(isn, latency, flowWindow, events))
  {
    NothingYet(isn, flowWindow, events);
    var r := ReceiverStart(isn, latency, flowWindow, events);
    assert r.taken + r.events == [] + events;
  }

  lemma {:induction false} NothingYet(isn: int, flowWindow: nat, events: seq<Event>)
    requires MessagesIn(events) == []
    ensures Placed(RecvView(isn, map[])) && OrderedBelow(isn, isn, []) && AllReceived(RecvView(isn, map[]), isn, [])
    ensures SameMessages([] + events, []) && Fits(map[], events, flowWindow)
  {
    assert [] + events == events;
  }

  lemma {:induction false} RunKeeps(m: ReceiverModel, xs: seq<ReceiverInput>)
    requires ReceiverInv(m) && ReceiverRunAllowed(m, xs)
    ensures ReceiverInv(ReceiverRun(m, xs))
  {
    if xs != [] {
      RunKeeps(m, xs[..|xs| - 1]);
      StepKeeps(ReceiverRun(m, xs[..|xs| - 1]), xs[|xs| - 1]);
    }
  }

  /**
   Against a peer that ignores the advertised window, whatever the arrival, delivery and drain interleaving,
   buffered packets plus undrained messages never exceed the flow window.
   */
  lemma MemoryBounded(start: ReceiverModel, xs: seq<ReceiverInput>)
    requires JustConnected(start) && ReceiverRunAllowed(start, xs)
    ensures Bounded(ReceiverRun(start, xs))
  {
    var isn, latency, flowWindow, events :|
      MessagesIn(events) == [] && start == ReceiverStart(isn, latency, flowWindow, events);
    StartHolds(isn, latency, flowWindow, events);
    RunKeeps(start, xs);
  }

  /** The state a connection enters, with any handshake events still queued. */
  ghost predicate JustConnected(m: ReceiverModel) {
    exists isn, latency, flowWindow, events ::
      MessagesIn(events) == [] && m == ReceiverStart(isn, latency, flowWindow, events)
  }

  /**
   What is bounded is what is held, not the slots reserved for it: one packet 2^30 - 1 past the base of an empty receiver
   whose window is a single packet makes its buffer 2^30 slots long.
   */
  lemma StorageExceedsWindow(packet: DataPacket)
    requires packet.number == Wire(HALF - 1)
    ensures
      var r := OnData(ReceiverStart(0, 1, 1, []), packet, 0, 0, []);
      r.view.held == map[HALF - 1 := packet] && r.view.base == 0 && Bounded(r) && IsStorage(r.view, HALF) && HALF > r.flowWindow
  {
    var m := ReceiverStart(0, 1, 1, []);
    ResolveExact(0, HALF - 1);
    assert Accepts(m, packet);
    var stored := Store(m, packet, 0);
    assert stored.view.held == map[HALF - 1 := packet];
    NotYetDue(stored, HALF - 1, packet);
    assert |map[HALF - 1 := packet]| == 1;
  }

  lemma NotYetDue(m: ReceiverModel, i: int, packet: DataPacket)
    requires m.view.held == map[i := packet] && m.latency == 1
    requires m.anchor == Some((packet.timestamp, 0)) && m.newest == packet.timestamp
    ensures DeliverDue(m, 0, 0) == m
  {
    assert i in m.view.held;
    assert FirstHeld(m.view) == i;
    ResolveTimeExact(packet.timestamp, packet.timestamp);
    assert !HeadDue(m, 0, 0);
  }

  // ---- Delivery accounting ----

  /** Packets the base passed that are neither delivered nor counted as dropped. */
  ghost function Deficit(m: ReceiverModel): int {
    m.view.base - m.isn - |m.delivered| - m.dropped
  }

  /** The counter is exact unless the base advances by exactly half the number space at once; then it adds nothing. */
  lemma CountedExact(from: int, to: int, delivered: nat)
    requires 0 <= to - from <= HALF && delivered <= 1 && (to == from ==> delivered == 0)
    ensures Counted(from, to, delivered) <= to - from - delivered
    ensures Counted(from, to, delivered) == to - from - delivered <==> to - from != HALF
  {
    if to - from < HALF {
      OffsetOf(to, from);
    } else {
      CmpAtHalf(from);
    }
  }

  /** Whether timed delivery skips a gap of exactly 2^30 - 1 packets. */
  ghost predicate DueSkipsHalf(m: ReceiverModel, now: Instant, drift: int)
    decreases |m.view.held|
  {
    HeadDue(m, now, drift) &&
    var i := FirstHeld(m.view);
    PoppedSmaller(m.view, i);
    i - m.view.base == HALF - 1 || DueSkipsHalf(DeliverCounted(m, i), now, drift)
  }

  /** Whether a drop request reaches over the base and ends 2^30 - 1 above it. */
  ghost predicate DropSkipsHalf(base: int, first: SeqNumber, last: SeqNumber) {
    Resolve(base, first) <= base && Resolve(base, last) == base + HALF - 1
  }

  ghost predicate StepSkipsHalf(m: ReceiverModel, x: ReceiverInput) {
    match x
    case DataIn(packet, now, drift, _) => Accepts(m, packet) && DueSkipsHalf(Store(m, packet, now), now, drift)
    case DropReqIn(first, last, now, drift) =>
      DropSkipsHalf(m.view.base, first, last) || DueSkipsHalf(GiveUp(m, first, last), now, drift)
    case TsbpdTimer(now, drift) => DueSkipsHalf(m, now, drift)
    case _ => false
  }

  ghost predicate RunSkipsHalf(m: ReceiverModel, xs: seq<ReceiverInput>) {
    xs != [] && (RunSkipsHalf(m, xs[..|xs| - 1]) || StepSkipsHalf(ReceiverRun(m, xs[..|xs| - 1]), xs[|xs| - 1]))
  }

  /** `r` has the deficit of `m`, or more exactly when `skipped`. */
  ghost predicate Accounts(m: ReceiverModel, r: ReceiverModel, skipped: bool) {
    Deficit(m) <= Deficit(r) && (Deficit(m) == Deficit(r) <==> !skipped)
  }

  lemma DeliverAccounts(m: ReceiverModel, i: int)
    requires Placed(m.view) && IsFirst(m.view, i)
    ensures Accounts(m, DeliverCounted(m, i), i - m.view.base == HALF - 1)
    ensures Placed(DeliverCounted(m, i).view)
  {
    CountedExact(m.view.base, i + 1, 1);
  }

  lemma {:induction false} DueAccounts(m: ReceiverModel, now: Instant, drift: int)
    requires Placed(m.view)
    ensures Accounts(m, DeliverDue(m, now, drift), DueSkipsHalf(m, now, drift))
    decreases |m.view.held|
  {
    if HeadDue(m, now, drift) {
      var i := FirstHeld(m.view);
      PoppedSmaller(m.view, i);
      DeliverAccounts(m, i);
      DueAccounts(DeliverCounted(m, i), now, drift);
    }
  }

  lemma GiveUpAccounts(m: ReceiverModel, first: SeqNumber, last: SeqNumber)
    requires Placed(m.view)
    ensures Placed(GiveUp(m, first, last).view)
    ensures Accounts(m, GiveUp(m, first, last), DropSkipsHalf(m.view.base, first, last))
  {
    CountedExact(m.view.base, GiveUp(m, first, last).view.base, 0);
  }

  lemma {:induction false} FlushAccounts(m: ReceiverModel)
    requires Placed(m.view)
    ensures Deficit(Flush(m)) == Deficit(m)
    decreases |m.view.held|
  {
    if m.view.base in m.view.held {
      PoppedSmaller(m.view, m.view.base);
      FlushAccounts(DeliverOne(m, m.view.base));
    }
  }

  lemma StepAccounts(m: ReceiverModel, x: ReceiverInput)
    requires Placed(m.view)
    ensures Accounts(m, ReceiverStep(m, x), StepSkipsHalf(m, x))
  {
    match x
    case DataIn(packet, now, drift, naks) =>
      if Accepts(m, packet) {
        DueAccounts(Store(m, packet, now), now, drift);
      }
    case DropReqIn(first, last, now, drift) =>
      GiveUpAccounts(m, first, last);
      DueAccounts(GiveUp(m, first, last), now, drift);
    case ShutdownIn => FlushAccounts(m);
    case TsbpdTimer(now, drift) => DueAccounts(m, now, drift);
    case _ =>
  }

  /**
   Delivery accounting is conserved over any run: the advance of the base equals packets delivered plus the drop
   counter if and only if no single step skipped exactly half the number space.
   */
  lemma {:induction false} AccountingConserved(m: ReceiverModel, xs: seq<ReceiverInput>)
    requires ReceiverInv(m) && ReceiverRunAllowed(m, xs) && Deficit(m) == 0
    ensures Deficit(ReceiverRun(m, xs)) >= 0
    ensures Deficit(ReceiverRun(m, xs)) == 0 <==> !RunSkipsHalf(m, xs)
  {
    if xs != [] {
      var front := xs[..|xs| - 1];
      AccountingConserved(m, front);
      RunKeeps(m, front);
      StepAccounts(ReceiverRun(m, front), xs[|xs| - 1]);
    }
  }

  /** The failing case is real: a first packet 2^30 - 1 ahead is delivered at once and its whole gap goes uncounted. */
  lemma AccountingFailsAtHalf(packet: DataPacket)
    requires packet.number == Wire(HALF - 1)
    ensures
      var r := OnData(ReceiverStart(0, 0, 1, []), packet, 0, 0, []);
      r.view.base == HALF && |r.delivered| == 1 && r.dropped == 0
  {
    var m := ReceiverStart(0, 0, 1, []);
    ResolveExact(0, HALF - 1);
    assert Accepts(m, packet);
    var stored := Store(m, packet, 0);
    assert stored.view.held == map[HALF - 1 := packet];
    SingleDue(stored, HALF - 1, packet);
    DeliverOnly(stored, HALF - 1, 0, 0);
    CmpAtHalf(0);
    assert Counted(0, HALF, 1) == 0;
  }

  lemma SingleDue(m: ReceiverModel, i: int, packet: DataPacket)
    requires m.view.held == map[i := packet] && m.latency == 0
    requires m.anchor == Some((packet.timestamp, 0)) && m.newest == packet.timestamp
    ensures m.view.held != map[] && FirstHeld(m.view) == i && HeadDue(m, 0, 0) && m.view.held - {i} == map[]
  {
    assert i in m.view.held;
    ResolveTimeExact(packet.timestamp, packet.timestamp);
  }

  /** Timed delivery of a single due packet. */
  lemma DeliverOnly(m: ReceiverModel, i: int, now: Instant, drift: int)
    requires HeadDue(m, now, drift) && FirstHeld(m.view) == i && m.view.held - {i} == map[]
    ensures DeliverDue(m, now, drift) == DeliverCounted(m, i)
  {
    var r := DeliverCounted(m, i);
    assert r.view.held == map[];
    PoppedSmaller(m.view, i);
    assert DeliverDue(r, now, drift) == r;
  }
}
