/**
 What each step of the ARQ engine (connection/arq.rs, connection.rs) does, over true indices.

 A model state is the unbounded-index meaning of a connection half together with the history the safety
 statements are about. The classes in `ArqSender` and `ArqReceiver` are proved to follow these functions.
 */
module ArqModel {
  import opened Options
  import opened SeqNumbers
  import opened Timestamps
  import opened Packets
  import opened RecvBuffers
  import opened SendBuffers
  import opened Reassembly

  const ACK_INTERVAL: nat := 10_000
  const SND_DROP_MIN_THRESHOLD: nat := 1_000_000
  const LIGHT_ACK_EVERY: nat := 64
  const MAX_PACE_BURST: nat := 256

  /** A datagram of the data path, with the indices its wire numbers stand for. */
  datatype Msg =
    | Data(i: int, packet: DataPacket)
    | Ack(a: int, full: bool)
    | Nak(spans: seq<Span>)
    | DropReq(span: Span)
    | Shutdown
    | AckAck

  /** What of a datagram is on the wire. */
  datatype Datagram =
    | DataPkt(packet: DataPacket)
    | AckPkt(last: SeqNumber, full: bool)
    | NakPkt(loss: seq<LossRange>)
    | DropReqPkt(first: SeqNumber, last: SeqNumber)
    | ShutdownPkt
    | AckAckPkt

  function OnWire(m: Msg): Datagram {
    match m
    case Data(_, packet) => DataPkt(packet)
    case Ack(a, full) => AckPkt(Wire(a), full)
    case Nak(spans) => NakPkt(WireRanges(spans))
    case DropReq(span) => DropReqPkt(Wire(span.lo), Wire(span.hi))
    case Shutdown => ShutdownPkt
    case AckAck => AckAckPkt
  }

  function AllOnWire(ms: seq<Msg>): (r: seq<Datagram>)
    ensures |r| == |ms|
  {
    seq(|ms|, k requires 0 <= k < |ms| => OnWire(ms[k]))
  }

  lemma AllOnWireSnoc(ms: seq<Msg>, m: Msg)
    ensures AllOnWire(ms + [m]) == AllOnWire(ms) + [OnWire(m)]
  {
  }

  function SatSub(a: nat, b: nat): nat {
    if a < b then 0 else a - b
  }

  /** The wire timestamp at `now` on a clock that started at `start`. */
  function WireTs(start: Instant, now: Instant): Timestamp {
    Stamp(SatSub(now, start))
  }

  // ---- Sender ----

  /** How a packet left the retransmission buffer. */
  datatype Fate = Acked | Shed

  /** One retransmission: which packet, when, and the smoothed round-trip time then in force. */
  datatype Resend = Resend(i: int, at: Instant, gate: nat)

  /** One paced release: its scheduled slot, when it left, and the send period then in force. */
  datatype Release = Release(slot: Instant, at: Instant, period: nat)

  datatype SenderConfig = SenderConfig(start: Instant, dest: U32, latency: nat)

  datatype SenderModel = SenderModel(
    cfg: SenderConfig,
    isn: int,
    next: int,                       // index of the next packet to originate
    window: seq<Sent>,               // sent and unacknowledged: indices next - |window| .. next
    queue: seq<Fragment>,            // submitted, awaiting a paced slot
    connected: bool,
    closing: bool,
    period: Option<nat>,             // send period, None when pacing is off
    nextSend: Option<Instant>,       // next paced slot
    messages: seq<seq<Fragment>>,    // history: application messages accepted, fragmented
    log: seq<DataPacket>,            // history: packets originated
    fates: seq<Fate>,                // history: of indices isn .. first
    resends: seq<Resend>,            // history
    releases: seq<Release>,          // history
    emitted: seq<Msg>)               // history: every datagram emitted

  ghost function Front(m: SenderModel): int {
    m.next - |m.window|
  }

  function SenderStart(cfg: SenderConfig, isn: int, period: Option<nat>): SenderModel {
    SenderModel(cfg, isn, isn, [], [], true, false, period, None, [], [], [], [], [], [])
  }

  /** The packet that carries fragment `f` at index `i`. */
  function MakePacket(cfg: SenderConfig, i: int, f: Fragment, now: Instant): DataPacket {
    DataPacket(Wire(i), f.position, true, Clear, false, f.message, WireTs(cfg.start, now), cfg.dest, f.payload)
  }

  function Originate(m: SenderModel, f: Fragment, now: Instant): SenderModel {
    var packet := MakePacket(m.cfg, m.next, f, now);
    m.(next := m.next + 1,
       window := m.window + [Sent(packet, None)],
       log := m.log + [packet],
       emitted := m.emitted + [Data(m.next, packet)])
  }

  function OriginateAll(m: SenderModel, fs: seq<Fragment>, now: Instant): SenderModel {
    if fs == [] then m else Originate(OriginateAll(m, fs[..|fs| - 1], now), fs[|fs| - 1], now)
  }

  /** Moves the front `n` packets out of the buffer with the given fate. */
  function Retire(m: SenderModel, n: nat, fate: Fate): SenderModel
    requires n <= |m.window|
  {
    m.(window := m.window[n..], fates := m.fates + seq(n, _ => fate))
  }

  ghost function AckTo(m: SenderModel, ack: SeqNumber): SenderModel {
    Retire(m, Released(Front(m), |m.window|, ResolveBack(Front(m), ack)), Acked)
  }

  /** Send-side too-late threshold: max(latency, 1 s) plus two ACK intervals. */
  function Budget(latency: nat): nat {
    (if latency < SND_DROP_MIN_THRESHOLD then SND_DROP_MIN_THRESHOLD else latency) + 2 * ACK_INTERVAL
  }

  function TooLate(s: Sent, ts: Timestamp, budget: nat): bool {
    WrappingDiff(ts, s.packet.timestamp) > budget
  }

  function LateCount(window: seq<Sent>, ts: Timestamp, budget: nat): (n: nat)
    ensures n <= |window|
  {
    if window == [] || !TooLate(window[0], ts, budget) then 0 else 1 + LateCount(window[1..], ts, budget)
  }

  /** Sheds the leading packets too old to play and announces them with one DROPREQ. */
  ghost function ShedLate(m: SenderModel, now: Instant): SenderModel {
    var n := LateCount(m.window, WireTs(m.cfg.start, now), Budget(m.cfg.latency));
    if n == 0 then m
    else
      var shed := Retire(m, n, Shed);
      shed.(emitted := shed.emitted + [DropReq(Span(Front(m), Front(m) + n - 1))])
  }

  /** Whether `number` lies in the inclusive circular range. */
  predicate InRange(number: SeqNumber, start: SeqNumber, end: SeqNumber) {
    OffsetFrom(number, start) >= 0 && OffsetFrom(end, number) >= 0
  }

  /** The retransmit timing gate: never resent, or not within one smoothed round trip. */
  predicate Due(last: Option<Instant>, now: Instant, gate: nat) {
    last.None? || SatSub(now, last.value) >= gate
  }

  /** Resends packet `k` of the buffer verbatim with the R flag set. */
  ghost function ResendAt(m: SenderModel, k: nat, now: Instant, gate: nat): SenderModel
    requires k < |m.window|
  {
    var i := Front(m) + k;
    m.(window := m.window[k := Sent(m.window[k].packet, Some(now))],
       resends := m.resends + [Resend(i, now, gate)],
       emitted := m.emitted + [Data(i, m.window[k].packet.(retransmitted := true))])
  }

  ghost predicate Wanted(m: SenderModel, k: nat, range: LossRange, now: Instant, gate: nat)
    requires k < |m.window|
  {
    InRange(Wire(Front(m) + k), range.start, range.end) && Due(m.window[k].lastRetransmit, now, gate)
  }

  /** The state after considering the first `n` buffered packets for one loss range. */
  ghost function ResendUpTo(m: SenderModel, range: LossRange, now: Instant, gate: nat, n: nat): (r: SenderModel)
    requires n <= |m.window|
    ensures |r.window| == |m.window| && r.next == m.next
    ensures forall k :: n <= k < |m.window| ==> r.window[k] == m.window[k]
  {
    if n == 0 then m
    else
      var r := ResendUpTo(m, range, now, gate, n - 1);
      if Wanted(r, n - 1, range, now, gate) then ResendAt(r, n - 1, now, gate) else r
  }

  ghost function ResendRange(m: SenderModel, range: LossRange, now: Instant, gate: nat): SenderModel {
    ResendUpTo(m, range, now, gate, |m.window|)
  }

  ghost function ResendRanges(m: SenderModel, ranges: seq<LossRange>, now: Instant, gate: nat): SenderModel {
    if ranges == [] then m
    else ResendRange(ResendRanges(m, ranges[..|ranges| - 1], now, gate), ranges[|ranges| - 1], now, gate)
  }

  /** Emits SHUTDOWN and tears the connection down. */
  function Shut(m: SenderModel): SenderModel {
    m.(closing := false, connected := false, emitted := m.emitted + [Shutdown])
  }

  /** Completes a lingering close once everything is drained. */
  function FinishClose(m: SenderModel): SenderModel {
    if m.closing && m.window == [] && m.queue == [] then Shut(m) else m
  }

  ghost function OnAck(m: SenderModel, ack: SeqNumber, full: bool, now: Instant, recomputed: nat): SenderModel {
    var shed := ShedLate(AckTo(m, ack), now);
    var finished := FinishClose(shed.(period := if m.period.Some? then Some(recomputed) else None));
    if full then finished.(emitted := finished.emitted + [AckAck]) else finished
  }

  ghost function OnNak(m: SenderModel, ranges: seq<LossRange>, now: Instant, gate: nat): SenderModel {
    ResendRanges(ShedLate(m, now), ranges, now, gate)
  }

  ghost function OnExp(m: SenderModel, now: Instant, gate: nat): SenderModel {
    if !m.connected || m.window == [] then m
    else
      var shed := ShedLate(m, now);
      if shed.window == [] then shed
      else ResendRange(shed, LossRange(Wire(Front(shed)), Wire(shed.next - 1)), now, gate)
  }

  /** The slot of the next release: the booked one, or now after an idle period. */
  function SlotOf(nextSend: Option<Instant>, now: Instant): Instant {
    if nextSend.Some? then nextSend.value else now
  }

  /** Sends the front of the queue in its slot and books the next slot one period later. */
  function PaceOne(m: SenderModel, now: Instant, period: nat): SenderModel
    requires m.queue != []
  {
    var slot := SlotOf(m.nextSend, now);
    var sent := Originate(m.(queue := m.queue[1..]), m.queue[0], now);
    sent.(nextSend := Some(slot + period), releases := sent.releases + [Release(slot, now, period)])
  }

  /** Releases queued packets whose slot has come, from the `released`-th of this call on. */
  function PaceLoop(m: SenderModel, now: Instant, period: nat, released: nat): (r: (SenderModel, nat))
    requires released <= MAX_PACE_BURST
    decreases MAX_PACE_BURST - released
  {
    if released == MAX_PACE_BURST || (m.nextSend.Some? && now < m.nextSend.value) then (m, released)
    else if m.queue == [] then (m.(nextSend := None), released)
    else
      PaceLoop(PaceOne(m, now, period), now, period, released + 1)
  }

  /** The end of one call: a burst cut short re-synchronises the schedule, a drained queue may finish a close. */
  function Settle(m: SenderModel, released: nat, now: Instant, period: nat): SenderModel {
    var resynced :=
      if released == MAX_PACE_BURST && m.nextSend.Some? && m.nextSend.value < now
      then m.(nextSend := Some(now + period)) else m;
    if resynced.queue == [] then FinishClose(resynced) else resynced
  }

  function Pace(m: SenderModel, now: Instant): SenderModel {
    if m.period.None? then m
    else
      var r := PaceLoop(m, now, m.period.value, 0);
      Settle(r.0, r.1, now, m.period.value)
  }

  /** Accepts one application message, already fragmented. */
  function Submit(m: SenderModel, fragments: seq<Fragment>, now: Instant): SenderModel {
    if m.closing || !m.connected then m
    else
      var accepted := m.(messages := m.messages + [fragments]);
      if m.period.None? then OriginateAll(accepted, fragments, now)
      else Pace(accepted.(queue := m.queue + fragments), now)
  }

  function Close(m: SenderModel): SenderModel {
    if m.closing || !m.connected then m
    else if m.window == [] && m.queue == [] then Shut(m)
    else m.(closing := true)
  }

  function OnLinger(m: SenderModel): SenderModel {
    if m.closing then Shut(m) else m
  }

  // ---- Receiver ----

  datatype Event = DataReceived(message: Bytes) | Closed | OtherEvent

  datatype ReceiverModel = ReceiverModel(
    isn: int,
    latency: nat,
    flowWindow: nat,
    view: RecvView,
    connected: bool,
    anchor: Option<(Timestamp, Instant)>,   // first stamp accepted and when it arrived
    newest: int,                            // newest true stamp time
    events: seq<Event>,                     // awaiting the application
    dropped: nat,                           // the packets_dropped counter
    sinceAck: nat,
    lastAcked: Option<(SeqNumber, nat)>,    // point and availability of the last full ACK
    delivered: seq<Delivery>,               // history: packets handed to reassembly
    taken: seq<Event>,                      // history: events the application drained
    emitted: seq<Msg>)                      // history

  function ReceiverStart(isn: int, latency: nat, flowWindow: nat, events: seq<Event>): ReceiverModel {
    ReceiverModel(isn, latency, flowWindow, RecvView(isn, map[]), true, None, 0, events, 0, 0, None, [], [], [])
  }

  ghost predicate IsLeast(s: set<int>, i: int) {
    i in s && forall j :: j in s ==> i <= j
  }

  lemma {:induction false} LeastExists(s: set<int>, x: int)
    requires x in s
    ensures exists i :: IsLeast(s, i)
    decreases |s|
  {
    if y :| y in s && y != x {
      LeastExists(s - {x}, y);
      var i :| IsLeast(s - {x}, i);
      assert forall j :: j in s ==> j == x || j in s - {x};
      assert IsLeast(s, if i < x then i else x);
    } else {
      assert IsLeast(s, x);
    }
  }

  lemma KeyExists(m: map<int, DataPacket>)
    ensures m == map[] || exists i :: i in m
  {
    if !exists i :: i in m {
      assert m == map[];
    }
  }

  /** The earliest held index. */
  ghost function FirstHeld(v: RecvView): (i: int)
    requires v.held != map[]
    ensures IsFirst(v, i)
  {
    KeyExists(v.held);
    var x :| x in v.held;
    LeastExists(v.held.Keys, x);
    var i :| IsLeast(v.held.Keys, i);
    i
  }

  lemma AckPointStep(v: RecvView, a: int)
    requires v.base in v.held && IsAckPoint(RecvView(v.base + 1, v.held - {v.base}), a)
    ensures IsAckPoint(v, a)
  {
    forall i | v.base <= i < a ensures i in v.held {
      assert i == v.base || i in v.held - {v.base};
    }
  }

  /** The least absent index at or above the base. */
  ghost function AckPointOf(v: RecvView): (a: int)
    ensures IsAckPoint(v, a)
    decreases |v.held|
  {
    if v.base in v.held then
      var rest := v.held - {v.base};
      assert |rest| < |v.held| by {
        assert rest.Keys == v.held.Keys - {v.base};
        assert |rest.Keys| == |rest| && |v.held.Keys| == |v.held|;
      }
      var a := AckPointOf(RecvView(v.base + 1, rest));
      AckPointStep(v, a);
      a
    else v.base
  }

  lemma AckPointUnique(v: RecvView, a: int, b: int)
    requires IsAckPoint(v, a) && IsAckPoint(v, b)
    ensures a == b
  {
  }

  lemma FirstUnique(v: RecvView, i: int, j: int)
    requires IsFirst(v, i) && IsFirst(v, j)
    ensures i == j
  {
  }

  /** The messages among a sequence of events. */
  function MessagesIn(events: seq<Event>): seq<Bytes> {
    if events == [] then []
    else
      var last := events[|events| - 1];
      MessagesIn(events[..|events| - 1]) + if last.DataReceived? then [last.message] else []
  }

  /** Free receive buffer, in packets: held packets and undrained events both count against the window. */
  ghost function Available(m: ReceiverModel): nat {
    SatSub(m.flowWindow, |m.view.held| + |m.events|)
  }

  /** `instant` moved by a signed amount; a move before the origin is ignored. */
  function ApplySigned(instant: Instant, micros: int): Instant {
    if micros >= 0 then instant + micros
    else if instant + micros >= 0 then instant + micros
    else instant
  }

  /** Local play time of a packet stamped `ts`: anchor, plus elapsed sender time, plus drift, plus latency. */
  function PlayTime(anchor: (Timestamp, Instant), newest: int, latency: nat, ts: Timestamp, drift: int): Instant {
    ApplySigned(anchor.1, ResolveTime(newest, ts) - anchor.0 + drift) + latency
  }

  /** What the drop counter adds for an advance of the base from `from` to `to`, less `delivered` packets. */
  function Counted(from: int, to: int, delivered: nat): nat {
    CountAdvance(Wire(from), Wire(to), delivered)
  }

  function CountAdvance(from: SeqNumber, to: SeqNumber, delivered: nat): nat {
    var advanced := OffsetFrom(to, from) - delivered;
    if advanced < 0 then 0 else advanced
  }

  /** The events after the reassembler sees one more packet. */
  ghost function AfterPush(events: seq<Event>, delivered: seq<Delivery>, packet: DataPacket): seq<Event> {
    var message := Pushed(Feed(EMPTY, delivered).0, packet).1;
    if message.Some? then events + [DataReceived(message.value)] else events
  }

  /** Delivers the earliest held packet `i`, passing over the gap before it. */
  ghost function DeliverOne(m: ReceiverModel, i: int): ReceiverModel
    requires i in m.view.held
  {
    var packet := m.view.held[i];
    m.(view := Popped(m.view, i),
       events := AfterPush(m.events, m.delivered, packet),
       delivered := m.delivered + [Delivery(i, packet)])
  }

  /** As `DeliverOne`, counting the gap as dropped. */
  ghost function DeliverCounted(m: ReceiverModel, i: int): ReceiverModel
    requires i in m.view.held
  {
    DeliverOne(m, i).(dropped := m.dropped + Counted(m.view.base, i + 1, 1))
  }

  lemma PoppedSmaller(v: RecvView, i: int)
    requires i in v.held
    ensures |Popped(v, i).held| == |v.held| - 1
  {
    assert (v.held - {i}).Keys == v.held.Keys - {i};
    assert |v.held.Keys - {i}| == |v.held.Keys| - 1;
    assert |(v.held - {i}).Keys| == |v.held - {i}|;
  }

  /** Whether the earliest held packet has reached its play time. */
  ghost predicate HeadDue(m: ReceiverModel, now: Instant, drift: int) {
    && m.view.held != map[] && m.anchor.Some?
    && PlayTime(m.anchor.value, m.newest, m.latency, m.view.held[FirstHeld(m.view)].timestamp, drift) <= now
  }

  /** Delivers every packet whose play time has come. */
  ghost function DeliverDue(m: ReceiverModel, now: Instant, drift: int): ReceiverModel
    decreases |m.view.held|
  {
    if !HeadDue(m, now, drift) then m
    else
      PoppedSmaller(m.view, FirstHeld(m.view));
      DeliverDue(DeliverCounted(m, FirstHeld(m.view)), now, drift)
  }

  ghost function Emit(m: ReceiverModel, more: seq<Msg>): ReceiverModel {
    m.(emitted := m.emitted + more)
  }

  /** A light ACK every 64 packets. */
  ghost function LightAck(m: ReceiverModel): ReceiverModel {
    var counted := m.(sinceAck := m.sinceAck + 1);
    if counted.sinceAck >= LIGHT_ACK_EVERY
    then Emit(counted.(sinceAck := 0), [Ack(AckPointOf(m.view), false)])
    else counted
  }

  /** Whether a packet will be stored: there is room and its index is neither passed nor held. */
  ghost predicate Accepts(m: ReceiverModel, packet: DataPacket) {
    && Available(m) > 0
    && m.view.base <= Resolve(m.view.base, packet.number)
    && Resolve(m.view.base, packet.number) !in m.view.held
  }

  /** Stores an accepted packet and moves the timestamp tracker. */
  ghost function Store(m: ReceiverModel, packet: DataPacket, now: Instant): ReceiverModel {
    var i := Resolve(m.view.base, packet.number);
    m.(view := m.view.(held := m.view.held[i := packet]),
       anchor := if m.anchor.None? then Some((packet.timestamp, now)) else m.anchor,
       newest := if m.anchor.None? then packet.timestamp else Newest(m.newest, packet.timestamp))
  }

  /** An arriving data packet; `naks` is the loss report, if any, that follows it. */
  ghost function OnData(m: ReceiverModel, packet: DataPacket, now: Instant, drift: int, naks: seq<Msg>): ReceiverModel {
    if !Accepts(m, packet) then m
    else Emit(LightAck(DeliverDue(Store(m, packet, now), now, drift)), naks)
  }

  /** Passes over a range the sender gave up and counts the advance as dropped. */
  ghost function GiveUp(m: ReceiverModel, first: SeqNumber, last: SeqNumber): ReceiverModel {
    var base := m.view.base;
    var v := Dropped(m.view, Resolve(base, first), Resolve(base, last));
    m.(view := v, dropped := m.dropped + Counted(base, v.base, 0))
  }

  ghost function OnDropReq(m: ReceiverModel, first: SeqNumber, last: SeqNumber, now: Instant, drift: int): ReceiverModel {
    DeliverDue(GiveUp(m, first, last), now, drift)
  }

  ghost function OnAckTimer(m: ReceiverModel): ReceiverModel {
    var state := (Wire(AckPointOf(m.view)), Available(m));
    if !m.connected || m.lastAcked == Some(state) then m
    else Emit(m.(lastAcked := Some(state), sinceAck := 0), [Ack(AckPointOf(m.view), true)])
  }

  /** Delivers everything contiguous from the base, stopping at the first hole. */
  ghost function Flush(m: ReceiverModel): ReceiverModel
    decreases |m.view.held|
  {
    if m.view.base !in m.view.held then m
    else
      PoppedSmaller(m.view, m.view.base);
      Flush(DeliverOne(m, m.view.base))
  }

  ghost function OnShutdown(m: ReceiverModel): ReceiverModel {
    var flushed := Flush(m);
    flushed.(connected := false, events := flushed.events + [Closed])
  }

  /** The application drains one event. */
  function PollOne(m: ReceiverModel): ReceiverModel {
    if m.events == [] then m else m.(events := m.events[1..], taken := m.taken + [m.events[0]])
  }
}
