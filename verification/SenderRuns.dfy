/**
 Runs of the sending half under arbitrary inputs: any acknowledgement, any loss report, any timer, in any order.
 */
module SenderRuns {
  import opened Options
  import opened SeqNumbers
  import opened Packets
  import opened RecvBuffers
  import opened SendBuffers
  import opened Reassembly
  import opened ArqModel

  datatype SenderInput =
    | Message(fragments: seq<Fragment>, now: Instant)
    | AckIn(ack: SeqNumber, full: bool, now: Instant, recomputed: nat)
    | NakIn(loss: seq<LossRange>, now: Instant, gate: nat)
    | ExpTimer(now: Instant, gate: nat)
    | PaceTimer(now: Instant)
    | CloseCall
    | LingerTimer
    | SenderLost                      // the connection failed: peer gone or closed

  /** What the environment may do: submit within the flow window, deliver datagrams while connected. */
  ghost predicate SenderAllowed(m: SenderModel, x: SenderInput) {
    match x
    case Message(fragments, _) =>
      |fragments| > 0 && Positioned(fragments) && |m.window| + |m.queue| + |fragments| <= HALF
    case AckIn(_, _, _, _) => m.connected
    case NakIn(_, _, _) => m.connected
    case _ => true
  }

  ghost function SenderStep(m: SenderModel, x: SenderInput): SenderModel {
    match x
    case Message(fragments, now) => Submit(m, fragments, now)
    case AckIn(ack, full, now, recomputed) => OnAck(m, ack, full, now, recomputed)
    case NakIn(loss, now, gate) => OnNak(m, loss, now, gate)
    case ExpTimer(now, gate) => OnExp(m, now, gate)
    case PaceTimer(now) => Pace(m, now)
    case CloseCall => Close(m)
    case LingerTimer => OnLinger(m)
    case SenderLost => m.(connected := false)
  }

  ghost function SenderRun(m: SenderModel, xs: seq<SenderInput>): SenderModel {
    if xs == [] then m else SenderStep(SenderRun(m, xs[..|xs| - 1]), xs[|xs| - 1])
  }

  ghost predicate SenderRunAllowed(m: SenderModel, xs: seq<SenderInput>) {
    xs != [] ==> SenderRunAllowed(m, xs[..|xs| - 1]) && SenderAllowed(SenderRun(m, xs[..|xs| - 1]), xs[|xs| - 1])
  }

  // ---- Invariants ----

  /** `p` is `original` up to the R flag. */
  ghost predicate SameContent(p: DataPacket, original: DataPacket) {
    p.(retransmitted := false) == original
  }

  ghost predicate Genuine(m: SenderModel, i: int, p: DataPacket) {
    m.isn <= i < m.isn + |m.log| && SameContent(p, m.log[i - m.isn])
  }

  /** The buffer is the unretired tail of the originated packets, numbered consecutively from the ISN. */
  ghost predicate Books(m: SenderModel) {
    && m.next == m.isn + |m.log| && |m.fates| + |m.window| == |m.log|
    && TailOf(m.window, m.log, |m.fates|) && Numbered(m.log, m.isn)
  }

  /** The buffered packets are the originated ones from `n` on. */
  ghost predicate TailOf(window: seq<Sent>, log: seq<DataPacket>, n: nat) {
    n + |window| <= |log| && forall k :: 0 <= k < |window| ==> window[k].packet == log[n + k]
  }

  ghost predicate Numbered(log: seq<DataPacket>, isn: int) {
    forall k :: 0 <= k < |log| ==> log[k].number == Wire(isn + k) && !log[k].retransmitted
  }

  /** Every data datagram is an originated packet, verbatim up to the R flag. */
  ghost predicate Faithful(m: SenderModel) {
    forall msg :: msg in m.emitted && msg.Data? ==> Genuine(m, msg.i, msg.packet)
  }

  ghost function FateOf(m: SenderModel, i: int): Option<Fate> {
    if m.isn <= i < m.isn + |m.fates| then Some(m.fates[i - m.isn]) else None
  }

  ghost predicate Announces(msg: Msg, i: int) {
    msg.DropReq? && msg.span.lo <= i <= msg.span.hi
  }

  ghost predicate Announced(emitted: seq<Msg>, i: int) {
    exists k :: 0 <= k < |emitted| && Announces(emitted[k], i)
  }

  ghost predicate AllShed(m: SenderModel, span: Span) {
    span.lo <= span.hi && forall i :: span.lo <= i <= span.hi ==> FateOf(m, i) == Some(Shed)
  }

  /** The DROPREQ ranges among the datagrams ascend without overlap. */
  ghost predicate Ascending(emitted: seq<Msg>) {
    forall k, l :: 0 <= k < l < |emitted| && emitted[k].DropReq? && emitted[l].DropReq? ==>
      emitted[k].span.hi < emitted[l].span.lo
  }

  /** DROPREQ ranges are ascending, disjoint and cover exactly the shed packets. */
  ghost predicate Shedding(m: SenderModel) {
    && (forall msg :: msg in m.emitted && msg.DropReq? ==> AllShed(m, msg.span))
    && Ascending(m.emitted)
    && (forall i :: FateOf(m, i) == Some(Shed) ==> Announced(m.emitted, i))
  }

  /** When packet `i` was last retransmitted. */
  ghost function LastResend(rs: seq<Resend>, i: int): Option<Instant> {
    if rs == [] then None
    else if rs[|rs| - 1].i == i then Some(rs[|rs| - 1].at)
    else LastResend(rs[..|rs| - 1], i)
  }

  /** Every retransmission was due at its time. */
  ghost predicate Gated(rs: seq<Resend>) {
    forall l :: 0 <= l < |rs| ==> Due(LastResend(rs[..l], rs[l].i), rs[l].at, rs[l].gate)
  }

  /** Each stored stamp is the time its own packet was last retransmitted. */
  ghost predicate Stamped(m: SenderModel) {
    && Gated(m.resends)
    && LastStamps(m.window, m.resends, Front(m)) && NoneResent(m.resends, m.next)
  }

  ghost predicate LastStamps(window: seq<Sent>, rs: seq<Resend>, front: int) {
    forall k :: 0 <= k < |window| ==> window[k].lastRetransmit == LastResend(rs, front + k)
  }

  ghost predicate NoneResent(rs: seq<Resend>, from: int) {
    forall i :: from <= i ==> LastResend(rs, i).None?
  }

  /** The packets originated and those queued are, in order, the fragments of the accepted messages. */
  ghost predicate Streaming(m: SenderModel) {
    && (forall j :: 0 <= j < |m.messages| ==> |m.messages[j]| > 0 && Positioned(m.messages[j]))
    && Logged(m.log) + m.queue == Flatten(m.messages)
    && (m.period.None? ==> m.queue == [])
  }

  ghost function Logged(log: seq<DataPacket>): (r: seq<Fragment>)
    ensures |r| == |log|
  {
    seq(|log|, k requires 0 <= k < |log| => Fragment(log[k].payload, log[k].position, log[k].message))
  }

  ghost predicate Core(m: SenderModel) {
    Books(m) && Faithful(m) && Shedding(m) && Stamped(m)
  }

  ghost predicate SenderInv(m: SenderModel) {
    Core(m) && Streaming(m) && |m.window| + |m.queue| <= HALF
  }

  // ---- Primitive steps ----

  /** Data datagrams added to the history are all genuine. */
  lemma FaithfulMore(m: SenderModel, r: SenderModel, more: seq<Msg>)
    requires Faithful(m) && r.isn == m.isn && m.log <= r.log && r.emitted == m.emitted + more
    requires forall msg :: msg in more && msg.Data? ==> Genuine(r, msg.i, msg.packet)
    ensures Faithful(r)
  {
    forall msg | msg in r.emitted && msg.Data? ensures Genuine(r, msg.i, msg.packet) {
      if msg in m.emitted {
        assert Genuine(m, msg.i, msg.packet);
      }
    }
  }

  lemma AnnouncedMore(emitted: seq<Msg>, more: seq<Msg>, i: int)
    requires Announced(emitted, i)
    ensures Announced(emitted + more, i)
  {
    var k :| 0 <= k < |emitted| && Announces(emitted[k], i);
    assert (emitted + more)[k] == emitted[k];
  }

  lemma AscendingMore(emitted: seq<Msg>, more: seq<Msg>)
    requires Ascending(emitted) && forall k :: 0 <= k < |more| ==> !more[k].DropReq?
    ensures Ascending(emitted + more)
  {
    var all := emitted + more;
    assert forall k :: |emitted| <= k < |all| ==> all[k] == more[k - |emitted|];
  }

  lemma SheddingSame(m: SenderModel, r: SenderModel, more: seq<Msg>)
    requires Shedding(m) && r.isn == m.isn && r.fates == m.fates && r.emitted == m.emitted + more
    requires forall k :: 0 <= k < |more| ==> !more[k].DropReq?
    ensures Shedding(r)
  {
    AscendingMore(m.emitted, more);
    assert forall i :: FateOf(r, i) == FateOf(m, i);
    forall msg | msg in r.emitted && msg.DropReq? ensures AllShed(r, msg.span) {
      assert msg in m.emitted;
      assert AllShed(m, msg.span);
    }
    forall i | FateOf(r, i) == Some(Shed) ensures Announced(r.emitted, i) {
      AnnouncedMore(m.emitted, more, i);
    }
  }

  lemma OriginateBooks(m: SenderModel, f: Fragment, now: Instant)
    requires Books(m)
    ensures Books(Originate(m, f, now)) && Logged(Originate(m, f, now).log) == Logged(m.log) + [f]
  {
  }

  lemma OriginateKeeps(m: SenderModel, f: Fragment, now: Instant)
    requires Core(m)
    ensures Core(Originate(m, f, now)) && Logged(Originate(m, f, now).log) == Logged(m.log) + [f]
  {
    var r := Originate(m, f, now);
    var packet := MakePacket(m.cfg, m.next, f, now);
    OriginateBooks(m, f, now);
    assert r.log[m.next - m.isn] == packet;
    FaithfulMore(m, r, [Data(m.next, packet)]);
    SheddingSame(m, r, [Data(m.next, packet)]);
  }

  lemma RetireBooks(m: SenderModel, n: nat, fate: Fate)
    requires Books(m) && n <= |m.window|
    ensures Books(Retire(m, n, fate)) && Front(Retire(m, n, fate)) == Front(m) + n
  {
    var r := Retire(m, n, fate);
    forall k | 0 <= k < |r.window| ensures r.window[k].packet == r.log[|r.fates| + k] {
      assert r.window[k] == m.window[n + k];
    }
  }

  lemma RetireStamped(m: SenderModel, n: nat, fate: Fate)
    requires Books(m) && Stamped(m) && n <= |m.window|
    ensures Stamped(Retire(m, n, fate))
  {
    var r := Retire(m, n, fate);
    forall k | 0 <= k < |r.window| ensures r.window[k].lastRetransmit == LastResend(r.resends, Front(r) + k) {
      assert r.window[k] == m.window[n + k];
    }
  }

  lemma AckKeeps(m: SenderModel, ack: SeqNumber)
    requires SenderInv(m)
    ensures SenderInv(AckTo(m, ack))
  {
    var n := Released(Front(m), |m.window|, ResolveBack(Front(m), ack));
    RetireBooks(m, n, Acked);
    RetireStamped(m, n, Acked);
    RetireShedding(m, n);
    assert m.emitted == m.emitted + [];
    FaithfulMore(m, AckTo(m, ack), []);
  }

  lemma RetireShedding(m: SenderModel, n: nat)
    requires Shedding(m) && n <= |m.window|
    ensures Shedding(Retire(m, n, Acked))
  {
    var r := Retire(m, n, Acked);
    assert forall i :: FateOf(m, i).Some? ==> FateOf(r, i) == FateOf(m, i);
    forall msg | msg in r.emitted && msg.DropReq? ensures AllShed(r, msg.span) {
      assert AllShed(m, msg.span);
    }
    forall i | FateOf(r, i) == Some(Shed) ensures Announced(r.emitted, i) {
      assert FateOf(m, i) == Some(Shed);
    }
  }

  lemma ShedShedding(m: SenderModel, n: nat, r: SenderModel)
    requires Books(m) && Shedding(m) && 0 < n <= |m.window|
    requires r == Retire(m, n, Shed).(emitted := m.emitted + [DropReq(Span(Front(m), Front(m) + n - 1))])
    ensures Shedding(r)
  {
    var span := Span(Front(m), Front(m) + n - 1);
    forall i ensures FateOf(r, i) == if span.lo <= i <= span.hi then Some(Shed) else FateOf(m, i) {
    }
    forall msg | msg in r.emitted && msg.DropReq? ensures AllShed(r, msg.span) {
      if msg in m.emitted {
        assert AllShed(m, msg.span);
      } else {
        assert msg == DropReq(span);
      }
    }
    AscendingShed(m, span);
    forall i | FateOf(r, i) == Some(Shed) ensures Announced(r.emitted, i) {
      if span.lo <= i <= span.hi {
        assert Announces(r.emitted[|m.emitted|], i);
      } else {
        AnnouncedMore(m.emitted, [DropReq(span)], i);
      }
    }
  }

  lemma AscendingShed(m: SenderModel, span: Span)
    requires Shedding(m) && m.isn + |m.fates| <= span.lo
    ensures Ascending(m.emitted + [DropReq(span)])
  {
    forall k | 0 <= k < |m.emitted| && m.emitted[k].DropReq? ensures m.emitted[k].span.hi < span.lo {
      assert AllShed(m, m.emitted[k].span);
      assert FateOf(m, m.emitted[k].span.hi).Some?;
    }
  }

  lemma ShedCore(m: SenderModel, n: nat, r: SenderModel)
    requires Core(m) && 0 < n <= |m.window|
    requires r == Retire(m, n, Shed).(emitted := m.emitted + [DropReq(Span(Front(m), Front(m) + n - 1))])
    ensures Core(r)
  {
    RetireBooks(m, n, Shed);
    RetireStamped(m, n, Shed);
    BooksSame(Retire(m, n, Shed), r);
    ShedShedding(m, n, r);
    FaithfulMore(m, r, [DropReq(Span(Front(m), Front(m) + n - 1))]);
  }

  lemma BooksSame(m: SenderModel, r: SenderModel)
    requires Books(m) && Stamped(m)
    requires r.isn == m.isn && r.next == m.next && r.window == m.window
    requires r.log == m.log && r.fates == m.fates && r.resends == m.resends
    ensures Books(r) && Stamped(r)
  {
  }

  lemma ShedKeeps(m: SenderModel, now: Instant)
    requires SenderInv(m)
    ensures SenderInv(ShedLate(m, now))
  {
    var n := LateCount(m.window, WireTs(m.cfg.start, now), Budget(m.cfg.latency));
    if n > 0 {
      ShedCore(m, n, ShedLate(m, now));
    }
  }

  lemma LastResendSnoc(rs: seq<Resend>, r: Resend, i: int)
    ensures LastResend(rs + [r], i) == if r.i == i then Some(r.at) else LastResend(rs, i)
  {
    assert (rs + [r])[..|rs + [r]| - 1] == rs;
  }

  lemma GatedSnoc(rs: seq<Resend>, r: Resend)
    requires Gated(rs) && Due(LastResend(rs, r.i), r.at, r.gate)
    ensures Gated(rs + [r])
  {
    var longer := rs + [r];
    forall l | 0 <= l < |longer| ensures Due(LastResend(longer[..l], longer[l].i), longer[l].at, longer[l].gate) {
      assert longer[..l] == rs[..l];
      assert rs[..|rs|] == rs;
    }
  }

  lemma ResendStamped(m: SenderModel, k: nat, now: Instant, gate: nat)
    requires Stamped(m) && k < |m.window| && Due(m.window[k].lastRetransmit, now, gate)
    ensures Stamped(ResendAt(m, k, now, gate))
  {
    var r := ResendAt(m, k, now, gate);
    assert Front(r) == Front(m) && r.next == m.next;
    GatedSnoc(m.resends, Resend(Front(m) + k, now, gate));
    StampNext(m.window, m.resends, Front(m), k, now, gate, m.next);
    assert LastStamps(r.window, r.resends, Front(r)) && NoneResent(r.resends, r.next) && Gated(r.resends);
  }

  lemma StampNext(window: seq<Sent>, rs: seq<Resend>, front: int, k: nat, now: Instant, gate: nat, next: int)
    requires LastStamps(window, rs, front) && NoneResent(rs, next) && k < |window| && front + k < next
    ensures LastStamps(window[k := Sent(window[k].packet, Some(now))], rs + [Resend(front + k, now, gate)], front)
    ensures NoneResent(rs + [Resend(front + k, now, gate)], next)
  {
    var rs' := rs + [Resend(front + k, now, gate)];
    forall i ensures LastResend(rs', i) == if i == front + k then Some(now) else LastResend(rs, i) {
      LastResendSnoc(rs, Resend(front + k, now, gate), i);
    }
  }

  lemma ResendBooks(m: SenderModel, k: nat, now: Instant, gate: nat)
    requires Books(m) && k < |m.window|
    ensures Books(ResendAt(m, k, now, gate))
    ensures Genuine(m, Front(m) + k, m.window[k].packet.(retransmitted := true))
  {
    assert m.window[k].packet == m.log[|m.fates| + k];
  }

  lemma ResendAtKeeps(m: SenderModel, k: nat, now: Instant, gate: nat)
    requires Core(m) && k < |m.window| && Due(m.window[k].lastRetransmit, now, gate)
    ensures Core(ResendAt(m, k, now, gate))
  {
    var r := ResendAt(m, k, now, gate);
    var msg := Data(Front(m) + k, m.window[k].packet.(retransmitted := true));
    ResendBooks(m, k, now, gate);
    ResendStamped(m, k, now, gate);
    FaithfulMore(m, r, [msg]);
    SheddingSame(m, r, [msg]);
  }

  lemma ResendAtInv(m: SenderModel, k: nat, now: Instant, gate: nat)
    requires SenderInv(m) && k < |m.window| && Due(m.window[k].lastRetransmit, now, gate)
    ensures SenderInv(ResendAt(m, k, now, gate))
  {
    ResendAtKeeps(m, k, now, gate);
  }

  lemma {:induction false} ResendKeeps(m: SenderModel, range: LossRange, now: Instant, gate: nat, n: nat)
    requires SenderInv(m) && n <= |m.window|
    ensures SenderInv(ResendUpTo(m, range, now, gate, n))
  {
    if n > 0 {
      ResendKeeps(m, range, now, gate, n - 1);
      var r := ResendUpTo(m, range, now, gate, n - 1);
      if Wanted(r, n - 1, range, now, gate) {
        ResendAtInv(r, n - 1, now, gate);
        assert ResendUpTo(m, range, now, gate, n) == ResendAt(r, n - 1, now, gate);
      } else {
        assert ResendUpTo(m, range, now, gate, n) == r;
      }
    }
  }

  lemma {:induction false} ResendRangesKeep(m: SenderModel, ranges: seq<LossRange>, now: Instant, gate: nat)
    requires SenderInv(m)
    ensures SenderInv(ResendRanges(m, ranges, now, gate))
  {
    if ranges != [] {
      var front := ranges[..|ranges| - 1];
      ResendRangesKeep(m, front, now, gate);
      var r := ResendRanges(m, front, now, gate);
      ResendKeeps(r, ranges[|ranges| - 1], now, gate, |r.window|);
    }
  }

  /** Emitting other datagrams and changing anything the core invariant does not mention keeps it. */
  lemma CoreMore(m: SenderModel, r: SenderModel, more: seq<Msg>)
    requires Core(m) && r.emitted == m.emitted + more
    requires forall k :: 0 <= k < |more| ==> !more[k].DropReq? && !more[k].Data?
    requires r.isn == m.isn && r.next == m.next && r.window == m.window
    requires r.log == m.log && r.fates == m.fates && r.resends == m.resends
    ensures Core(r)
  {
    FaithfulMore(m, r, more);
    SheddingSame(m, r, more);
  }

  lemma CoreSame(m: SenderModel, r: SenderModel)
    requires Core(m) && r.emitted == m.emitted
    requires r.isn == m.isn && r.next == m.next && r.window == m.window
    requires r.log == m.log && r.fates == m.fates && r.resends == m.resends
    ensures Core(r)
  {
    assert r.emitted == m.emitted + [];
    CoreMore(m, r, []);
  }

  lemma ShutKeeps(m: SenderModel)
    requires SenderInv(m)
    ensures SenderInv(Shut(m)) && SenderInv(FinishClose(m))
  {
    CoreMore(m, Shut(m), [Shutdown]);
  }

  // ---- Inputs ----

  lemma OnAckKeeps(m: SenderModel, ack: SeqNumber, full: bool, now: Instant, recomputed: nat)
    requires SenderInv(m)
    ensures SenderInv(OnAck(m, ack, full, now, recomputed))
  {
    AckKeeps(m, ack);
    var acked := AckTo(m, ack);
    ShedKeeps(acked, now);
    var shed := ShedLate(acked, now);
    var timed := shed.(period := if m.period.Some? then Some(recomputed) else None);
    CoreSame(shed, timed);
    ShutKeeps(timed);
    var finished := FinishClose(timed);
    CoreMore(finished, finished.(emitted := finished.emitted + [AckAck]), [AckAck]);
  }

  lemma OnExpKeeps(m: SenderModel, now: Instant, gate: nat)
    requires SenderInv(m)
    ensures SenderInv(OnExp(m, now, gate))
  {
    ShedKeeps(m, now);
    var shed := ShedLate(m, now);
    ResendKeeps(shed, LossRange(Wire(Front(shed)), Wire(shed.next - 1)), now, gate, |shed.window|);
  }

  lemma PaceOneKeeps(m: SenderModel, now: Instant, period: nat)
    requires SenderInv(m) && m.queue != []
    ensures SenderInv(PaceOne(m, now, period))
  {
    var popped := m.(queue := m.queue[1..]);
    CoreSame(m, popped);
    OriginateKeeps(popped, m.queue[0], now);
    var sent := Originate(popped, m.queue[0], now);
    CoreSame(sent, PaceOne(m, now, period));
    assert [m.queue[0]] + m.queue[1..] == m.queue;
    assert Logged(sent.log) + sent.queue == Logged(m.log) + m.queue;
  }

  lemma {:induction false} PaceLoopKeeps(m: SenderModel, now: Instant, period: nat, released: nat)
    requires SenderInv(m) && released <= MAX_PACE_BURST
    ensures SenderInv(PaceLoop(m, now, period, released).0)
    decreases MAX_PACE_BURST - released
  {
    if released == MAX_PACE_BURST || (m.nextSend.Some? && now < m.nextSend.value) {
    } else if m.queue == [] {
      CoreSame(m, m.(nextSend := None));
    } else {
      PaceOneKeeps(m, now, period);
      PaceLoopKeeps(PaceOne(m, now, period), now, period, released + 1);
    }
  }

  lemma PaceKeeps(m: SenderModel, now: Instant)
    requires SenderInv(m)
    ensures SenderInv(Pace(m, now))
  {
    if m.period.Some? {
      PaceLoopKeeps(m, now, m.period.value, 0);
      var (r, released) := PaceLoop(m, now, m.period.value, 0);
      var resynced := r.(nextSend := Some(now + m.period.value));
      CoreSame(r, resynced);
      ShutKeeps(r);
      ShutKeeps(resynced);
    }
  }

  lemma {:induction false} FlattenSnoc(messages: seq<seq<Fragment>>, m: seq<Fragment>)
    ensures Flatten(messages + [m]) == Flatten(messages) + m
  {
    if messages == [] {
      assert [m][1..] == [];
      assert messages + [m] == [m];
    } else {
      FlattenSnoc(messages[1..], m);
      assert (messages + [m])[1..] == messages[1..] + [m];
    }
  }

  lemma {:induction false} OriginateAllKeeps(m: SenderModel, fs: seq<Fragment>, now: Instant)
    requires Core(m)
    ensures Core(OriginateAll(m, fs, now)) && Logged(OriginateAll(m, fs, now).log) == Logged(m.log) + fs
    ensures
      var r := OriginateAll(m, fs, now);
      |r.window| == |m.window| + |fs| && r.queue == m.queue && r.messages == m.messages && r.period == m.period
  {
    if fs != [] {
      var front := fs[..|fs| - 1];
      OriginateAllKeeps(m, front, now);
      OriginateKeeps(OriginateAll(m, front, now), fs[|fs| - 1], now);
      assert fs == front + [fs[|fs| - 1]];
    } else {
      assert Logged(m.log) + fs == Logged(m.log);
    }
  }

  lemma SubmitKeeps(m: SenderModel, fragments: seq<Fragment>, now: Instant)
    requires SenderInv(m) && SenderAllowed(m, Message(fragments, now))
    ensures SenderInv(Submit(m, fragments, now))
  {
    if !m.closing && m.connected {
      FlattenSnoc(m.messages, fragments);
      var accepted := m.(messages := m.messages + [fragments]);
      CoreSame(m, accepted);
      if m.period.None? {
        OriginateAllKeeps(accepted, fragments, now);
        assert Logged(m.log) + [] == Logged(m.log);
      } else {
        var queued := accepted.(queue := m.queue + fragments);
        CoreSame(accepted, queued);
        assert Logged(queued.log) + queued.queue == Logged(m.log) + m.queue + fragments;
        PaceKeeps(queued, now);
      }
    }
  }

  lemma StepKeeps(m: SenderModel, x: SenderInput)
    requires SenderInv(m) && SenderAllowed(m, x)
    ensures SenderInv(SenderStep(m, x))
  {
    match x
    case Message(fragments, now) => SubmitKeeps(m, fragments, now);
    case AckIn(ack, full, now, recomputed) => OnAckKeeps(m, ack, full, now, recomputed);
    case NakIn(loss, now, gate) =>
      ShedKeeps(m, now);
      ResendRangesKeep(ShedLate(m, now), loss, now, gate);
    case ExpTimer(now, gate) => OnExpKeeps(m, now, gate);
    case PaceTimer(now) => PaceKeeps(m, now);
    case CloseCall => ShutKeeps(m); CoreSame(m, m.(closing := true));
    case LingerTimer => ShutKeeps(m);
    case SenderLost => CoreSame(m, m.(connected := false));
  }

  lemma {:induction false} RunKeeps(cfg: SenderConfig, isn: int, period: Option<nat>, xs: seq<SenderInput>)
    requires SenderRunAllowed(SenderStart(cfg, isn, period), xs)
    ensures SenderInv(SenderRun(SenderStart(cfg, isn, period), xs))
  {
    if xs != [] {
      RunKeeps(cfg, isn, period, xs[..|xs| - 1]);
      StepKeeps(SenderRun(SenderStart(cfg, isn, period), xs[..|xs| - 1]), xs[|xs| - 1]);
    }
  }

  // ---- Main results ----

  ghost predicate Accounted(m: SenderModel, i: int) {
    && (m.isn <= i < Front(m) <==> FateOf(m, i).Some?)
    && (Front(m) <= i < m.next ==> m.window[i - Front(m)].packet.number == Wire(i))
    && (FateOf(m, i) == Some(Shed) <==> Announced(m.emitted, i))
    && AnnouncedOnce(m.emitted, i)
  }

  ghost predicate AnnouncedOnce(emitted: seq<Msg>, i: int) {
    forall k, l :: 0 <= k < l < |emitted| ==> !(Announces(emitted[k], i) && Announces(emitted[l], i))
  }

  lemma InvAccounts(m: SenderModel, i: int)
    requires Books(m) && Shedding(m)
    ensures Accounted(m, i)
  {
    if Announced(m.emitted, i) {
      var k :| 0 <= k < |m.emitted| && Announces(m.emitted[k], i);
      assert AllShed(m, m.emitted[k].span);
    }
    if Front(m) <= i < m.next {
      assert m.window[i - Front(m)].packet == m.log[|m.fates| + (i - Front(m))];
    }
  }

  /**
   Every packet ever originated is in exactly one place: still in the contiguous buffer, acknowledged, or shed; a
   shed packet is covered by exactly one DROPREQ and no other packet by any.
   */
  lemma EveryPacketAccounted(cfg: SenderConfig, isn: int, period: Option<nat>, xs: seq<SenderInput>, i: int)
    requires SenderRunAllowed(SenderStart(cfg, isn, period), xs)
    ensures Accounted(SenderRun(SenderStart(cfg, isn, period), xs), i)
  {
    RunKeeps(cfg, isn, period, xs);
    InvAccounts(SenderRun(SenderStart(cfg, isn, period), xs), i);
  }

  /** A stale acknowledgement, at or behind the front, releases nothing. */
  lemma StaleAckReleasesNothing(m: SenderModel, a: int)
    requires Front(m) - HALF < a <= Front(m)
    ensures AckTo(m, Wire(a)) == m
  {
    ResolveBackExact(Front(m), a);
    assert m.window[0..] == m.window;
    assert m.fates + seq(0, _ => Acked) == m.fates;
  }

  /** Two successive retransmissions of one packet are at least the round-trip time then in force apart. */
  lemma RetransmitsSpaced(
    cfg: SenderConfig, isn: int, period: Option<nat>, xs: seq<SenderInput>, k: nat, l: nat)
    requires SenderRunAllowed(SenderStart(cfg, isn, period), xs)
    requires
      var rs := SenderRun(SenderStart(cfg, isn, period), xs).resends;
      k < l < |rs| && rs[k].i == rs[l].i && forall j :: k < j < l ==> rs[j].i != rs[l].i
    ensures
      var rs := SenderRun(SenderStart(cfg, isn, period), xs).resends;
      SatSub(rs[l].at, rs[k].at) >= rs[l].gate
  {
    RunKeeps(cfg, isn, period, xs);
    var rs := SenderRun(SenderStart(cfg, isn, period), xs).resends;
    LastResendAt(rs[..l], k, rs[l].i);
  }

  lemma {:induction false} LastResendAt(rs: seq<Resend>, k: nat, i: int)
    requires k < |rs| && rs[k].i == i && forall j :: k < j < |rs| ==> rs[j].i != i
    ensures LastResend(rs, i) == Some(rs[k].at)
  {
    if k < |rs| - 1 {
      LastResendAt(rs[..|rs| - 1], k, i);
    }
  }
}
