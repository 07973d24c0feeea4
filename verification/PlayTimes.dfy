/**
 Play times over whole receive runs (tsbpd_expected_arrival and play_time in connection/arq.rs, TsbpdWrap in
 timestamp.rs): a packet plays at the anchor's arrival, plus the sender time elapsed since the anchor, plus the drift
 correction, plus the latency, across any number of 32-bit timestamp wraps.
 */
module PlayTimes {
  import opened Options
  import opened Packets
  import opened Timestamps
  import opened SendBuffers
  import opened ArqModel
  import opened ReceiverRuns

  ghost predicate SameClock(m: ReceiverModel, m': ReceiverModel) {
    m'.anchor == m.anchor && m'.newest == m.newest && m'.latency == m.latency
  }

  lemma {:induction false} DeliverKeepsClock(m: ReceiverModel, now: Instant, drift: int)
    ensures SameClock(m, DeliverDue(m, now, drift))
    decreases |m.view.held|
  {
    if HeadDue(m, now, drift) {
      PoppedSmaller(m.view, FirstHeld(m.view));
      DeliverKeepsClock(DeliverCounted(m, FirstHeld(m.view)), now, drift);
    }
  }

  lemma {:induction false} FlushKeepsClock(m: ReceiverModel)
    ensures SameClock(m, Flush(m))
    decreases |m.view.held|
  {
    if m.view.base in m.view.held {
      PoppedSmaller(m.view, m.view.base);
      FlushKeepsClock(DeliverOne(m, m.view.base));
    }
  }

  /** Whether a step stores a packet. */
  ghost predicate Stores(m: ReceiverModel, x: ReceiverInput) {
    x.DataIn? && Accepts(m, x.packet)
  }

  /** Only storing a packet moves the clock. */
  lemma StepClock(m: ReceiverModel, x: ReceiverInput)
    ensures SameClock(if Stores(m, x) then Store(m, x.packet, x.now) else m, ReceiverStep(m, x))
  {
    match x
    case DataIn(packet, now, drift, _) => DeliverKeepsClock(Store(m, packet, now), now, drift);
    case DropReqIn(first, last, now, drift) => DeliverKeepsClock(GiveUp(m, first, last), now, drift);
    case ShutdownIn => FlushKeepsClock(m);
    case TsbpdTimer(now, drift) => DeliverKeepsClock(m, now, drift);
    case _ =>
  }

  /** The timestamps of the packets a run stored, in order of arrival. */
  ghost function StoredStamps(m: ReceiverModel, xs: seq<ReceiverInput>): seq<Timestamp> {
    if xs == [] then []
    else
      var front, x := xs[..|xs| - 1], xs[|xs| - 1];
      StoredStamps(m, front) + (if Stores(ReceiverRun(m, front), x) then [x.packet.timestamp] else [])
  }

  /** The arrival time of the first packet a run stored. */
  ghost function FirstArrival(m: ReceiverModel, xs: seq<ReceiverInput>): Option<Instant> {
    if xs == [] then None
    else
      var front, x := xs[..|xs| - 1], xs[|xs| - 1];
      if FirstArrival(m, front).Some? then FirstArrival(m, front)
      else if Stores(ReceiverRun(m, front), x) then Some(x.now) else None
  }

  /** The sender stamped the stored packets at these true times. */
  ghost predicate StampedAt(stamps: seq<Timestamp>, times: seq<int>) {
    |stamps| == |times| && forall k :: 0 <= k < |times| ==> stamps[k] == Stamp(times[k])
  }

  /** The clock state a list of true times leads to. */
  ghost predicate ClockAt(m: ReceiverModel, times: seq<int>, arrival: Option<Instant>) {
    if times == [] then m.anchor == None && arrival == None
    else arrival.Some? && m.anchor == Some((Stamp(times[0]), arrival.value)) && m.newest == Track(times[0], times[1..])
  }

  lemma StoreMovesClock(m: ReceiverModel, times: seq<int>, arrival: Option<Instant>, t: int, packet: DataPacket, now: Instant)
    requires ClockAt(m, times, arrival) && packet.timestamp == Stamp(t)
    ensures ClockAt(Store(m, packet, now), times + [t], if arrival.Some? then arrival else Some(now))
  {
    if times != [] {
      assert (times + [t])[1..] == times[1..] + [t];
      assert (times[1..] + [t])[..|times| - 1] == times[1..];
    }
  }

  lemma {:induction false} RunClock(m: ReceiverModel, xs: seq<ReceiverInput>, times: seq<int>)
    requires m.anchor == None && StampedAt(StoredStamps(m, xs), times)
    ensures ClockAt(ReceiverRun(m, xs), times, FirstArrival(m, xs)) && ReceiverRun(m, xs).latency == m.latency
  {
    if xs != [] {
      var front, x := xs[..|xs| - 1], xs[|xs| - 1];
      var before := ReceiverRun(m, front);
      StepClock(before, x);
      if Stores(before, x) {
        var n := |times| - 1;
        assert StampedAt(StoredStamps(m, front), times[..n]);
        RunClock(m, front, times[..n]);
        StoreMovesClock(before, times[..n], FirstArrival(m, front), times[n], x.packet, x.now);
        assert times[..n] + [times[n]] == times;
      } else {
        RunClock(m, front, times);
      }
    }
  }

  /**
   After any run: if each stored packet was stamped within half a timestamp period of the newest before it, a packet
   stamped at true time `t` plays exactly `t - times[0]` after the first arrival, corrected by the drift, plus latency.
   The 32-bit stamps have no influence beyond that.
   */
  lemma PlayTimeExact(m: ReceiverModel, xs: seq<ReceiverInput>, times: seq<int>, t: int, drift: int)
    requires m.anchor == None && StampedAt(StoredStamps(m, xs), times) && times != []
    requires NearRun(times[0], times[1..]) && Near(RunNewest(times[0], times[1..]), t)
    ensures FirstArrival(m, xs).Some? && ReceiverRun(m, xs).anchor.Some?
    ensures var r := ReceiverRun(m, xs);
            PlayTime(r.anchor.value, r.newest, r.latency, Stamp(t), drift)
            == ApplySigned(FirstArrival(m, xs).value, t - times[0] + drift) + m.latency
  {
    RunClock(m, xs, times);
    ElapsedExact(times[0], times[1..], t);
  }
}
