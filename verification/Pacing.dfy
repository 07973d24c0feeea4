/**
 Sender pacing: the send period of LiveCC (live_cc.rs) and the proof that the release loop of `pace`
 (connection/arq.rs) never exceeds the configured rate over a whole run.
 */
module Pacing {
  import opened Options
  import opened SeqNumbers
  import opened Timestamps
  import opened Packets
  import opened SendBuffers
  import opened Reassembly
  import opened ArqModel
  import opened SenderRuns

  const MAX_PAYLOAD: nat := 1456
  const WIRE_OVERHEAD: nat := 44
  const U64_MAX: nat := 0xFFFF_FFFF_FFFF_FFFF

  function SaturatingMul(a: nat, b: nat): nat {
    if a * b <= U64_MAX then a * b else U64_MAX
  }

  /** The period no average payload can undercut: header overhead alone at the configured rate. */
  function MinPeriod(maxBw: nat): nat
    requires maxBw > 0
  {
    SaturatingMul(WIRE_OVERHEAD, 1_000_000) / maxBw
  }

  class LiveCc {
    const maxBw: nat
    var avgPayload: real
    var sndPeriod: nat

    ghost predicate Valid()
      reads this
    {
      maxBw > 0 && avgPayload >= 0.0 && sndPeriod >= MinPeriod(maxBw)
    }

    constructor (maxBw: nat)
      requires maxBw > 0
      ensures Valid() && this.maxBw == maxBw && avgPayload == MAX_PAYLOAD as real
    {
      this.maxBw := maxBw;
      avgPayload := MAX_PAYLOAD as real;
      sndPeriod := PeriodFor(MAX_PAYLOAD as real, maxBw);
      PeriodAtLeast(MAX_PAYLOAD as real, maxBw);
    }

    /** The average moves an eighth of the way; the period stays until the next ACK. */
    method OnPacketSent(size: nat)
      requires Valid()
      modifies this`avgPayload
      ensures Valid()
      ensures avgPayload - old(avgPayload) == (size as real - old(avgPayload)) / 8.0
    {
      avgPayload := 7.0 / 8.0 * avgPayload + 1.0 / 8.0 * (size as real);
    }

    method OnAck()
      requires Valid()
      modifies this`sndPeriod
      ensures Valid() && sndPeriod == PeriodFor(avgPayload, maxBw)
    {
      PeriodAtLeast(avgPayload, maxBw);
      sndPeriod := PeriodFor(avgPayload, maxBw);
    }
  }

  /** Nearest whole number, halves away from zero, of a non-negative real. */
  function Round(x: real): (n: nat)
    requires x >= 0.0
    ensures -0.5 <= n as real - x <= 0.5
  {
    (x + 0.5).Floor
  }

  function PeriodFor(avg: real, maxBw: nat): nat
    requires avg >= 0.0 && maxBw > 0
  {
    SaturatingMul(Round(avg) + WIRE_OVERHEAD, 1_000_000) / maxBw
  }

  lemma PeriodAtLeast(avg: real, maxBw: nat)
    requires avg >= 0.0 && maxBw > 0
    ensures PeriodFor(avg, maxBw) >= MinPeriod(maxBw)
  {
    var a, b := SaturatingMul(WIRE_OVERHEAD, 1_000_000), SaturatingMul(Round(avg) + WIRE_OVERHEAD, 1_000_000);
    DivMonotone(a, b, maxBw);
  }

  lemma DivMonotone(a: nat, b: nat, d: nat)
    requires a <= b && d > 0
    ensures a / d <= b / d
  {
    var x, y := a / d, b / d;
    assert a == x * d + a % d && b == y * d + b % d;
    assert (x - y) * d == x * d - y * d;
    SmallMultiple(x - y, d);
  }

  lemma SmallMultiple(k: int, d: nat)
    requires d > 0
    ensures k > 0 ==> k * d >= d
  {
    if k > 0 {
      assert k * d == d + (k - 1) * d;
    }
  }

  // ---- Timed runs ----

  ghost function TimeOf(x: SenderInput): Option<Instant> {
    match x
    case Message(_, now) => Some(now)
    case AckIn(_, _, now, _) => Some(now)
    case NakIn(_, now, _) => Some(now)
    case ExpTimer(now, _) => Some(now)
    case PaceTimer(now) => Some(now)
    case _ => None
  }

  ghost function Clock(xs: seq<SenderInput>): Instant {
    if xs == [] then 0
    else if TimeOf(xs[|xs| - 1]).Some? then TimeOf(xs[|xs| - 1]).value
    else Clock(xs[..|xs| - 1])
  }

  /** The clock never runs backwards and the recomputed periods respect the floor. */
  ghost predicate Timely(xs: seq<SenderInput>, floor: nat) {
    xs != [] ==>
      var x := xs[|xs| - 1];
      && Timely(xs[..|xs| - 1], floor)
      && (TimeOf(x).Some? ==> Clock(xs[..|xs| - 1]) <= TimeOf(x).value)
      && (x.AckIn? ==> x.recomputed >= floor)
  }

  /** Slots are a period apart and nothing leaves before its slot; the first leaves in its slot. */
  ghost predicate Spaced(rs: seq<Release>, floor: nat) {
    && (forall k :: 0 <= k < |rs| ==> rs[k].slot <= rs[k].at && floor <= rs[k].period)
    && (forall k, l :: 0 <= k < l == k + 1 < |rs| ==> rs[k].slot + rs[k].period <= rs[l].slot)
    && (rs != [] ==> rs[0].slot == rs[0].at)
  }

  ghost predicate PaceInv(m: SenderModel, clock: Instant, floor: nat) {
    && Spaced(m.releases, floor)
    && m.period.Some? && m.period.value >= floor && |m.log| == |m.releases|
    && (m.releases == [] ==> m.nextSend.None?)
    && (m.releases != [] ==>
          var last := m.releases[|m.releases| - 1];
          last.slot + last.period <= SlotOf(m.nextSend, clock))
  }

  /** A step that leaves the schedule alone. */
  ghost predicate SameSchedule(m: SenderModel, r: SenderModel) {
    && r.releases == m.releases && r.nextSend == m.nextSend && r.log == m.log
    && (r.period.Some? <==> m.period.Some?)
  }

  lemma {:induction false} ResendSchedule(m: SenderModel, range: LossRange, now: Instant, gate: nat, n: nat)
    requires n <= |m.window|
    ensures SameSchedule(m, ResendUpTo(m, range, now, gate, n)) && ResendUpTo(m, range, now, gate, n).period == m.period
  {
    if n > 0 {
      ResendSchedule(m, range, now, gate, n - 1);
    }
  }

  lemma {:induction false} ResendRangesSchedule(m: SenderModel, ranges: seq<LossRange>, now: Instant, gate: nat)
    ensures SameSchedule(m, ResendRanges(m, ranges, now, gate)) && ResendRanges(m, ranges, now, gate).period == m.period
  {
    if ranges != [] {
      var r := ResendRanges(m, ranges[..|ranges| - 1], now, gate);
      ResendRangesSchedule(m, ranges[..|ranges| - 1], now, gate);
      ResendSchedule(r, ranges[|ranges| - 1], now, gate, |r.window|);
    }
  }

  lemma PaceOneSpaced(m: SenderModel, now: Instant, clock: Instant, period: nat, floor: nat)
    requires PaceInv(m, clock, floor) && m.queue != [] && clock <= now && floor <= period
    requires m.nextSend.Some? ==> m.nextSend.value <= now
    requires m.period == Some(period)
    ensures PaceInv(PaceOne(m, now, period), now, floor)
  {
    var r := PaceOne(m, now, period);
    var slot := SlotOf(m.nextSend, now);
    var n := |m.releases|;
    assert r.releases[n] == Release(slot, now, period);
    assert forall k :: 0 <= k < n ==> r.releases[k] == m.releases[k];
  }

  lemma {:induction false} PaceLoopSpaced(m: SenderModel, now: Instant, clock: Instant, period: nat, floor: nat, released: nat)
    requires PaceInv(m, clock, floor) && clock <= now && floor <= period && m.period == Some(period)
    requires released <= MAX_PACE_BURST
    ensures
      var (r, n) := PaceLoop(m, now, period, released);
      && PaceInv(r, now, floor) && r.period == m.period
      && n <= MAX_PACE_BURST && |r.releases| == |m.releases| + (n - released)
    decreases MAX_PACE_BURST - released
  {
    if released == MAX_PACE_BURST || (m.nextSend.Some? && now < m.nextSend.value) {
    } else if m.queue == [] {
    } else {
      PaceOneSpaced(m, now, clock, period, floor);
      PaceLoopSpaced(PaceOne(m, now, period), now, now, period, floor, released + 1);
    }
  }

  /** One call releases at most 256 packets and keeps the schedule. */
  lemma PaceSpaced(m: SenderModel, now: Instant, clock: Instant, floor: nat)
    requires PaceInv(m, clock, floor) && clock <= now
    ensures PaceInv(Pace(m, now), now, floor)
    ensures |Pace(m, now).releases| <= |m.releases| + MAX_PACE_BURST
  {
    var period := m.period.value;
    PaceLoopSpaced(m, now, clock, period, floor, 0);
    var r := PaceLoop(m, now, period, 0);
    SettleSpaced(r.0, r.1, now, period, floor);
  }

  lemma SettleSpaced(m: SenderModel, released: nat, now: Instant, period: nat, floor: nat)
    requires PaceInv(m, now, floor)
    ensures PaceInv(Settle(m, released, now, period), now, floor)
    ensures Settle(m, released, now, period).releases == m.releases
  {
  }

  lemma OnAckSchedule(m: SenderModel, ack: SeqNumber, full: bool, now: Instant, recomputed: nat)
    ensures SameSchedule(m, OnAck(m, ack, full, now, recomputed))
    ensures OnAck(m, ack, full, now, recomputed).period == if m.period.Some? then Some(recomputed) else None
  {
  }

  lemma OnExpSchedule(m: SenderModel, now: Instant, gate: nat)
    ensures SameSchedule(m, OnExp(m, now, gate)) && OnExp(m, now, gate).period == m.period
  {
    var shed := ShedLate(m, now);
    ResendSchedule(shed, LossRange(Wire(Front(shed)), Wire(shed.next - 1)), now, gate, |shed.window|);
  }

  lemma ScheduleKeeps(m: SenderModel, r: SenderModel, clock: Instant, later: Instant, floor: nat)
    requires PaceInv(m, clock, floor) && clock <= later && SameSchedule(m, r)
    requires r.period.Some? && r.period.value >= floor
    ensures PaceInv(r, later, floor)
  {
  }

  lemma SubmitSpaced(m: SenderModel, fragments: seq<Fragment>, now: Instant, clock: Instant, floor: nat)
    requires PaceInv(m, clock, floor) && clock <= now
    ensures PaceInv(Submit(m, fragments, now), now, floor)
  {
    if !m.closing && m.connected {
      PaceSpaced(m.(messages := m.messages + [fragments], queue := m.queue + fragments), now, clock, floor);
    }
  }

  lemma PaceStep(m: SenderModel, x: SenderInput, clock: Instant, later: Instant, floor: nat)
    requires PaceInv(m, clock, floor) && clock <= later
    requires later == if TimeOf(x).Some? then TimeOf(x).value else clock
    requires x.AckIn? ==> x.recomputed >= floor
    ensures PaceInv(SenderStep(m, x), later, floor)
  {
    match x
    case Message(fragments, now) => SubmitSpaced(m, fragments, now, clock, floor);
    case AckIn(ack, full, now, recomputed) =>
      OnAckSchedule(m, ack, full, now, recomputed);
      ScheduleKeeps(m, SenderStep(m, x), clock, later, floor);
    case NakIn(loss, now, gate) =>
      ResendRangesSchedule(ShedLate(m, now), loss, now, gate);
      ScheduleKeeps(m, SenderStep(m, x), clock, later, floor);
    case ExpTimer(now, gate) =>
      OnExpSchedule(m, now, gate);
      ScheduleKeeps(m, SenderStep(m, x), clock, later, floor);
    case PaceTimer(now) => PaceSpaced(m, now, clock, floor);
    case CloseCall => ScheduleKeeps(m, SenderStep(m, x), clock, later, floor);
    case LingerTimer => ScheduleKeeps(m, SenderStep(m, x), clock, later, floor);
    case SenderLost => ScheduleKeeps(m, SenderStep(m, x), clock, later, floor);
  }

  lemma {:induction false} PaceRun(cfg: SenderConfig, isn: int, period: nat, xs: seq<SenderInput>, floor: nat)
    requires Timely(xs, floor) && floor <= period
    ensures PaceInv(SenderRun(SenderStart(cfg, isn, Some(period)), xs), Clock(xs), floor)
  {
    if xs != [] {
      PaceRun(cfg, isn, period, xs[..|xs| - 1], floor);
      PaceStep(SenderRun(SenderStart(cfg, isn, Some(period)), xs[..|xs| - 1]), xs[|xs| - 1], Clock(xs[..|xs| - 1]), Clock(xs), floor);
    }
  }

  lemma {:induction false} SlotGrowth(rs: seq<Release>, k: nat, floor: nat)
    requires Spaced(rs, floor) && k < |rs|
    ensures rs[0].slot + k * floor <= rs[k].slot
  {
    if k > 0 {
      SlotGrowth(rs, k - 1, floor);
      assert k * floor == (k - 1) * floor + floor;
    }
  }

  ghost predicate WithinRate(rs: seq<Release>, floor: nat) {
    forall k :: 0 <= k < |rs| ==> k * floor <= rs[k].at - rs[0].at
  }

  lemma SpacedWithinRate(rs: seq<Release>, floor: nat)
    requires Spaced(rs, floor)
    ensures WithinRate(rs, floor)
  {
    forall k | 0 <= k < |rs| ensures k * floor <= rs[k].at - rs[0].at {
      SlotGrowth(rs, k, floor);
    }
  }

  /**
   Pacing never exceeds the configured rate cumulatively: on a paced connection every original is a paced release,
   and the (k+1)-th leaves no earlier than k smallest periods after the first, across late timers, capped bursts,
   re-synchronisation and drained queues.
   */
  lemma RateNeverExceeded(cfg: SenderConfig, isn: int, period: nat, xs: seq<SenderInput>, floor: nat)
    requires Timely(xs, floor) && floor <= period
    ensures
      var m := SenderRun(SenderStart(cfg, isn, Some(period)), xs);
      WithinRate(m.releases, floor) && Spaced(m.releases, floor) && |m.log| == |m.releases|
  {
    PaceRun(cfg, isn, period, xs, floor);
    SpacedWithinRate(SenderRun(SenderStart(cfg, isn, Some(period)), xs).releases, floor);
  }

  // ---- Driven by LiveCC ----

  /** The smoothed payload size after the originals sent so far. */
  ghost function Average(log: seq<DataPacket>): (avg: real)
    ensures avg >= 0.0
  {
    if log == [] then MAX_PAYLOAD as real
    else 7.0 / 8.0 * Average(log[..|log| - 1]) + 1.0 / 8.0 * (|log[|log| - 1].payload| as real)
  }

  /** A run whose clock moves forward and in which every acknowledgement recomputes the period from the average. */
  ghost predicate LiveRun(start: SenderModel, xs: seq<SenderInput>, maxBw: nat)
    requires maxBw > 0
  {
    xs != [] ==>
      var front, x := xs[..|xs| - 1], xs[|xs| - 1];
      && LiveRun(start, front, maxBw)
      && (TimeOf(x).Some? ==> Clock(front) <= TimeOf(x).value)
      && (x.AckIn? ==> x.recomputed == PeriodFor(Average(SenderRun(start, front).log), maxBw))
  }

  lemma {:induction false} LiveIsTimely(start: SenderModel, xs: seq<SenderInput>, maxBw: nat)
    requires maxBw > 0 && LiveRun(start, xs, maxBw)
    ensures Timely(xs, MinPeriod(maxBw))
  {
    if xs != [] {
      var front := xs[..|xs| - 1];
      LiveIsTimely(start, front, maxBw);
      PeriodAtLeast(Average(SenderRun(start, front).log), maxBw);
    }
  }

  /** How many releases happened by time `t`. */
  ghost function ReleasedBy(rs: seq<Release>, t: Instant): (n: nat)
    ensures n <= |rs|
  {
    if rs == [] then 0 else ReleasedBy(rs[..|rs| - 1], t) + (if rs[|rs| - 1].at <= t then 1 else 0)
  }

  lemma {:induction false} NoneAfter(rs: seq<Release>, t: Instant, n: nat)
    requires n <= |rs| && forall k :: n <= k < |rs| ==> rs[k].at > t
    ensures ReleasedBy(rs, t) <= n
  {
    if n < |rs| {
      NoneAfter(rs[..|rs| - 1], t, n);
    }
  }

  /** At most one release more than the smallest periods that fit between the first release and `t`. */
  lemma CountWithinRate(rs: seq<Release>, floor: nat, t: Instant)
    requires WithinRate(rs, floor) && floor > 0 && rs != [] && rs[0].at <= t
    ensures ReleasedBy(rs, t) <= 1 + (t - rs[0].at) / floor
  {
    var n := (t - rs[0].at) / floor;
    if n + 1 < |rs| {
      forall k | n + 1 <= k < |rs| ensures rs[k].at > t {
        BeyondQuotient(t - rs[0].at, floor, k);
        assert k * floor <= rs[k].at - rs[0].at;
      }
      NoneAfter(rs, t, n + 1);
    }
  }

  lemma BeyondQuotient(a: nat, d: nat, k: nat)
    requires d > 0 && k > a / d
    ensures k * d > a
  {
    assert a == (a / d) * d + a % d;
    SmallMultiple(k - a / d, d);
    assert (k - a / d) * d == k * d - (a / d) * d;
  }

  /**
   On a connection limited to `maxBw` bytes a second and paced by LiveCC, at no time have more originals left than one
   plus the number of smallest send periods since the first, whatever was submitted, acknowledged or lost and however
   late the timers fired.
   */
  lemma LiveRateNeverExceeded(cfg: SenderConfig, isn: int, maxBw: nat, xs: seq<SenderInput>, t: Instant)
    requires maxBw > 0
    requires LiveRun(SenderStart(cfg, isn, Some(PeriodFor(MAX_PAYLOAD as real, maxBw))), xs, maxBw)
    ensures
      var m := SenderRun(SenderStart(cfg, isn, Some(PeriodFor(MAX_PAYLOAD as real, maxBw))), xs);
      && |m.log| == |m.releases| && WithinRate(m.releases, MinPeriod(maxBw))
      && (MinPeriod(maxBw) > 0 && m.releases != [] && m.releases[0].at <= t ==>
            ReleasedBy(m.releases, t) <= 1 + (t - m.releases[0].at) / MinPeriod(maxBw))
  {
    var period := PeriodFor(MAX_PAYLOAD as real, maxBw);
    PeriodAtLeast(MAX_PAYLOAD as real, maxBw);
    LiveIsTimely(SenderStart(cfg, isn, Some(period)), xs, maxBw);
    RateNeverExceeded(cfg, isn, period, xs, MinPeriod(maxBw));
    var rs := SenderRun(SenderStart(cfg, isn, Some(period)), xs).releases;
    if MinPeriod(maxBw) > 0 && rs != [] && rs[0].at <= t {
      CountWithinRate(rs, MinPeriod(maxBw), t);
    }
  }

  // ---- The cumulative law ----

  /** The sum of the periods of the first `k` releases. */
  ghost function Periods(rs: seq<Release>, k: nat): nat
    requires k <= |rs|
  {
    if k == 0 then 0 else Periods(rs, k - 1) + rs[k - 1].period
  }

  lemma {:induction false} SlotsAddUp(rs: seq<Release>, i: nat, k: nat, floor: nat)
    requires Spaced(rs, floor) && i <= k < |rs|
    ensures rs[i].slot + (Periods(rs, k) - Periods(rs, i)) <= rs[k].slot
  {
    if i < k {
      SlotsAddUp(rs, i, k - 1, floor);
    }
  }

  /** From the first release on, no release comes before the periods of all earlier ones have passed. */
  ghost predicate Cumulative(rs: seq<Release>) {
    forall k :: 0 <= k < |rs| ==> rs[0].at + Periods(rs, k) <= rs[k].at
  }

  /**
   On a paced connection, whatever the periods and however they change, every original leaves no earlier than the sum of
   the periods in force at the earlier releases after the first one.
   */
  lemma ReleasesAddUp(cfg: SenderConfig, isn: int, period: nat, xs: seq<SenderInput>)
    requires Timely(xs, 0)
    ensures
      var m := SenderRun(SenderStart(cfg, isn, Some(period)), xs);
      Cumulative(m.releases) && Spaced(m.releases, 0) && |m.log| == |m.releases|
  {
    PaceRun(cfg, isn, period, xs, 0);
    var rs := SenderRun(SenderStart(cfg, isn, Some(period)), xs).releases;
    forall k | 0 <= k < |rs| ensures rs[0].at + Periods(rs, k) <= rs[k].at {
      SlotsAddUp(rs, 0, k, 0);
    }
  }

  // ---- The byte rate ----

  /** The bytes of packets `i` to `k - 1`. */
  ghost function BytesBetween(sizes: seq<nat>, i: nat, k: nat): nat
    requires i <= k <= |sizes|
  {
    if i == k then 0 else BytesBetween(sizes, i, k - 1) + sizes[k - 1]
  }

  /** Between any two slots no more than the configured rate allows. Sizes are on the wire, overhead included. */
  ghost predicate ByteRateKept(rs: seq<Release>, sizes: seq<nat>, maxBw: nat)
    requires |rs| == |sizes|
  {
    forall i, k :: 0 <= i < k < |rs| ==> BytesBetween(sizes, i, k) * 1_000_000 <= maxBw * (rs[k].slot - rs[i].slot)
  }

  /** A packet is no larger than what the period after it buys at the configured rate. */
  predicate PaysForItself(size: nat, period: nat, maxBw: nat) {
    size * 1_000_000 <= maxBw * period
  }

  /** Every packet that another one follows pays for itself. */
  ghost predicate AllPay(sizes: seq<nat>, periods: seq<nat>, maxBw: nat)
    requires |sizes| == |periods|
  {
    forall j :: 0 <= j < |sizes| - 1 ==> PaysForItself(sizes[j], periods[j], maxBw)
  }

  /** A release schedule the pacer may produce with the given periods. */
  ghost predicate IsSchedule(rs: seq<Release>, periods: seq<nat>) {
    |rs| == |periods| && Spaced(rs, 0) && forall k :: 0 <= k < |rs| ==> rs[k].period == periods[k]
  }

  lemma {:induction false} PaidBetween(rs: seq<Release>, sizes: seq<nat>, periods: seq<nat>, maxBw: nat, i: nat, k: nat)
    requires IsSchedule(rs, periods) && |sizes| == |periods| && AllPay(sizes, periods, maxBw) && i <= k < |rs|
    ensures rs[i].slot <= rs[k].slot
    ensures BytesBetween(sizes, i, k) * 1_000_000 <= maxBw * (rs[k].slot - rs[i].slot)
  {
    if i < k {
      PaidBetween(rs, sizes, periods, maxBw, i, k - 1);
      var gap, before := rs[k].slot - rs[k - 1].slot, rs[k - 1].slot - rs[i].slot;
      assert PaysForItself(sizes[k - 1], periods[k - 1], maxBw);
      Scaled(maxBw, periods[k - 1], gap);
      assert maxBw * (before + gap) == maxBw * before + maxBw * gap;
    }
  }

  lemma Scaled(a: nat, b: nat, c: nat)
    requires b <= c
    ensures a * b <= a * c
  {
    assert a * c == a * b + a * (c - b);
  }

  /** The tightest schedule: each release one period after the one before. */
  ghost function Tightest(periods: seq<nat>): (rs: seq<Release>)
    ensures |rs| == |periods|
  {
    if periods == [] then []
    else
      var n := |periods| - 1;
      var front := Tightest(periods[..n]);
      var slot := if n == 0 then 0 else front[n - 1].slot + front[n - 1].period;
      front + [Release(slot, slot, periods[n])]
  }

  lemma {:induction false} TightestIsSchedule(periods: seq<nat>)
    ensures IsSchedule(Tightest(periods), periods)
    ensures forall k, l :: 0 <= k < l == k + 1 < |periods| ==> Tightest(periods)[l].slot == Tightest(periods)[k].slot + periods[k]
  {
    if periods != [] {
      var n := |periods| - 1;
      TightestIsSchedule(periods[..n]);
      var front, rs := Tightest(periods[..n]), Tightest(periods);
      assert forall k :: 0 <= k < n ==> rs[k] == front[k] && periods[k] == periods[..n][k];
    }
  }

  /**
   The configured byte rate is kept on every schedule the pacer may produce if and only if every packet that another
   one follows is no larger than its own period buys.
   */
  lemma ByteRateIff(sizes: seq<nat>, periods: seq<nat>, maxBw: nat)
    requires |sizes| == |periods|
    ensures (forall rs: seq<Release> :: IsSchedule(rs, periods) ==> ByteRateKept(rs, sizes, maxBw)) <==> AllPay(sizes, periods, maxBw)
  {
    if AllPay(sizes, periods, maxBw) {
      forall rs: seq<Release> | IsSchedule(rs, periods) ensures ByteRateKept(rs, sizes, maxBw) {
        forall i, k | 0 <= i < k < |rs|
          ensures BytesBetween(sizes, i, k) * 1_000_000 <= maxBw * (rs[k].slot - rs[i].slot)
        {
          PaidBetween(rs, sizes, periods, maxBw, i, k);
        }
      }
    }
    var tight := Tightest(periods);
    TightestIsSchedule(periods);
    if ByteRateKept(tight, sizes, maxBw) {
      forall j | 0 <= j < |sizes| - 1 ensures PaysForItself(sizes[j], periods[j], maxBw) {
        assert BytesBetween(sizes, j, j + 1) == BytesBetween(sizes, j, j) + sizes[j];
        assert tight[j + 1].slot - tight[j].slot == periods[j];
      }
    }
  }

  /** What LiveCC's period buys: never a packet larger than the rounded average it was computed from. */
  lemma LargerNeverPays(payload: nat, avg: real, maxBw: nat)
    requires avg >= 0.0 && maxBw > 0 && payload > Round(avg)
    ensures !PaysForItself(payload + WIRE_OVERHEAD, PeriodFor(avg, maxBw), maxBw)
  {
    var bytes := SaturatingMul(Round(avg) + WIRE_OVERHEAD, 1_000_000);
    assert bytes == maxBw * (bytes / maxBw) + bytes % maxBw;
  }

  /** The wire sizes of the originals. */
  ghost function WireSizes(log: seq<DataPacket>): (r: seq<nat>)
    ensures |r| == |log|
  {
    seq(|log|, k requires 0 <= k < |log| => |log[k].payload| + WIRE_OVERHEAD)
  }

  ghost function PeriodsOf(rs: seq<Release>): (r: seq<nat>)
    ensures |r| == |rs|
  {
    seq(|rs|, k requires 0 <= k < |rs| => rs[k].period)
  }

  /** Every run of a paced connection in which each packet pays for itself keeps the configured byte rate. */
  lemma PaidRunsKeepTheRate(cfg: SenderConfig, isn: int, period: nat, xs: seq<SenderInput>, maxBw: nat)
    requires Timely(xs, 0)
    requires
      var m := SenderRun(SenderStart(cfg, isn, Some(period)), xs);
      |m.log| == |m.releases| ==> AllPay(WireSizes(m.log), PeriodsOf(m.releases), maxBw)
    ensures
      var m := SenderRun(SenderStart(cfg, isn, Some(period)), xs);
      |m.log| == |m.releases| && ByteRateKept(m.releases, WireSizes(m.log), maxBw)
  {
    ReleasesAddUp(cfg, isn, period, xs);
    var m := SenderRun(SenderStart(cfg, isn, Some(period)), xs);
    ByteRateIff(WireSizes(m.log), PeriodsOf(m.releases), maxBw);
    assert IsSchedule(m.releases, PeriodsOf(m.releases));
  }

  // ---- A run that exceeds the byte rate ----

  /** A packet submitted to an idle pacer whose slot is due leaves at once. */
  lemma ReleaseNow(m: SenderModel, f: Fragment, now: Instant, p: nat)
    requires m.connected && !m.closing && m.period == Some(p) && p > 0 && m.queue == []
    requires m.nextSend.None? || m.nextSend.value == now
    ensures
      var r := Submit(m, [f], now);
      && r.releases == m.releases + [Release(now, now, p)] && r.nextSend == Some(now + p)
      && r.log == m.log + [MakePacket(m.cfg, m.next, f, now)] && r.next == m.next + 1
      && r.window == m.window + [Sent(MakePacket(m.cfg, m.next, f, now), None)]
      && r.queue == [] && r.connected && !r.closing && r.period == m.period && r.cfg == m.cfg
  {
    var accepted := m.(messages := m.messages + [[f]], queue := m.queue + [f]);
    assert accepted.queue == [f] && [f][1..] == [];
    var one := PaceOne(accepted, now, p);
    assert PaceLoop(one, now, p, 1) == (one, 1);
    assert PaceLoop(accepted, now, p, 0) == PaceLoop(one, now, p, 1);
  }

  /** An acknowledgement of nothing new, with nothing late, only moves the period. */
  lemma AckMovesPeriod(m: SenderModel, now: Instant, recomputed: nat)
    requires m.connected && !m.closing && m.period.Some? && m.window != []
    requires WrappingDiff(WireTs(m.cfg.start, now), m.window[0].packet.timestamp) == 0
    ensures OnAck(m, Wire(Front(m)), false, now, recomputed) == m.(period := Some(recomputed))
  {
    StaleAckReleasesNothing(m, Front(m));
    assert LateCount(m.window, WireTs(m.cfg.start, now), Budget(m.cfg.latency)) == 0;
  }

  function Filled(n: nat): Bytes {
    seq(n, _ => 0)
  }

  const SMALL: Fragment := Fragment([], Single, 0)
  const FULL: Fragment := Fragment(Filled(MAX_PAYLOAD), Single, 0)

  /** An empty packet, an acknowledgement that lowers the period to its average, then two full packets. */
  function LaggingRun(isn: int): seq<SenderInput> {
    [Message([SMALL], 0), AckIn(Wire(isn), false, 0, 878), Message([FULL], 1000), Message([FULL], 1878)]
  }

  lemma LaggingPeriod(packet: DataPacket)
    requires packet.payload == []
    ensures Average([packet]) == 1274.0 && PeriodFor(1274.0, 1_500_000) == 878 && PeriodFor(MAX_PAYLOAD as real, 1_500_000) == 1000
  {
    assert [packet][..0] == [];
    assert Round(1274.0) == 1274 && Round(1456.0) == 1456;
  }

  /** The states of that run: full packets leave 878 microseconds apart. */
  lemma LaggingReleases(cfg: SenderConfig, isn: int)
    ensures
      var m := SenderRun(SenderStart(cfg, isn, Some(1000)), LaggingRun(isn));
      && m.releases == [Release(0, 0, 1000), Release(1000, 1000, 878), Release(1878, 1878, 878)]
      && |m.log| == 3 && |m.log[1].payload| == MAX_PAYLOAD
    ensures LiveRun(SenderStart(cfg, isn, Some(1000)), LaggingRun(isn), 1_500_000)
  {
    var start := SenderStart(cfg, isn, Some(1000));
    var a, b := Message([SMALL], 0), AckIn(Wire(isn), false, 0, 878);
    var c, d := Message([FULL], 1000), Message([FULL], 1878);
    LiveSnoc(start, [], a, 1_500_000);
    LiveSnoc(start, [a], b, 1_500_000);
    LiveSnoc(start, [a, b], c, 1_500_000);
    LiveSnoc(start, [a, b, c], d, 1_500_000);
    assert [] + [a] == [a] && [a] + [b] == [a, b] && [a, b] + [c] == [a, b, c] && [a, b, c] + [d] == LaggingRun(isn);
    LaggingStates(start);
  }

  lemma LiveSnoc(start: SenderModel, xs: seq<SenderInput>, x: SenderInput, maxBw: nat)
    requires maxBw > 0
    ensures SenderRun(start, xs + [x]) == SenderStep(SenderRun(start, xs), x)
    ensures Clock(xs + [x]) == if TimeOf(x).Some? then TimeOf(x).value else Clock(xs)
    ensures LiveRun(start, xs + [x], maxBw) <==>
              && LiveRun(start, xs, maxBw) && (TimeOf(x).Some? ==> Clock(xs) <= TimeOf(x).value)
              && (x.AckIn? ==> x.recomputed == PeriodFor(Average(SenderRun(start, xs).log), maxBw))
  {
    assert (xs + [x])[..|xs|] == xs;
  }

  lemma LaggingStates(start: SenderModel)
    requires start == SenderStart(start.cfg, start.isn, Some(1000))
    ensures
      var m1 := Submit(start, [SMALL], 0);
      var m2 := OnAck(m1, Wire(start.isn), false, 0, 878);
      var m4 := Submit(Submit(m2, [FULL], 1000), [FULL], 1878);
      && PeriodFor(Average(m1.log), 1_500_000) == 878
      && m4.releases == [Release(0, 0, 1000), Release(1000, 1000, 878), Release(1878, 1878, 878)]
      && |m4.log| == 3 && |m4.log[1].payload| == MAX_PAYLOAD
  {
    EmptyThenAck(start);
    TwoFull(OnAck(Submit(start, [SMALL], 0), Wire(start.isn), false, 0, 878));
  }

  ghost predicate IdleAt(m: SenderModel, next: Instant, period: nat) {
    m.connected && !m.closing && m.period == Some(period) && m.queue == [] && m.nextSend == Some(next)
  }

  lemma EmptyThenAck(start: SenderModel)
    requires start == SenderStart(start.cfg, start.isn, Some(1000))
    ensures
      var m1 := Submit(start, [SMALL], 0);
      var m2 := OnAck(m1, Wire(start.isn), false, 0, 878);
      && PeriodFor(Average(m1.log), 1_500_000) == 878
      && IdleAt(m2, 1000, 878) && m2.releases == [Release(0, 0, 1000)] && |m2.log| == 1
  {
    var m1 := Submit(start, [SMALL], 0);
    EmptySent(start);
    LaggingPeriod(m1.log[0]);
    DiffExact(SatSub(0, start.cfg.start), SatSub(0, start.cfg.start));
    AckMovesPeriod(m1, 0, 878);
  }

  lemma EmptySent(start: SenderModel)
    requires start == SenderStart(start.cfg, start.isn, Some(1000))
    ensures
      var m := Submit(start, [SMALL], 0);
      && IdleAt(m, 1000, 1000) && m.releases == [Release(0, 0, 1000)]
      && |m.log| == 1 && m.log == [m.log[0]] && m.log[0].payload == [] && m.cfg == start.cfg
      && |m.window| == 1 && m.window[0].packet.timestamp == WireTs(start.cfg.start, 0) && Front(m) == start.isn
  {
    ReleaseNow(start, SMALL, 0, 1000);
  }

  lemma TwoFull(m: SenderModel)
    requires IdleAt(m, 1000, 878) && m.releases == [Release(0, 0, 1000)] && |m.log| == 1
    ensures
      var r := Submit(Submit(m, [FULL], 1000), [FULL], 1878);
      && r.releases == [Release(0, 0, 1000), Release(1000, 1000, 878), Release(1878, 1878, 878)]
      && |r.log| == 3 && |r.log[1].payload| == MAX_PAYLOAD
  {
    ReleaseNow(m, FULL, 1000, 878);
    ReleaseNow(Submit(m, [FULL], 1000), FULL, 1878, 878);
  }

  /**
   The byte rate can be exceeded: at 1,500,000 bytes a second, after one empty packet and an acknowledgement, full
   packets of 1500 bytes leave 878 microseconds apart, at more than 1,700,000 bytes a second.
   */
  lemma ByteRateCanFail(cfg: SenderConfig, isn: int)
    ensures
      var m := SenderRun(SenderStart(cfg, isn, Some(PeriodFor(MAX_PAYLOAD as real, 1_500_000))), LaggingRun(isn));
      && LiveRun(SenderStart(cfg, isn, Some(PeriodFor(MAX_PAYLOAD as real, 1_500_000))), LaggingRun(isn), 1_500_000)
      && |m.log| == |m.releases| && !ByteRateKept(m.releases, WireSizes(m.log), 1_500_000)
  {
    LaggingReleases(cfg, isn);
    LaggingPeriod(FirstOf(cfg));
    var m := SenderRun(SenderStart(cfg, isn, Some(1000)), LaggingRun(isn));
    var sizes := WireSizes(m.log);
    assert sizes[1] == 1500;
    assert BytesBetween(sizes, 1, 2) == BytesBetween(sizes, 1, 1) + sizes[1] == 1500;
  }

  function FirstOf(cfg: SenderConfig): DataPacket {
    MakePacket(cfg, 0, SMALL, 0)
  }
}
