/**
 32-bit wrapping packet timestamps (timestamp.rs) and their unwrapping into an unbounded clock.
 */
module Timestamps {

  const PERIOD: int := 0x1_0000_0000
  const HALF_PERIOD: int := 0x8000_0000

  type Timestamp = t: int | 0 <= t < PERIOD

  /** The wire stamp of a true time in microseconds. */
  function Stamp(t: int): Timestamp {
    t % PERIOD
  }

  /** `self - other` as a signed 32-bit difference. */
  function WrappingDiff(t: Timestamp, other: Timestamp): (d: int)
    ensures -HALF_PERIOD <= d < HALF_PERIOD
    ensures (other + d) % PERIOD == t
  {
    var forward := (t - other) % PERIOD;
    if forward < HALF_PERIOD then forward else forward - PERIOD
  }

  /** The true time with stamp `ts` in `[reference - 2^31, reference + 2^31)`. */
  function ResolveTime(reference: int, ts: Timestamp): (t: int)
    ensures Stamp(t) == ts
    ensures reference - HALF_PERIOD <= t < reference + HALF_PERIOD
  {
    reference + WrappingDiff(ts, Stamp(reference))
  }

  function Max(a: int, b: int): int {
    if a < b then b else a
  }

  /** The newest true time after seeing one more stamp. */
  function Newest(newest: int, ts: Timestamp): int {
    Max(newest, ResolveTime(newest, ts))
  }

  lemma DiffExact(t: int, u: int)
    ensures WrappingDiff(Stamp(t), Stamp(u)) == t - u <==> -HALF_PERIOD <= t - u < HALF_PERIOD
  {
    if -HALF_PERIOD <= t - u < HALF_PERIOD {
      assert (Stamp(t) - Stamp(u)) % PERIOD == (t - u) % PERIOD;
    }
  }

  lemma ResolveTimeExact(reference: int, t: int)
    ensures ResolveTime(reference, Stamp(t)) == t <==> reference - HALF_PERIOD <= t < reference + HALF_PERIOD
  {
    DiffExact(t, reference);
  }

  /**
   The wrap tracker. `newest` is the true time of the newest stamp, counted from the start of the period the
   first stamp fell in; `Valid` says the two stored fields are that integer split at the period boundary.
   */
  class TsbpdWrap {
    var base: int
    var last: Timestamp
    ghost var newest: int

    ghost predicate Valid()
      reads this
    {
      && base >= 0 && base % PERIOD == 0
      && newest == base + last
    }

    constructor (first: Timestamp)
      ensures Valid() && newest == first
    {
      base, last := 0, first;
      newest := first;
    }

    /** Re-anchors the tracker on a first stamp. */
    method Anchor(first: Timestamp)
      modifies this
      ensures Valid() && newest == first
    {
      base, last := 0, first;
      newest := first;
    }

    method Observe(ts: Timestamp)
      requires Valid()
      modifies this
      ensures Valid() && newest == Newest(old(newest), ts)
    {
      StampLast(base, last);
      if WrappingDiff(ts, last) > 0 {
        if ts < last {
          base := base + PERIOD;
        }
        last := ts;
        newest := base + last;
      }
    }

    function OffsetOf(ts: Timestamp): (t: int)
      requires Valid()
      reads this
      ensures t == ResolveTime(newest, ts)
    {
      StampLast(base, last);
      base + last + WrappingDiff(ts, last)
    }
  }

  lemma StampLast(base: int, last: Timestamp)
    requires base % PERIOD == 0
    ensures Stamp(base + last) == last
  {
  }

  /** The newest time after a whole run of true times. */
  ghost function RunNewest(first: int, times: seq<int>): int {
    if times == [] then first
    else Max(RunNewest(first, times[..|times| - 1]), times[|times| - 1])
  }

  /** Every time of the run is within half a period of the newest time before it. */
  ghost predicate NearRun(first: int, times: seq<int>) {
    forall k :: 0 <= k < |times| ==> Near(RunNewest(first, times[..k]), times[k])
  }

  ghost predicate Near(reference: int, t: int) {
    -HALF_PERIOD <= t - reference < HALF_PERIOD
  }

  /** The tracker state after observing the stamps of a run whose first true time is `first`. */
  ghost function Track(first: int, times: seq<int>): int {
    if times == [] then Stamp(first)
    else Newest(Track(first, times[..|times| - 1]), Stamp(times[|times| - 1]))
  }

  /** A clock shifted by whole periods resolves stamps to shifted times. */
  lemma ResolveShifted(reference: int, origin: int, t: int)
    requires Near(reference, t)
    ensures ResolveTime(reference - origin + Stamp(origin), Stamp(t)) == t - origin + Stamp(origin)
  {
    var shift := Stamp(origin) - origin;
    assert shift % PERIOD == 0;
    assert Stamp(t + shift) == Stamp(t);
    ResolveTimeExact(reference + shift, t + shift);
  }

  /**
   Unwrapping refines the unbounded clock: over a run of any length and any number of wraps the tracker state
   is the true newest time, counted from the start of the period the first time fell in.
   */
  lemma {:induction false} TrackIsNewest(first: int, times: seq<int>)
    requires NearRun(first, times)
    ensures Track(first, times) == RunNewest(first, times) - first + Stamp(first)
  {
    if times != [] {
      var front := times[..|times| - 1];
      assert forall k :: 0 <= k < |front| ==> front[..k] == times[..k];
      TrackIsNewest(first, front);
      assert Near(RunNewest(first, times[..|times| - 1]), times[|times| - 1]);
      ResolveShifted(RunNewest(first, front), first, times[|times| - 1]);
    }
  }

  /** The offset of any stamp near the newest time, minus the first stamp, is the true elapsed time. */
  lemma ElapsedExact(first: int, times: seq<int>, t: int)
    requires NearRun(first, times) && Near(RunNewest(first, times), t)
    ensures ResolveTime(Track(first, times), Stamp(t)) - Stamp(first) == t - first
  {
    TrackIsNewest(first, times);
    ElapsedFrom(Track(first, times), RunNewest(first, times), first, t);
  }

  lemma ElapsedFrom(track: int, newest: int, first: int, t: int)
    requires track == newest - first + Stamp(first) && Near(newest, t)
    ensures ResolveTime(track, Stamp(t)) - Stamp(first) == t - first
  {
    ResolveShifted(newest, first, t);
  }

  /** Observing a straggler from before the newest time, however old its period, changes no answer. */
  lemma StragglerIgnored(first: int, times: seq<int>, t: int)
    requires NearRun(first, times) && Near(RunNewest(first, times), t)
    requires t <= RunNewest(first, times)
    ensures Track(first, times + [t]) == Track(first, times)
  {
    TrackIsNewest(first, times);
    ElapsedExact(first, times, t);
    var longer := times + [t];
    assert longer[..|longer| - 1] == times && longer[|longer| - 1] == t;
  }
}
