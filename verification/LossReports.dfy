/**
 How the sender answers a loss report: exactly the buffered, due packets the report names are resent, once each
 and in order (connection/arq.rs: `on_nak`, `retransmit_range`, `in_range`).
 */
module LossReports {
  import opened Options
  import opened SeqNumbers
  import opened Packets
  import opened RecvBuffers
  import opened SendBuffers
  import opened ArqModel

  /** Numbers one or more whole spaces apart are the same on the wire. */
  lemma WireAlias(i: int, lo: int) returns (d: nat)
    ensures d < COUNT && d == (i - lo) % COUNT && Wire(lo + d) == Wire(i) && Wire(lo + d - COUNT) == Wire(i)
  {
    d := (i - lo) % COUNT;
    var q := (i - lo) / COUNT;
    assert i == lo + d + q * COUNT;
  }

  /** For a range shorter than half the space the test is exact on the wire: it holds of the numbers the range names. */
  lemma InRangeCircular(i: int, lo: int, hi: int)
    requires lo <= hi < lo + HALF
    ensures InRange(Wire(i), Wire(lo), Wire(hi)) <==> (i - lo) % COUNT <= hi - lo
  {
    var d := WireAlias(i, lo);
    if d < HALF {
      OffsetOf(lo + d, lo);
      OffsetOf(hi, lo + d);
    } else {
      OffsetOf(lo + d - COUNT, lo);
    }
  }

  /** Hence it is integer membership for every index that shares no number with another index of the range. */
  lemma InRangeExact(i: int, lo: int, hi: int)
    requires lo <= hi < lo + HALF && hi - COUNT < i < lo + COUNT
    ensures InRange(Wire(i), Wire(lo), Wire(hi)) <==> lo <= i <= hi
  {
    InRangeCircular(i, lo, hi);
    ModBySign(i - lo);
  }

  lemma ModBySign(d: int)
    requires -COUNT < d < COUNT
    ensures d % COUNT == if d < 0 then d + COUNT else d
  {
  }

  /** A range of half the space or more is misread: the packet it starts at is not in it. */
  lemma InRangeFails(lo: int, hi: int)
    requires lo + HALF <= hi < lo + COUNT
    ensures !InRange(Wire(lo), Wire(lo), Wire(hi))
  {
    OffsetOf(hi - COUNT, lo);
    WirePeriod(hi);
  }

  /** Integer membership on the indices around a range. */
  ghost predicate ReadsExactly(lo: int, hi: int) {
    forall i {:trigger Wire(i)} :: hi - COUNT < i < lo + COUNT ==>
      (InRange(Wire(i), Wire(lo), Wire(hi)) <==> lo <= i <= hi)
  }

  /** The range test means what it says if and only if the range is shorter than half the number space. */
  lemma InRangeIff(lo: int, hi: int)
    requires lo <= hi < lo + COUNT
    ensures ReadsExactly(lo, hi) <==> hi - lo < HALF
  {
    if hi - lo < HALF {
      forall i | hi - COUNT < i < lo + COUNT ensures InRange(Wire(i), Wire(lo), Wire(hi)) <==> lo <= i <= hi {
        InRangeExact(i, lo, hi);
      }
    } else {
      InRangeFails(lo, hi);
    }
  }

  /** The window is the widest possible: just outside it another index carries a number of the range. */
  lemma InRangeAliases(lo: int, hi: int)
    requires lo <= hi < lo + HALF
    ensures InRange(Wire(hi - COUNT), Wire(lo), Wire(hi)) && InRange(Wire(lo + COUNT), Wire(lo), Wire(hi))
  {
    WirePeriod(hi);
    WirePeriod(lo);
    InRangeExact(lo, lo, hi);
    InRangeExact(hi, lo, hi);
  }

  lemma WirePeriod(i: int)
    ensures Wire(i - COUNT) == Wire(i) == Wire(i + COUNT)
  {
  }

  ghost predicate Rising(ids: seq<int>) {
    forall a, b :: 0 <= a < b < |ids| ==> ids[a] < ids[b]
  }

  ghost function ResendsOf(ids: seq<int>, now: Instant, gate: nat): (r: seq<Resend>)
    ensures |r| == |ids|
  {
    seq(|ids|, k requires 0 <= k < |ids| => Resend(ids[k], now, gate))
  }

  /** The stored packet of index `i`. */
  ghost function Stored(m: SenderModel, i: int): Sent
    requires Front(m) <= i < m.next
  {
    m.window[i - Front(m)]
  }

  ghost predicate InBuffer(m: SenderModel, i: int) {
    Front(m) <= i < m.next
  }

  /** The datagrams that resend `ids`: the stored packets, verbatim with the R flag set. */
  ghost function DatagramsOf(m: SenderModel, ids: seq<int>): (r: seq<Msg>)
    requires forall k :: 0 <= k < |ids| ==> InBuffer(m, ids[k])
    ensures |r| == |ids|
  {
    seq(|ids|, k requires 0 <= k < |ids| && InBuffer(m, ids[k]) => Data(ids[k], Stored(m, ids[k]).packet.(retransmitted := true)))
  }

  /** `r` is `m` after resending exactly the indices `ids`, in that order. */
  ghost predicate ResentInTurn(m: SenderModel, r: SenderModel, ids: seq<int>, now: Instant, gate: nat) {
    && r.next == m.next && |r.window| == |m.window|
    && (forall k :: 0 <= k < |ids| ==> InBuffer(m, ids[k]))
    && r.resends == m.resends + ResendsOf(ids, now, gate)
    && r.emitted == m.emitted + DatagramsOf(m, ids)
    && (forall i :: InBuffer(m, i) ==> Stored(r, i) == if i in ids then Sent(Stored(m, i).packet, Some(now)) else Stored(m, i))
  }

  /** As before, each once and in rising order. */
  ghost predicate Resent(m: SenderModel, r: SenderModel, ids: seq<int>, now: Instant, gate: nat) {
    ResentInTurn(m, r, ids, now, gate) && Rising(ids)
  }

  lemma ResendsSnoc(ids: seq<int>, i: int, now: Instant, gate: nat)
    ensures ResendsOf(ids + [i], now, gate) == ResendsOf(ids, now, gate) + [Resend(i, now, gate)]
  {
  }

  lemma DatagramsSnoc(m: SenderModel, ids: seq<int>, i: int)
    requires forall k :: 0 <= k < |ids| ==> InBuffer(m, ids[k])
    requires InBuffer(m, i)
    ensures DatagramsOf(m, ids + [i]) == DatagramsOf(m, ids) + [Data(i, Stored(m, i).packet.(retransmitted := true))]
  {
  }

  /** One more packet resent after `ids`. */
  lemma ResentSnoc(m: SenderModel, r: SenderModel, ids: seq<int>, k: nat, now: Instant, gate: nat)
    requires Resent(m, r, ids, now, gate) && k < |r.window|
    requires forall a :: 0 <= a < |ids| ==> ids[a] < Front(m) + k
    ensures Resent(m, ResendAt(r, k, now, gate), ids + [Front(m) + k], now, gate)
  {
    var i := Front(m) + k;
    assert i !in ids;
    ResendsSnoc(ids, i, now, gate);
    DatagramsSnoc(m, ids, i);
    var s := ResendAt(r, k, now, gate);
    assert Stored(r, i) == Stored(m, i);
    forall j | InBuffer(m, j)
      ensures Stored(s, j) == if j in ids + [i] then Sent(Stored(m, j).packet, Some(now)) else Stored(m, j)
    {
      if j != i {
        assert Stored(s, j) == Stored(r, j);
      }
    }
  }

  ghost predicate Chosen(m: SenderModel, range: LossRange, now: Instant, gate: nat, i: int) {
    InBuffer(m, i) && InRange(Wire(i), range.start, range.end) && Due(Stored(m, i).lastRetransmit, now, gate)
  }

  /** One loss range resends exactly the buffered due packets it contains. */
  lemma {:induction false} RangeExact(m: SenderModel, range: LossRange, now: Instant, gate: nat, n: nat) returns (ids: seq<int>)
    requires n <= |m.window|
    ensures Resent(m, ResendUpTo(m, range, now, gate, n), ids, now, gate)
    ensures forall i :: i in ids <==> i < Front(m) + n && Chosen(m, range, now, gate, i)
  {
    if n == 0 {
      ids := [];
      assert m.resends + ResendsOf(ids, now, gate) == m.resends;
      assert m.emitted + DatagramsOf(m, ids) == m.emitted;
    } else {
      var before := RangeExact(m, range, now, gate, n - 1);
      ids := RangeStep(m, ResendUpTo(m, range, now, gate, n - 1), before, range, now, gate, n - 1);
    }
  }

  lemma RangeStep(m: SenderModel, r: SenderModel, before: seq<int>, range: LossRange, now: Instant, gate: nat, k: nat)
    returns (ids: seq<int>)
    requires Resent(m, r, before, now, gate) && k < |m.window|
    requires forall i :: i in before <==> i < Front(m) + k && Chosen(m, range, now, gate, i)
    ensures Resent(m, if Wanted(r, k, range, now, gate) then ResendAt(r, k, now, gate) else r, ids, now, gate)
    ensures forall i :: i in ids <==> i < Front(m) + k + 1 && Chosen(m, range, now, gate, i)
  {
    var i := Front(m) + k;
    assert InBuffer(m, i) && i !in before;
    assert Stored(r, i) == Stored(m, i);
    ids := before;
    if Wanted(r, k, range, now, gate) {
      ResentSnoc(m, r, before, k, now, gate);
      ids := before + [i];
    }
  }

  lemma ResendsConcat(a: seq<int>, b: seq<int>, now: Instant, gate: nat)
    ensures ResendsOf(a + b, now, gate) == ResendsOf(a, now, gate) + ResendsOf(b, now, gate)
  {
  }

  lemma SamePackets(m: SenderModel, r: SenderModel, a: seq<int>, b: seq<int>)
    requires forall k :: 0 <= k < |a| ==> InBuffer(m, a[k])
    requires forall k :: 0 <= k < |b| ==> InBuffer(m, b[k]) && InBuffer(r, b[k]) && Stored(r, b[k]).packet == Stored(m, b[k]).packet
    ensures DatagramsOf(m, a + b) == DatagramsOf(m, a) + DatagramsOf(r, b)
  {
  }

  lemma TurnsConcat(m: SenderModel, r: SenderModel, s: SenderModel, ids: seq<int>, more: seq<int>, now: Instant, gate: nat)
    requires ResentInTurn(m, r, ids, now, gate) && ResentInTurn(r, s, more, now, gate)
    ensures ResentInTurn(m, s, ids + more, now, gate)
  {
    forall b | 0 <= b < |more| ensures InBuffer(m, more[b]) && Stored(r, more[b]).packet == Stored(m, more[b]).packet {
      assert InBuffer(r, more[b]);
    }
    ResendsConcat(ids, more, now, gate);
    SamePackets(m, r, ids, more);
    assert s.resends == m.resends + (ResendsOf(ids, now, gate) + ResendsOf(more, now, gate));
    assert s.emitted == m.emitted + (DatagramsOf(m, ids) + DatagramsOf(r, more));
    forall i | InBuffer(m, i)
      ensures Stored(s, i) == if i in ids + more then Sent(Stored(m, i).packet, Some(now)) else Stored(m, i)
    {
      assert InBuffer(r, i);
    }
  }

  lemma ResentConcat(m: SenderModel, r: SenderModel, s: SenderModel, ids: seq<int>, more: seq<int>, now: Instant, gate: nat)
    requires Resent(m, r, ids, now, gate) && Resent(r, s, more, now, gate)
    requires forall a, b :: 0 <= a < |ids| && 0 <= b < |more| ==> ids[a] < more[b]
    ensures Resent(m, s, ids + more, now, gate)
  {
    TurnsConcat(m, r, s, ids, more, now, gate);
  }

  /** The span is short enough to be read exactly, and no buffered packet shares a number with another index of it. */
  ghost predicate Reachable(m: SenderModel, span: Span) {
    span.hi - span.lo < HALF && forall i :: InBuffer(m, i) ==> span.hi - COUNT < i < span.lo + COUNT
  }

  ghost predicate Answered(m: SenderModel, spans: seq<Span>, now: Instant, gate: nat, ids: seq<int>) {
    forall i :: i in ids <==> InBuffer(m, i) && Covers(spans, i) && Due(Stored(m, i).lastRetransmit, now, gate)
  }

  lemma SpanStep(m: SenderModel, r: SenderModel, spans: seq<Span>, last: Span, now: Instant, gate: nat, ids: seq<int>)
    returns (js: seq<int>)
    requires Separated(spans + [last]) && Reachable(m, last)
    requires Resent(m, r, ids, now, gate) && Answered(m, spans, now, gate, ids)
    ensures Resent(m, ResendRange(r, WireRange(last), now, gate), ids + js, now, gate)
    ensures Answered(m, spans + [last], now, gate, ids + js)
  {
    js := RangeExact(r, WireRange(last), now, gate, |r.window|);
    assert (spans + [last])[|spans|] == last;
    forall i | InBuffer(m, i) ensures InRange(Wire(i), Wire(last.lo), Wire(last.hi)) <==> last.lo <= i <= last.hi {
      InRangeExact(i, last.lo, last.hi);
    }
    forall k | 0 <= k < |ids| ensures ids[k] < last.lo {
      assert ids[k] in ids;
      var l :| 0 <= l < |spans| && spans[l].lo <= ids[k] <= spans[l].hi;
      assert (spans + [last])[l] == spans[l] && (spans + [last])[|spans|] == last;
    }
    forall b | 0 <= b < |js| ensures last.lo <= js[b] {
      assert js[b] in js;
    }
    ResentConcat(m, r, ResendRange(r, WireRange(last), now, gate), ids, js, now, gate);
    forall i ensures i in ids + js <==> InBuffer(m, i) && Covers(spans + [last], i) && Due(Stored(m, i).lastRetransmit, now, gate) {
      CoversSnoc(spans, last, i);
      if InBuffer(m, i) && i !in ids {
        assert Stored(r, i) == Stored(m, i);
      }
    }
  }

  /**
   A loss report is answered exactly: the packets resent are, once each and in rising order, those buffered packets
   the report covers that were not resent within a round trip.
   */
  lemma {:induction false} ReportAnsweredExactly(m: SenderModel, spans: seq<Span>, now: Instant, gate: nat) returns (ids: seq<int>)
    requires Separated(spans) && forall k :: 0 <= k < |spans| ==> Reachable(m, spans[k])
    ensures Resent(m, ResendRanges(m, WireRanges(spans), now, gate), ids, now, gate)
    ensures Answered(m, spans, now, gate, ids)
  {
    if spans == [] {
      ids := [];
      assert m.resends + ResendsOf(ids, now, gate) == m.resends;
      assert m.emitted + DatagramsOf(m, ids) == m.emitted;
    } else {
      var front, last := spans[..|spans| - 1], spans[|spans| - 1];
      ids := ReportAnsweredExactly(m, front, now, gate);
      assert WireRanges(spans)[..|spans| - 1] == WireRanges(front);
      assert spans == front + [last];
      var r := ResendRanges(m, WireRanges(front), now, gate);
      var js := SpanStep(m, r, front, last, now, gate, ids);
      ids := ids + js;
    }
  }

  // ---- Any report whatever ----

  /** Some range of the report names the number. */
  ghost predicate Named(ranges: seq<LossRange>, i: int) {
    exists k :: 0 <= k < |ranges| && InRange(Wire(i), ranges[k].start, ranges[k].end)
  }

  ghost predicate NamedAndDue(m: SenderModel, ranges: seq<LossRange>, now: Instant, gate: nat, i: int) {
    InBuffer(m, i) && Named(ranges, i) && Due(Stored(m, i).lastRetransmit, now, gate)
  }

  lemma NamedNext(ranges: seq<LossRange>, range: LossRange, i: int)
    ensures Named(ranges + [range], i) <==> Named(ranges, i) || InRange(Wire(i), range.start, range.end)
  {
    var longer := ranges + [range];
    assert longer[|ranges|] == range;
    if Named(ranges, i) {
      var k :| 0 <= k < |ranges| && InRange(Wire(i), ranges[k].start, ranges[k].end);
      assert longer[k] == ranges[k];
    }
    if Named(longer, i) && !InRange(Wire(i), range.start, range.end) {
      var k :| 0 <= k < |longer| && InRange(Wire(i), longer[k].start, longer[k].end);
      assert ranges[k] == longer[k];
    }
  }

  lemma TurnMembers(
    m: SenderModel, r: SenderModel, ranges: seq<LossRange>, range: LossRange, now: Instant, gate: nat, ids: seq<int>, js: seq<int>)
    requires ResentInTurn(m, r, ids, now, gate)
    requires forall i :: i in ids <==> NamedAndDue(m, ranges, now, gate, i)
    requires forall i :: i in js <==> Chosen(r, range, now, gate, i)
    ensures forall i :: i in ids + js <==> NamedAndDue(m, ranges + [range], now, gate, i)
    ensures gate > 0 ==> forall i :: i in js ==> i !in ids
  {
    forall i ensures i in ids + js <==> NamedAndDue(m, ranges + [range], now, gate, i) {
      NamedNext(ranges, range, i);
      if InBuffer(m, i) {
        assert InBuffer(r, i);
      }
      if InBuffer(r, i) {
        assert InBuffer(m, i);
      }
    }
  }

  ghost predicate NoRepeats(ids: seq<int>) {
    forall a, b :: 0 <= a < b < |ids| ==> ids[a] != ids[b]
  }

  /**
   Any report a peer may send, however long its ranges and in whatever order: exactly the buffered, due packets whose
   numbers some range names are resent and stamped; and while the gate is open by more than nothing, once each.
   */
  lemma {:induction false} AnyReportAnswered(m: SenderModel, ranges: seq<LossRange>, now: Instant, gate: nat) returns (ids: seq<int>)
    ensures ResentInTurn(m, ResendRanges(m, ranges, now, gate), ids, now, gate)
    ensures forall i :: i in ids <==> NamedAndDue(m, ranges, now, gate, i)
    ensures gate > 0 ==> NoRepeats(ids)
  {
    if ranges == [] {
      ids := [];
      assert m.resends + ResendsOf(ids, now, gate) == m.resends;
      assert m.emitted + DatagramsOf(m, ids) == m.emitted;
    } else {
      var front, last := ranges[..|ranges| - 1], ranges[|ranges| - 1];
      var before := AnyReportAnswered(m, front, now, gate);
      var r := ResendRanges(m, front, now, gate);
      var js := RangeExact(r, last, now, gate, |r.window|);
      assert ranges == front + [last];
      TurnMembers(m, r, front, last, now, gate, before, js);
      TurnsConcat(m, r, ResendRange(r, last, now, gate), before, js, now, gate);
      ids := before + js;
    }
  }
}
