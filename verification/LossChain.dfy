/** The loss path end to end: what the receiver lacks, reported, encoded, decoded and answered by the sender. */
module LossChain {
  import opened SeqNumbers
  import opened RecvBuffers
  import opened SendBuffers
  import opened ArqModel
  import opened LossReports
  import opened SR = SenderRuns
  import opened RR = ReceiverRuns
  import AS = ArqSystem
  import LossLists

  /**
   A loss report survives the wire, and the packets it makes the sender resend are exactly those the receiver lacks
   between its base and the reported limit, that the sender still holds, and that were not resent within a round trip.
   */
  lemma LossesResentExactly(v: RecvView, limit: int, spans: seq<Span>, m: SenderModel, now: Instant, gate: nat)
    returns (ids: seq<int>)
    requires IsLossList(v, limit, spans) && (forall k :: 0 <= k < |spans| ==> Reachable(m, spans[k]))
    ensures var decoded := LossLists.Decoded(LossLists.Encoded(WireRanges(spans)));
            decoded.Ok? && Resent(m, ResendRanges(m, decoded.ranges, now, gate), ids, now, gate)
    ensures forall i :: i in ids <==>
              InBuffer(m, i) && v.base <= i <= limit && i !in v.held && Due(Stored(m, i).lastRetransmit, now, gate)
  {
    LossLists.RoundTrip(WireRanges(spans));
    ids := ReportAnsweredExactly(m, spans, now, gate);
    assert forall i :: i in ids ==> Covers(spans, i);
    forall i | InBuffer(m, i) && v.base <= i <= limit && i !in v.held && Due(Stored(m, i).lastRetransmit, now, gate)
      ensures i in ids
    {
      assert Covers(spans, i);
    }
  }

  /** A later state of a run has sent at least as much. */
  lemma {:induction false} SentGrows(s: AS.System, actions: seq<AS.Action>, n: nat)
    requires AS.Starts(s) && AS.RunEnabled(s, actions) && n <= |actions|
    ensures AS.RunEnabled(s, actions[..n])
    ensures AS.Run(s, actions[..n]).snd.next <= AS.Run(s, actions).snd.next
  {
    if n == |actions| {
      assert actions[..n] == actions;
    } else {
      var front, a := actions[..|actions| - 1], actions[|actions| - 1];
      assert front[..n] == actions[..n];
      SentGrows(s, front, n);
      AS.Reachable(s, front);
      AS.Reachable(s, actions);
      NextGrows(AS.Run(s, front), a);
    }
  }

  lemma NextGrows(t: AS.System, a: AS.Action)
    requires Books(t.snd) && Books(AS.Next(t, a).snd)
    ensures t.snd.next <= AS.Next(t, a).snd.next
  {
    if a.AtSender? {
      AS.SenderExtends(t.snd, a.s);
    }
  }

  /** Everything a receiver can report lies where a sender within half the space of it reads it exactly. */
  lemma ReportsAreReachable(v: RecvView, top: int, limit: int, spans: seq<Span>, m: SenderModel)
    requires Placed(v) && IsLossList(v, limit, spans) && top in v.held && limit <= top
    requires |m.window| <= HALF && v.base <= m.next && Front(m) - HALF < v.base
    ensures forall k :: 0 <= k < |spans| ==> Reachable(m, spans[k])
  {
    forall k | 0 <= k < |spans| ensures Reachable(m, spans[k]) {
      assert Covers(spans, spans[k].lo) && Covers(spans, spans[k].hi);
    }
  }

  /**
   Along every run: a report the receiver makes at some point, taken in by the sender at that point or any later one
   while the receiver's base was less than half the number space behind what the sender still holds, makes the sender
   shed what is past its budget and then resend exactly the packets that were missing, that it still holds and that are
   due.
   */
  lemma ReportAnsweredInRun(
    s: AS.System, actions: seq<AS.Action>, n: nat, top: int, limit: int, spans: seq<Span>, now: Instant, gate: nat)
    returns (ids: seq<int>)
    requires AS.Starts(s) && AS.RunEnabled(s, actions) && n <= |actions|
    requires var v := AS.Run(s, actions[..n]).rcv.view;
             && IsLossList(v, limit, spans) && top in v.held && limit <= top
             && Front(ShedLate(AS.Run(s, actions).snd, now)) - HALF < v.base
    ensures var v, shed := AS.Run(s, actions[..n]).rcv.view, ShedLate(AS.Run(s, actions).snd, now);
            var decoded := LossLists.Decoded(LossLists.Encoded(WireRanges(spans)));
            && decoded.Ok?
            && Resent(shed, SenderStep(AS.Run(s, actions).snd, NakIn(decoded.ranges, now, gate)), ids, now, gate)
            && (forall i :: i in ids <==>
                  && InBuffer(shed, i) && v.base <= i <= limit && i !in v.held
                  && Due(Stored(shed, i).lastRetransmit, now, gate))
  {
    SentGrows(s, actions, n);
    AS.Reachable(s, actions[..n]);
    AS.Reachable(s, actions);
    var v, m := AS.Run(s, actions[..n]).rcv.view, AS.Run(s, actions).snd;
    var shed := ShedLate(m, now);
    ShedShrinks(m, now);
    ReportsAreReachable(v, top, limit, spans, shed);
    ids := LossesResentExactly(v, limit, spans, shed, now, gate);
  }

  lemma ShedShrinks(m: SenderModel, now: Instant)
    ensures |ShedLate(m, now).window| <= |m.window| && ShedLate(m, now).next == m.next
  {
  }
}
