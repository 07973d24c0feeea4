/** What the protocol promises end to end, for every run of the two ends over the network of ArqSystem. */
module ArqResults {
  import opened Options
  import opened SeqNumbers
  import opened Timestamps
  import opened Packets
  import opened RecvBuffers
  import opened SendBuffers
  import opened Reassembly
  import opened ArqModel
  import opened SR = SenderRuns
  import opened RR = ReceiverRuns
  import opened ArqSystem

  // ---- Runs exist ----

  lemma FirstPacketDelivered(packet: DataPacket)
    requires packet.number == Wire(0)
    ensures OnData(ReceiverStart(0, 0, 1, []), packet, 0, 0, []).delivered == [Delivery(0, packet)]
  {
    var m := ReceiverStart(0, 0, 1, []);
    ResolveExact(0, 0);
    assert Accepts(m, packet);
    var stored := Store(m, packet, 0);
    assert stored.view.held == map[0 := packet];
    SingleDue(stored, 0, packet);
    DeliverOnly(stored, 0, 0, 0);
  }

  function FirstPacket(cfg: SenderConfig, f: Fragment): DataPacket {
    MakePacket(cfg, 0, f, 0)
  }

  function OneMessageRun(cfg: SenderConfig, f: Fragment): seq<Action> {
    [AtSender(Message([f], 0)), AtReceiver(DataIn(FirstPacket(cfg, f), 0, 0, []))]
  }

  lemma OneMessageSent(cfg: SenderConfig, f: Fragment)
    ensures var r := Submit(SenderStart(cfg, 0, None), [f], 0);
            Data(0, FirstPacket(cfg, f)) in r.emitted && r.isn == 0
  {
    var m := SenderStart(cfg, 0, None);
    var accepted := m.(messages := m.messages + [[f]]);
    assert OriginateAll(accepted, [f][..0], 0) == accepted;
    assert OriginateAll(accepted, [f], 0) == Originate(accepted, f, 0);
  }

  /** The runs the results below speak of include one that carries a message across. */
  lemma MessagesCanArrive(cfg: SenderConfig, f: Fragment)
    requires Positioned([f])
    ensures var s := System(SenderStart(cfg, 0, None), ReceiverStart(0, 0, 1, []));
            && Starts(s) && RunEnabled(s, OneMessageRun(cfg, f))
            && Run(s, OneMessageRun(cfg, f)).rcv.delivered == [Delivery(0, FirstPacket(cfg, f))]
  {
    var s := System(SenderStart(cfg, 0, None), ReceiverStart(0, 0, 1, []));
    assert Starts(s) by {
      assert MessagesIn([]) == [];
    }
    var a, b := AtSender(Message([f], 0)), AtReceiver(DataIn(FirstPacket(cfg, f), 0, 0, []));
    assert [] + [a] == [a] && [a] + [b] == OneMessageRun(cfg, f);
    RunMore(s, [], a);
    RunMore(s, [a], b);
    OneMessageSent(cfg, f);
    var t := Run(s, [a]);
    assert t == s.(snd := Submit(s.snd, [f], 0));
    assert DataOnNetwork(t, FirstPacket(cfg, f), 0);
    FirstPacketDelivered(FirstPacket(cfg, f));
  }

  // ---- Delivery ----

  /**
   End-to-end safety: in every reachable state the packets handed on have strictly rising true indices and each is,
   up to the R flag, the packet the sender first assigned to that index. Nothing is delivered twice, out of order
   or altered.
   */
  lemma {:induction false} DeliveryIsSafe(s: System, actions: seq<Action>)
    requires Starts(s) && RunEnabled(s, actions)
    ensures
      var (snd, ds) := (Run(s, actions).snd, Run(s, actions).rcv.delivered);
      && (forall k, l :: 0 <= k < l < |ds| ==> ds[k].i < ds[l].i)
      && (forall k :: 0 <= k < |ds| ==> Genuine(snd, ds[k].i, ds[k].packet))
  {
    Reachable(s, actions);
  }

  /** What the sender counts as acknowledged the receiver already had; acknowledgements never run ahead. */
  lemma {:induction false} AcksAreSound(s: System, actions: seq<Action>, i: int)
    requires Starts(s) && RunEnabled(s, actions)
    ensures FateOf(Run(s, actions).snd, i) == Some(Acked) ==> Covered(Run(s, actions).rcv.view, i)
    ensures Run(s, actions).rcv.view.base <= Run(s, actions).snd.next
  {
    Reachable(s, actions);
  }

  lemma DeliveredIsSubsequence(s: System)
    requires s.snd.isn == s.rcv.isn && Sourced(s.snd, s.rcv) && Streaming(s.snd) && InOrder(s.rcv)
    ensures Subsequence(s.rcv.delivered, s.rcv.isn, Flatten(s.snd.messages))
  {
    var ds, snd := s.rcv.delivered, s.snd;
    forall k | 0 <= k < |ds| ensures Carries(ds[k], s.rcv.isn, Flatten(snd.messages)) {
      assert Genuine(snd, ds[k].i, ds[k].packet);
      var j := ds[k].i - snd.isn;
      assert Flatten(snd.messages)[j] == (Logged(snd.log) + snd.queue)[j] == Logged(snd.log)[j];
    }
  }

  /**
   Message delivery end to end: the messages the receiving application has been or will be given are, in order and
   byte for byte, exactly the submitted messages all of whose packets were delivered.
   */
  lemma {:induction false} MessagesArriveWhole(s: System, actions: seq<Action>)
    requires Starts(s) && RunEnabled(s, actions)
    requires SmallGaps(Run(s, actions).rcv.delivered)
    ensures
      var t := Run(s, actions);
      MessagesIn(t.rcv.taken + t.rcv.events) == Survivors(t.rcv.delivered, t.rcv.isn, t.snd.messages)
  {
    Reachable(s, actions);
    var t := Run(s, actions);
    DeliveredIsSubsequence(t);
    ReassemblyExactFrom(EMPTY, t.rcv.isn, t.rcv.delivered, t.rcv.isn, t.snd.messages);
  }

  // ---- Orderly close ----

  /** The sender closed with nothing outstanding. */
  ghost predicate Drained(m: SenderModel) {
    !m.connected && !m.closing && m.window == [] && m.queue == []
  }

  /** A close that completes by draining leaves the sender drained, and only then is SHUTDOWN emitted by it. */
  lemma FinishDrains(m: SenderModel)
    ensures FinishClose(m) != m ==> Drained(FinishClose(m)) && FinishClose(m).emitted == m.emitted + [Shutdown]
    ensures Close(m) != m && !Close(m).closing ==> Drained(Close(m)) && Close(m).emitted == m.emitted + [Shutdown]
  {
  }

  /** A drained sender originates nothing more and its record stands. */
  lemma DrainedStays(m: SenderModel, x: SenderInput)
    requires Drained(m) && SenderAllowed(m, x)
    ensures Drained(SenderStep(m, x)) && SenderStep(m, x).log == m.log && SenderStep(m, x).fates == m.fates
  {
  }

  /** Nothing was shed as too late. */
  ghost predicate ShedNothing(m: SenderModel) {
    forall k :: 0 <= k < |m.fates| ==> m.fates[k] == Acked
  }

  /** The receiver holds everything from its base up to `next` and nothing else. */
  ghost predicate GapFree(v: RecvView, next: int) {
    v.base <= next && forall i :: i in v.held <==> v.base <= i < next
  }

  lemma DrainedMeansGapFree(s: System)
    requires s.snd.isn == s.rcv.isn && Sourced(s.snd, s.rcv) && ArqSystem.Released(s.snd, s.rcv)
    requires Books(s.snd) && Placed(s.rcv.view) && s.rcv.isn <= s.rcv.view.base
    requires s.snd.window == [] && ShedNothing(s.snd)
    ensures GapFree(s.rcv.view, s.snd.next)
  {
    forall i ensures i in s.rcv.view.held <==> s.rcv.view.base <= i < s.snd.next {
      if i in s.rcv.view.held {
        assert Genuine(s.snd, i, s.rcv.view.held[i]);
      }
      if s.rcv.view.base <= i < s.snd.next {
        assert FateOf(s.snd, i) == Some(Acked);
        assert Covered(s.rcv.view, i);
      }
    }
  }

  /** Flushing a gap-free buffer hands on every packet up to `next` and leaves nothing. */
  lemma {:induction false} FlushAll(m: ReceiverModel, next: int)
    requires GapFree(m.view, next)
    ensures Flush(m).view == RecvView(next, map[])
    ensures |Flush(m).delivered| == |m.delivered| + (next - m.view.base)
    ensures m.delivered <= Flush(m).delivered
    ensures forall i :: m.view.base <= i < next ==> Survived(Flush(m).delivered, i)
    decreases |m.view.held|
  {
    if m.view.base in m.view.held {
      PoppedSmaller(m.view, m.view.base);
      var r := DeliverOne(m, m.view.base);
      FlushAll(r, next);
      assert r.delivered[|m.delivered|].i == m.view.base;
      assert Flush(m).delivered[|m.delivered|] == r.delivered[|m.delivered|];
    } else {
      KeyExists(m.view.held);
    }
  }

  lemma ShutdownHandsOn(m: ReceiverModel, next: int)
    requires GapFree(m.view, next)
    ensures OnShutdown(m).view == RecvView(next, map[])
    ensures forall i :: m.view.base <= i < next ==> Survived(OnShutdown(m).delivered, i)
    ensures |OnShutdown(m).events| > 0 && OnShutdown(m).events[|OnShutdown(m).events| - 1] == Closed
  {
    FlushAll(m, next);
  }

  lemma RunMore(s: System, actions: seq<Action>, a: Action)
    ensures Run(s, actions + [a]) == ArqSystem.Next(Run(s, actions), a)
    ensures RunEnabled(s, actions + [a]) <==> RunEnabled(s, actions) && Enabled(Run(s, actions), a)
  {
    assert (actions + [a])[..|actions + [a]| - 1] == actions;
  }

  lemma {:induction false} RunFacts(s: System, actions: seq<Action>)
    requires Starts(s) && RunEnabled(s, actions)
    ensures var t := Run(s, actions);
            && InOrder(t.rcv) && Placed(t.rcv.view) && t.snd.isn == t.rcv.isn && Books(t.snd) && Streaming(t.snd)
            && Sourced(t.snd, t.rcv) && ArqSystem.Released(t.snd, t.rcv)
  {
    Reachable(s, actions);
  }

  /**
   An orderly close never truncates: when the sender closed by draining and shed nothing, the receiver that processes
   SHUTDOWN has no gap, the flush empties its buffer, every packet ever sent has been delivered or had already been
   passed over at its play time, and all of it is handed on before Closed.
   */
  lemma {:induction false} CloseNeverTruncates(s: System, actions: seq<Action>)
    requires Starts(s) && RunEnabled(s, actions + [AtReceiver(ShutdownIn)])
    requires Drained(Run(s, actions).snd) && ShedNothing(Run(s, actions).snd)
    ensures
      var before, after := Run(s, actions), Run(s, actions + [AtReceiver(ShutdownIn)]);
      && GapFree(before.rcv.view, before.snd.next)
      && after.rcv.view == RecvView(before.snd.next, map[])
      && (forall i :: before.rcv.view.base <= i < before.snd.next ==> Survived(after.rcv.delivered, i))
      && |after.rcv.events| > 0 && after.rcv.events[|after.rcv.events| - 1] == Closed
  {
    RunMore(s, actions, AtReceiver(ShutdownIn));
    RunFacts(s, actions);
    var before := Run(s, actions);
    DrainedMeansGapFree(before);
    ShutdownHandsOn(before.rcv, before.snd.next);
    assert Run(s, actions + [AtReceiver(ShutdownIn)]).rcv == OnShutdown(before.rcv);
  }

  // ---- Orderly close, in messages ----

  /** The payloads of the submitted messages. */
  ghost function WholeMessages(messages: seq<seq<Fragment>>): (r: seq<Bytes>)
    ensures |r| == |messages|
  {
    seq(|messages|, j requires 0 <= j < |messages| => Concat(Payloads(messages[j])))
  }

  /** All messages survive exactly when all packets do. */
  lemma {:induction false} SurvivorsAll(ds: seq<Delivery>, start: int, messages: seq<seq<Fragment>>)
    requires forall j :: 0 <= j < |messages| ==> |messages[j]| > 0
    ensures |Survivors(ds, start, messages)| <= |messages|
    ensures |Survivors(ds, start, messages)| == |messages| <==> AllSurvived(ds, start, |Flatten(messages)|)
    decreases |messages|
  {
    if messages != [] {
      var n := |messages[0]|;
      SurvivorsCons(ds, start, messages);
      SurvivorsAll(ds, start + n, messages[1..]);
      SurvivedSplit(ds, start, n, |Flatten(messages[1..])|);
    }
  }

  lemma {:induction false} SurvivorsWhole(ds: seq<Delivery>, start: int, messages: seq<seq<Fragment>>)
    requires AllSurvived(ds, start, |Flatten(messages)|)
    ensures Survivors(ds, start, messages) == WholeMessages(messages)
    decreases |messages|
  {
    if messages != [] {
      var n := |messages[0]|;
      SurvivorsCons(ds, start, messages);
      SurvivedSplit(ds, start, n, |Flatten(messages[1..])|);
      SurvivorsWhole(ds, start + n, messages[1..]);
      WholeCons(messages);
    }
  }

  lemma WholeCons(messages: seq<seq<Fragment>>)
    requires messages != []
    ensures WholeMessages(messages) == [Concat(Payloads(messages[0]))] + WholeMessages(messages[1..])
  {
  }

  ghost predicate RisingWithin(ds: seq<Delivery>, start: int, next: int) {
    && (forall k :: 0 <= k < |ds| ==> start <= ds[k].i < next)
    && (forall k, l :: 0 <= k < l < |ds| ==> ds[k].i < ds[l].i)
  }

  lemma {:induction false} RisingAbove(ds: seq<Delivery>, start: int, next: int, k: nat)
    requires RisingWithin(ds, start, next) && k < |ds|
    ensures start + k <= ds[k].i
  {
    if k > 0 {
      RisingAbove(ds, start, next, k - 1);
    }
  }

  lemma {:induction false} RisingBelow(ds: seq<Delivery>, start: int, next: int, k: nat)
    requires RisingWithin(ds, start, next) && k < |ds|
    ensures ds[k].i <= next - (|ds| - k)
    decreases |ds| - k
  {
    if k + 1 < |ds| {
      RisingBelow(ds, start, next, k + 1);
    }
  }

  /** Rising deliveries within bounds are complete exactly when there are as many as the bounds allow. */
  lemma CompleteIffCount(ds: seq<Delivery>, start: int, next: int)
    requires RisingWithin(ds, start, next) && start <= next
    ensures |ds| <= next - start
    ensures |ds| == next - start <==> AllSurvived(ds, start, next - start)
    ensures |ds| == next - start ==> SmallGaps(ds)
  {
    if |ds| > 0 {
      RisingAbove(ds, start, next, |ds| - 1);
    }
    if |ds| == next - start {
      forall k | 0 <= k < |ds| ensures ds[k].i == start + k {
        RisingAbove(ds, start, next, k);
        RisingBelow(ds, start, next, k);
      }
      forall i | start <= i < next ensures Survived(ds, i) {
        assert ds[i - start].i == i;
      }
    }
    if AllSurvived(ds, start, next - start) && start < next {
      AtMost(ds, start, next - start, next - start - 1);
    }
  }

  /**
   After an orderly close that shed nothing, every submitted message has been queued for the application, all of them
   before Closed, if the receiver had passed over no packet: it had delivered as many as its base had advanced. And,
   gaps being small enough for numbers to be told apart, only then.
   */
  lemma {:induction false} CloseDeliversMessages(s: System, actions: seq<Action>)
    requires Starts(s) && RunEnabled(s, actions + [AtReceiver(ShutdownIn)])
    requires Drained(Run(s, actions).snd) && ShedNothing(Run(s, actions).snd)
    ensures
      var before, after := Run(s, actions), Run(s, actions + [AtReceiver(ShutdownIn)]);
      var all := MessagesIn(after.rcv.taken + after.rcv.events) == WholeMessages(before.snd.messages);
      var passedNone := |before.rcv.delivered| == before.rcv.view.base - before.rcv.isn;
      && (passedNone ==> all)
      && (SmallGaps(after.rcv.delivered) ==> (all <==> passedNone))
      && |after.rcv.events| > 0 && after.rcv.events[|after.rcv.events| - 1] == Closed
  {
    var more := actions + [AtReceiver(ShutdownIn)];
    RunMore(s, actions, AtReceiver(ShutdownIn));
    RunBooks(s, actions);
    RunBooks(s, more);
    var before, after := Run(s, actions), Run(s, more);
    CloseNeverTruncates(s, actions);
    FlushAll(before.rcv, before.snd.next);
    ClosedCounts(before, after);
    if SmallGaps(after.rcv.delivered) {
      MessagesArriveWhole(s, more);
      assert after.snd.messages == before.snd.messages;
    }
  }

  lemma {:induction false} RunBooks(s: System, actions: seq<Action>)
    requires Starts(s) && RunEnabled(s, actions)
    ensures var t := Run(s, actions);
            InOrder(t.rcv) && t.snd.isn == t.rcv.isn && Books(t.snd) && Streaming(t.snd)
  {
    Reachable(s, actions);
  }

  lemma ClosedCounts(before: System, after: System)
    requires InOrder(after.rcv) && after.rcv.isn == before.rcv.isn && after.rcv.view.base == before.snd.next
    requires |after.rcv.delivered| == |before.rcv.delivered| + (before.snd.next - before.rcv.view.base)
    requires before.snd.isn == before.rcv.isn && Books(before.snd) && Streaming(before.snd) && before.snd.queue == []
    ensures var ms, ds := before.snd.messages, after.rcv.delivered;
            var passedNone := |before.rcv.delivered| == before.rcv.view.base - before.rcv.isn;
            && (passedNone ==> SmallGaps(ds))
            && (Survivors(ds, before.rcv.isn, ms) == WholeMessages(ms) <==> passedNone)
  {
    var ms, ds, isn := before.snd.messages, after.rcv.delivered, before.rcv.isn;
    CompleteIffCount(ds, isn, before.snd.next);
    assert |Flatten(ms)| == |before.snd.log|;
    SurvivorsAll(ds, isn, ms);
    if AllSurvived(ds, isn, |Flatten(ms)|) {
      SurvivorsWhole(ds, isn, ms);
    }
  }
}
