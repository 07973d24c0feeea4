/**
 The sending half of a connection (connection/arq.rs sender section, `pace`; connection.rs `send`, `close`,
 `finalize_shutdown`, `finish_close_if_drained`, `on_linger_timer`). Every method follows its model function.
 */
module ArqSender {
  import opened Options
  import opened SeqNumbers
  import opened Timestamps
  import opened Packets
  import opened RecvBuffers
  import opened SendBuffers
  import opened Reassembly
  import opened ArqModel

  lemma {:induction false} LateCountSplit(window: seq<Sent>, ts: Timestamp, budget: nat, n: nat)
    requires n <= |window|
    requires forall k :: 0 <= k < n ==> TooLate(window[k], ts, budget)
    ensures LateCount(window, ts, budget) == n + LateCount(window[n..], ts, budget)
  {
    if n > 0 {
      LateCountSplit(window[1..], ts, budget, n - 1);
      assert window[1..][n - 1..] == window[n..];
    } else {
      assert window[0..] == window;
    }
  }

  class Sender {
    const cfg: SenderConfig
    const buffer: SendBuffer
    var nextSendSeq: SeqNumber
    var queue: seq<Fragment>
    var connected: bool
    var closing: bool
    var period: Option<nat>
    var nextSend: Option<Instant>
    var outputs: seq<Datagram>
    ghost var model: SenderModel

    ghost predicate Valid()
      reads this, buffer
    {
      && Coupled()
      && |model.window| + |model.queue| <= HALF
    }

    /** The fields are the model's, with indices reduced to the wire. */
    ghost predicate Coupled()
      reads this, buffer
    {
      && buffer.Valid()
      && model.cfg == cfg
      && buffer.packets == model.window && buffer.first == Front(model)
      && nextSendSeq == Wire(model.next)
      && queue == model.queue && connected == model.connected && closing == model.closing
      && period == model.period && nextSend == model.nextSend
      && outputs == AllOnWire(model.emitted)
    }

    constructor (cfg: SenderConfig, initial: SeqNumber, period: Option<nat>)
      ensures Valid() && fresh(buffer)
      ensures model == SenderStart(cfg, initial, period)
    {
      this.cfg := cfg;
      buffer := new SendBuffer(initial);
      nextSendSeq, queue, connected, closing := initial, [], true, false;
      this.period, nextSend, outputs := period, None, [];
      model := SenderStart(cfg, initial, period);
    }

    /** Queues a datagram. */
    method Emit(d: Datagram, ghost msg: Msg)
      requires Coupled() && d == OnWire(msg)
      modifies this`outputs, this`model
      ensures Coupled() && model == old(model).(emitted := old(model).emitted + [msg])
    {
      AllOnWireSnoc(model.emitted, msg);
      outputs := outputs + [d];
      model := model.(emitted := model.emitted + [msg]);
    }

    method SendData(fragment: Fragment, now: Instant)
      requires Coupled() && |model.window| < HALF
      modifies this`nextSendSeq, this`outputs, this`model, buffer
      ensures Coupled() && model == Originate(old(model), fragment, now)
    {
      var packet := DataPacket(nextSendSeq, fragment.position, true, Clear, false, fragment.message,
                               WireTs(cfg.start, now), cfg.dest, fragment.payload);
      ghost var after := Originate(model, fragment, now);
      AllOnWireSnoc(model.emitted, Data(model.next, packet));
      NextExact(model.next);
      buffer.Push(packet);
      outputs := outputs + [DataPkt(packet)];
      nextSendSeq := Next(nextSendSeq);
      model := after;
    }

    /** Sheds packets too old to play at the receiver and announces the range with one DROPREQ. */
    method DropTooLate(now: Instant)
      requires Valid()
      modifies this`outputs, this`model, buffer
      ensures Valid() && model == ShedLate(old(model), now)
    {
      var first, last, n := DropLateFront(WireTs(cfg.start, now), Budget(cfg.latency));
      if first.Some? && last.Some? {
        ghost var start := Front(model);
        model := Retire(model, n, Shed);
        Emit(DropReqPkt(first.value, last.value), DropReq(Span(start, start + n - 1)));
      }
    }

    /** Drops the late packets at the front of the buffer, remembering the first and the last. */
    method DropLateFront(ts: Timestamp, budget: nat)
      returns (first: Option<SeqNumber>, last: Option<SeqNumber>, ghost n: nat)
      requires buffer.Valid()
      modifies buffer
      ensures buffer.Valid() && n == LateCount(old(buffer.packets), ts, budget) <= |old(buffer.packets)|
      ensures buffer.packets == old(buffer.packets)[n..] && buffer.first == old(buffer.first) + n
      ensures if n == 0 then first == last == None
              else first == Some(Wire(old(buffer.first))) && last == Some(Wire(old(buffer.first) + n - 1))
    {
      first, last := None, None;
      ghost var window, start := buffer.packets, buffer.first;
      ghost var at := start - 1;
      n := 0;
      while buffer.packets != [] && TooLate(buffer.packets[0], ts, budget)
        modifies buffer
        invariant buffer.Valid()
        invariant n <= |window| && buffer.packets == window[n..] && buffer.first == start + n
        invariant forall k :: 0 <= k < n ==> TooLate(window[k], ts, budget)
        invariant first == if n == 0 then None else Some(Wire(start))
        invariant last == if n == 0 then None else Some(Wire(at))
        invariant at == start + n - 1
        decreases |buffer.packets|
      {
        buffer.FrontNumber();
        if first.None? {
          first := Some(buffer.packets[0].packet.number);
        }
        last := Some(buffer.packets[0].packet.number);
        buffer.DropFront();
        n, at := n + 1, at + 1;
      }
      LateCountSplit(window, ts, budget, n);
    }

    /** Resends the buffered packets a loss range names, as far as the timing gate allows. */
    method RetransmitRange(range: LossRange, now: Instant, gate: nat)
      requires Valid()
      modifies this`outputs, this`model, buffer
      ensures Valid() && model == ResendRange(old(model), range, now, gate)
    {
      if buffer.packets == [] {
        return;
      }
      buffer.FrontNumber();
      var number := buffer.packets[0].packet.number;
      var last := buffer.packets[|buffer.packets| - 1].packet.number;
      ghost var was, size := model, |model.window|;
      ghost var k, at, top := 0, Front(model), Front(model) + size - 1;
      while true
        modifies this`outputs, this`model, buffer
        invariant k < size == |buffer.packets|
        invariant Coupled() && model == ResendUpTo(was, range, now, gate, k)
        invariant at == Front(was) + k && top == Front(was) + size - 1
        invariant number == Wire(at) && last == Wire(top)
        invariant model.queue == was.queue
        decreases size - k
      {
        ResendOne(number, range, now, gate, was, k);
        k := k + 1;
        if number == last {
          WireInjective(at, top);
          break;
        }
        NextExact(at);
        number := Next(number);
        at := at + 1;
      }
    }

    /** The body of the retransmission loop at packet `k`. */
    method ResendOne(number: SeqNumber, range: LossRange, now: Instant, gate: nat, ghost was: SenderModel, ghost k: nat)
      requires k < |was.window| && Coupled() && model == ResendUpTo(was, range, now, gate, k)
      requires number == Wire(Front(was) + k)
      modifies this`outputs, this`model, buffer
      ensures Coupled() && model == ResendUpTo(was, range, now, gate, k + 1) && model.queue == old(model).queue
    {
      var last := LastResent(number, k);
      if InRange(number, range.start, range.end) && Due(last, now, gate) {
        ResendPacket(number, now, gate, k);
      }
    }

    /** When a buffered packet was last retransmitted. */
    method LastResent(number: SeqNumber, ghost k: nat) returns (last: Option<Instant>)
      requires Coupled() && k < |model.window| && number == Wire(Front(model) + k)
      ensures last == model.window[k].lastRetransmit
    {
      buffer.FoundAt(number, k);
      last := buffer.LastRetransmitted(number);
    }

    /** Resends one buffered packet with its R flag set and stamps it. */
    method ResendPacket(number: SeqNumber, now: Instant, gate: nat, ghost k: nat)
      requires Coupled() && k < |model.window| && number == Wire(Front(model) + k)
      modifies this`outputs, this`model, buffer
      ensures Coupled() && model == ResendAt(old(model), k, now, gate)
    {
      ghost var i := Front(model) + k;
      ResolveExact(buffer.first, i);
      buffer.FoundAt(number, k);
      var packet := buffer.Get(number).value;
      buffer.MarkRetransmitted(number, now);
      AllOnWireSnoc(model.emitted, Data(i, packet.(retransmitted := true)));
      outputs := outputs + [DataPkt(packet.(retransmitted := true))];
      model := ResendAt(model, k, now, gate);
    }

    method OnAck(ack: SeqNumber, full: bool, now: Instant, recomputed: nat)
      requires Valid() && connected
      modifies this, buffer
      ensures Valid() && model == ArqModel.OnAck(old(model), ack, full, now, recomputed)
    {
      var released := buffer.Ack(ack);
      model := AckTo(model, ack);
      DropTooLate(now);
      if period.Some? {
        period := Some(recomputed);
        model := model.(period := period);
      }
      FinishCloseIfDrained();
      if full {
        Emit(AckAckPkt, AckAck);
      }
    }

    method OnNak(loss: seq<LossRange>, now: Instant, gate: nat)
      requires Valid() && connected
      modifies this, buffer
      ensures Valid() && model == ArqModel.OnNak(old(model), loss, now, gate)
    {
      DropTooLate(now);
      ghost var shed := model;
      for k := 0 to |loss|
        invariant Valid() && model == ResendRanges(shed, loss[..k], now, gate)
      {
        RetransmitRange(loss[k], now, gate);
        assert loss[..k + 1][..k] == loss[..k];
      }
      assert loss[..|loss|] == loss;
    }

    method OnExpTimer(now: Instant, gate: nat)
      requires Valid()
      modifies this, buffer
      ensures Valid() && model == OnExp(old(model), now, gate)
    {
      if !connected || buffer.packets == [] {
        return;
      }
      DropTooLate(now);
      if buffer.packets == [] {
        return;
      }
      assert buffer.packets[0].packet.number == Wire(buffer.first + 0);
      RetransmitRange(LossRange(buffer.packets[0].packet.number, buffer.packets[|buffer.packets| - 1].packet.number), now, gate);
    }

    /** Releases every queued packet whose slot has come, at most 256 of them. */
    method Pace(now: Instant)
      requires Valid()
      modifies this, buffer
      ensures Valid() && model == ArqModel.Pace(old(model), now)
    {
      if period.None? {
        return;
      }
      var released := PaceBurst(now);
      SettlePace(released, now);
    }

    method SettlePace(released: nat, now: Instant)
      requires Valid() && period.Some?
      modifies this
      ensures Valid() && model == Settle(old(model), released, now, old(period).value)
    {
      if released == MAX_PACE_BURST && nextSend.Some? && nextSend.value < now {
        nextSend := Some(now + period.value);
        model := model.(nextSend := nextSend);
      }
      if queue == [] {
        FinishCloseIfDrained();
      }
    }

    /** The release loop of one `Pace` call. */
    method PaceBurst(now: Instant) returns (released: nat)
      requires Valid() && period.Some?
      modifies this, buffer
      ensures Valid() && period == old(period)
      ensures (model, released) == PaceLoop(old(model), now, period.value, 0)
    {
      released := 0;
      ghost var goal := PaceLoop(model, now, period.value, 0);
      while released < MAX_PACE_BURST && !(nextSend.Some? && now < nextSend.value)
        invariant Valid() && period == old(period) && released <= MAX_PACE_BURST
        invariant PaceLoop(model, now, period.value, released) == goal
        decreases MAX_PACE_BURST - released
      {
        if queue == [] {
          nextSend := None;
          model := model.(nextSend := None);
          break;
        }
        ReleaseOne(now);
        released := released + 1;
      }
    }

    /** Sends the queue's front packet in its slot and books the next slot one period later. */
    method ReleaseOne(now: Instant)
      requires Valid() && queue != [] && period.Some?
      modifies this, buffer
      ensures Valid() && period == old(period)
      ensures model == PaceOne(old(model), now, period.value)
    {
      var fragment := queue[0];
      queue := queue[1..];
      model := model.(queue := queue);
      SendData(fragment, now);
      var slot := SlotOf(nextSend, now);
      nextSend := Some(slot + period.value);
      model := model.(nextSend := nextSend, releases := model.releases + [Release(slot, now, period.value)]);
    }

    /** Accepts an application message, unless the connection is closing or closed. */
    method Send(payload: Bytes, max: nat, message: MsgNumber, now: Instant) returns (ok: bool, ghost fragments: seq<Fragment>)
      requires Valid() && max >= 1
      // the I/O layer submits only while the flow window has room, far below half the number space
      requires |queue| + |buffer.packets| + |payload| + 1 <= HALF
      modifies this, buffer
      ensures Valid() && ok == (!old(closing) && old(connected))
      ensures ok ==> IsFragmentation(payload, max, fragments)
      ensures model == Submit(old(model), fragments, now)
    {
      fragments := [];
      if closing || !connected {
        return false, [];
      }
      var pieces := FragmentMessage(payload, max, message);
      FragmentCount(payload, max, pieces);
      fragments := pieces;
      model := model.(messages := model.messages + [pieces]);
      if period.None? {
        ghost var accepted := model;
        for k := 0 to |pieces|
          invariant Coupled() && model == OriginateAll(accepted, pieces[..k], now)
          invariant |model.window| == |accepted.window| + k && model.queue == accepted.queue && period.None?
        {
          SendData(pieces[k], now);
          assert pieces[..k + 1][..k] == pieces[..k];
        }
        assert pieces[..|pieces|] == pieces;
      } else {
        queue := queue + pieces;
        model := model.(queue := queue);
        Pace(now);
      }
      ok := true;
    }

    method Close()
      requires Valid()
      modifies this, buffer
      ensures Valid() && model == ArqModel.Close(old(model))
    {
      if closing || !connected {
        return;
      }
      if buffer.packets == [] && queue == [] {
        FinalizeShutdown();
      } else {
        closing := true;
        model := model.(closing := true);
      }
    }

    method FinalizeShutdown()
      requires Valid()
      modifies this
      ensures Valid() && model == Shut(old(model))
      ensures period == old(period) && nextSend == old(nextSend)
    {
      Emit(ShutdownPkt, Shutdown);
      closing, connected := false, false;
      model := model.(closing := false, connected := false);
    }

    method FinishCloseIfDrained()
      requires Valid()
      modifies this
      ensures Valid() && model == FinishClose(old(model))
    {
      if closing && buffer.packets == [] && queue == [] {
        FinalizeShutdown();
      }
    }

    method OnLingerTimer()
      requires Valid()
      modifies this
      ensures Valid() && model == OnLinger(old(model))
    {
      if closing {
        FinalizeShutdown();
      }
    }
  }

  /** A message has at most one fragment per byte, or one when empty. */
  lemma FragmentCount(payload: Bytes, max: nat, fragments: seq<Fragment>)
    requires max >= 1 && IsFragmentation(payload, max, fragments)
    requires |fragments| == 1 <==> |payload| <= max
    requires forall k :: 0 <= k < |fragments| - 1 ==> |fragments[k].payload| == max
    ensures |fragments| <= |payload| + 1
  {
    ConcatLength(Payloads(fragments), max);
  }

  lemma {:induction false} ConcatLength(payloads: seq<Bytes>, max: nat)
    requires max >= 1 && forall k :: 0 <= k < |payloads| - 1 ==> |payloads[k]| == max
    ensures |payloads| <= |Concat(payloads)| + 1
    ensures (forall k :: 0 <= k < |payloads| ==> |payloads[k]| == max) ==> |payloads| <= |Concat(payloads)|
  {
    if payloads != [] {
      var front := payloads[..|payloads| - 1];
      assert forall k :: 0 <= k < |front| ==> front[k] == payloads[k];
      ConcatLength(front, max);
    }
  }
}
