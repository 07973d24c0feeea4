/**
 A caller and a listener over a link that loses, duplicates and reorders: when the caller believes it is connected,
 some connection the listener accepted agrees with it.
 */
module HandshakeSystem {
  import opened Options
  import opened SeqNumbers
  import opened Packets
  import opened HandshakeCodec
  import opened Rekey
  import opened Handshaking

  /** What is fixed: both configurations, the initial numbers, the caller's key, and how Key Material unwraps. */
  datatype Setting = Setting(
    caller: Config, listener: Config, callerId: U32, isn: SeqNumber, listenerSeq: SeqNumber, key: Key, km: Bytes,
    unwrap: Unwrap)

  /** Key wrapping is sound: the caller's own message never unwraps to other keys. */
  ghost predicate WrapSound(s: Setting) {
    forall p :: s.unwrap(s.km, p) == None || s.unwrap(s.km, p) == Some(Unwrapped(Some(s.key), None))
  }

  /** Messages once sent stay deliverable, any number of times, in any order, or never. */
  datatype Net = Net(caller: Endpoint, accepted: seq<Endpoint>, toListener: iset<Handshake>, toCaller: iset<Handshake>)

  datatype Action =
    | AnswerInduction(hs: Handshake, listenerId: U32, cookie: U32, peerIp: Bytes)
    | AcceptConclusion(hs: Handshake, id: U32)
    | RejectConclusion(hs: Handshake, listenerId: U32, code: U32, peerIp: Bytes)
    | AcceptorReceives(k: nat, hs: Handshake)
    | CallerReceives(hs: Handshake)
    | CallerTimer(expired: bool)

  /** Handlers fire on messages that were sent; cookies, ids and the accept decision are the environment's choice. */
  ghost predicate Enabled(s: Setting, n: Net, a: Action) {
    match a
    case AnswerInduction(hs, _, _, _) => hs in n.toListener && hs.hsType == INDUCTION
    case AcceptConclusion(hs, id) =>
      hs in n.toListener && hs.hsType == CONCLUSION && Accept(s.unwrap, s.listener, id, hs).Accepted?
    case RejectConclusion(hs, _, code, _) =>
      hs in n.toListener && hs.hsType == CONCLUSION && REJECTION_BASE + code < DONE
    case AcceptorReceives(k, hs) => k < |n.accepted| && hs in n.toListener
    case CallerReceives(hs) => hs in n.toCaller
    case CallerTimer(_) => true
  }

  function InductionResponse(s: Setting, listenerId: U32, cookie: U32, peerIp: Bytes): Handshake {
    Handshake(HS_VERSION_SRT, NoEncryption, SRT_MAGIC, s.listenerSeq, s.listener.mtu, s.listener.flowWindow, INDUCTION,
      listenerId, cookie, peerIp, [])
  }

  function RejectResponse(s: Setting, listenerId: U32, code: U32, peerIp: Bytes): Handshake
    requires REJECTION_BASE + code < DONE
  {
    Handshake(HS_VERSION_SRT, NoEncryption, 0, s.listenerSeq, s.listener.mtu, s.listener.flowWindow, REJECTION_BASE + code,
      listenerId, 0, peerIp, [])
  }

  ghost function Sent(e: Endpoint): iset<Handshake> {
    iset hs | hs in e.sent
  }

  ghost function Next(s: Setting, n: Net, a: Action): Net
    requires Enabled(s, n, a)
  {
    match a
    case AnswerInduction(_, id, cookie, ip) => n.(toCaller := n.toCaller + iset{InductionResponse(s, id, cookie, ip)})
    case AcceptConclusion(hs, id) =>
      var e := Accept(s.unwrap, s.listener, id, hs).value;
      n.(accepted := n.accepted + [e], toCaller := n.toCaller + Sent(e))
    case RejectConclusion(_, id, code, ip) => n.(toCaller := n.toCaller + iset{RejectResponse(s, id, code, ip)})
    case AcceptorReceives(k, hs) =>
      var e := OnHandshake(n.accepted[k], hs);
      n.(accepted := n.accepted[k := e], toCaller := n.toCaller + Sent(e))
    case CallerReceives(hs) =>
      var e := OnHandshake(n.caller, hs);
      n.(caller := e, toListener := n.toListener + Sent(e))
    case CallerTimer(expired) =>
      var e := OnHandshakeTimer(n.caller, expired);
      n.(caller := e, toListener := n.toListener + Sent(e))
  }

  ghost function Start(s: Setting): Net {
    var e := Calling(s.caller, s.callerId, s.isn, s.key, s.km);
    Net(e, [], Sent(e), iset{})
  }

  ghost predicate Run(s: Setting, ns: seq<Net>, xs: seq<Action>) {
    && |ns| == |xs| + 1 && ns[0] == Start(s)
    && (forall k :: 0 <= k < |xs| ==> Enabled(s, ns[k], xs[k]) && ns[k + 1] == Next(s, ns[k], xs[k]))
  }

  // ---- Agreement ----

  /** Same ids, matching sequence numbers in both directions, and the same keys or none. */
  ghost predicate Agrees(c: Endpoint, a: Endpoint) {
    && a.localId == c.peerId && a.peerId == c.localId
    && c.recvBase == a.nextSend && a.recvBase == c.nextSend
    && a.crypto == c.crypto
    && a.state == Connected
  }

  /** What a conclusion's round trip makes of the two configured latencies, acceptor's then caller's. */
  function AcceptorLatency(caller: nat, listener: nat): nat {
    Max(listener, 1000 * MillisU16(caller))
  }

  function CallerLatency(caller: nat, listener: nat): nat {
    Max(caller, 1000 * MillisU16(AcceptorLatency(caller, listener)))
  }

  ghost predicate WireExact(d: nat) {
    d % 1000 == 0 && d / 1000 < 0x1_0000
  }

  lemma MillisExact(d: nat)
    ensures 1000 * MillisU16(d) <= d
    ensures 1000 * MillisU16(d) == d <==> WireExact(d)
  {
    assert d == 1000 * (d / 1000) + d % 1000;
  }

  lemma MillisOfWhole(k: U16)
    ensures MillisU16(1000 * k) == k && WireExact(1000 * k)
  {
  }

  /**
   The two sides end with the same latency exactly when they were configured alike, or the greater latency survives the
   16-bit millisecond field; then it is the greater of the two.
   */
  lemma LatencyAgreement(caller: nat, listener: nat)
    ensures CallerLatency(caller, listener) == AcceptorLatency(caller, listener)
            <==> caller == listener || WireExact(Max(caller, listener))
    ensures CallerLatency(caller, listener) == AcceptorLatency(caller, listener)
            ==> CallerLatency(caller, listener) == Max(caller, listener)
  {
    MillisExact(caller);
    MillisExact(listener);
    MillisOfWhole(MillisU16(caller));
    MillisExact(AcceptorLatency(caller, listener));
  }

  // ---- The invariant ----

  /** The caller's fixed part never changes. */
  ghost predicate CallerFixed(s: Setting, c: Endpoint) {
    && c.config == s.caller && c.side == CallerSide && c.localId == s.callerId && c.nextSend == s.isn
    && c.crypto == (if s.caller.encryption.Some? then Some(Crypto(Some(s.key), None, EvenSlot)) else None)
    && c.keyMaterial == (if s.caller.encryption.Some? then Some(s.km) else None)
  }

  /** A conclusion of this caller, whatever cookie it echoes. */
  ghost predicate FromCaller(s: Setting, hs: Handshake) {
    hs.hsType == CONCLUSION ==>
      && hs.socketId == s.callerId && hs.initialSeq == s.isn
      && DelayOf(hs.extensions) == MillisU16(s.caller.latency)
      && KmRequest(hs.extensions) == (if s.caller.encryption.Some? then Some(s.km) else None)
  }

  /** An accepted connection built from this caller's conclusion. */
  ghost predicate Built(s: Setting, a: Endpoint) {
    && a.state == Connected && a.side == AcceptorSide && a.peerId == s.callerId
    && a.nextSend == s.isn && a.recvBase == s.isn
    && a.latency == AcceptorLatency(s.caller.latency, s.listener.latency)
    && a.crypto == (if s.caller.encryption.Some? then Some(Crypto(Some(s.key), None, EvenSlot)) else None)
    && a.lastHandshake.Some? && Answers(s, a, a.lastHandshake.value)
    && (forall hs :: hs in a.sent ==> hs == a.lastHandshake.value)
  }

  /** The response an accepted connection sends. */
  ghost predicate Answers(s: Setting, a: Endpoint, hs: Handshake) {
    && hs.hsType == CONCLUSION && hs.socketId == a.localId && hs.initialSeq == s.isn
    && DelayOf(hs.extensions) == MillisU16(a.latency)
  }

  /** A conclusion response reaching the caller comes from an accepted connection. */
  ghost predicate FromListener(s: Setting, accepted: seq<Endpoint>, hs: Handshake) {
    hs.hsType == CONCLUSION ==> exists k :: 0 <= k < |accepted| && Answers(s, accepted[k], hs)
  }

  ghost predicate CallerSettled(s: Setting, n: Net) {
    n.caller.state == Connected ==>
      exists k :: 0 <= k < |n.accepted| && Agrees(n.caller, n.accepted[k])
        && n.caller.latency == CallerLatency(s.caller.latency, s.listener.latency)
        && n.accepted[k].latency == AcceptorLatency(s.caller.latency, s.listener.latency)
  }

  ghost predicate Inv(s: Setting, n: Net) {
    && CallerFixed(s, n.caller)
    && (forall hs :: hs in n.caller.sent ==> FromCaller(s, hs))
    && (n.caller.lastHandshake.Some? ==> FromCaller(s, n.caller.lastHandshake.value))
    && (forall hs :: hs in n.toListener ==> FromCaller(s, hs))
    && (forall k :: 0 <= k < |n.accepted| ==> Built(s, n.accepted[k]))
    && (forall hs :: hs in n.toCaller ==> FromListener(s, n.accepted, hs))
    && CallerSettled(s, n)
  }

  lemma ConclusionIsFromCaller(s: Setting, c: Endpoint)
    requires CallerFixed(s, c)
    ensures FromCaller(s, ConclusionRequest(c))
  {
    var exts := ConclusionRequest(c).extensions;
    var rest := StreamIdExt(c.config) + KmExt(c);
    assert exts[0] == HsReq(SrtExtension(MillisU16(c.config.latency)));
    assert exts[1..] == rest;
    if c.config.streamId.Some? {
      assert rest[0] == StreamId(c.config.streamId.value) && rest[1..] == KmExt(c);
    } else {
      assert rest == KmExt(c);
    }
    assert KmRequest(KmExt(c)) == if Encrypts(c) then c.keyMaterial else None;
    assert KmRequest(exts) == KmRequest(rest) == KmRequest(KmExt(c));
  }

  lemma StartHolds(s: Setting)
    ensures Inv(s, Start(s))
  {
  }

  lemma AcceptBuilds(s: Setting, id: U32, hs: Handshake)
    requires WrapSound(s) && FromCaller(s, hs) && hs.hsType == CONCLUSION
    requires Accept(s.unwrap, s.listener, id, hs).Accepted?
    ensures Built(s, Accept(s.unwrap, s.listener, id, hs).value)
  {
    var e := Accept(s.unwrap, s.listener, id, hs).value;
    var response := e.lastHandshake.value;
    assert response.extensions[0] == HsRsp(SrtExtension(MillisU16(e.latency)));
    assert e.sent == [response];
  }

  lemma CallerSteps(s: Setting, n: Net, e: Endpoint)
    requires Inv(s, n)
    requires CallerFixed(s, e) && (forall hs :: hs in e.sent ==> FromCaller(s, hs))
    requires e.lastHandshake.Some? ==> FromCaller(s, e.lastHandshake.value)
    requires CallerSettled(s, n.(caller := e))
    ensures Inv(s, n.(caller := e, toListener := n.toListener + Sent(e)))
  {
  }

  /** A conclusion response makes the caller agree with the connection that sent it. */
  lemma ResponseSettles(s: Setting, n: Net, hs: Handshake)
    requires Inv(s, n) && hs in n.toCaller && n.caller.state == ConclusionPhase && ConclusionAnswer(hs)
    ensures CallerSettled(s, n.(caller := OnConclusionResponse(n.caller, hs)))
  {
    assert FromListener(s, n.accepted, hs);
    var k :| 0 <= k < |n.accepted| && Answers(s, n.accepted[k], hs);
    assert Built(s, n.accepted[k]);
    assert Agrees(OnConclusionResponse(n.caller, hs), n.accepted[k]);
  }

  lemma CallerReceivesKeeps(s: Setting, n: Net, hs: Handshake)
    requires Inv(s, n) && hs in n.toCaller
    ensures Inv(s, Next(s, n, CallerReceives(hs)))
  {
    var e := OnHandshake(n.caller, hs);
    if n.caller.state == InductionPhase && !Rejection(hs) && InductionAnswer(hs) {
      ConclusionIsFromCaller(s, n.caller.(peerId := hs.socketId, cookie := hs.cookie, state := ConclusionPhase));
    }
    if n.caller.state == ConclusionPhase && !Rejection(hs) && ConclusionAnswer(hs) {
      ResponseSettles(s, n, hs);
    }
    CallerSteps(s, n, e);
  }

  lemma TimerKeeps(s: Setting, n: Net, expired: bool)
    requires Inv(s, n)
    ensures Inv(s, Next(s, n, CallerTimer(expired)))
  {
    CallerSteps(s, n, OnHandshakeTimer(n.caller, expired));
  }

  /** More, or unchanged, accepted connections keep everything said about them. */
  lemma AcceptedGrow(s: Setting, n: Net, accepted: seq<Endpoint>, more: iset<Handshake>)
    requires Inv(s, n) && |n.accepted| <= |accepted|
    requires forall k :: 0 <= k < |accepted| ==> Built(s, accepted[k])
    requires forall k :: 0 <= k < |n.accepted| ==> accepted[k].localId == n.accepted[k].localId
    requires forall hs :: hs in more ==> FromListener(s, accepted, hs)
    ensures Inv(s, n.(accepted := accepted, toCaller := n.toCaller + more))
  {
    forall hs | hs in n.toCaller
      ensures FromListener(s, accepted, hs)
    {
      if hs.hsType == CONCLUSION {
        assert FromListener(s, n.accepted, hs);
        var k :| 0 <= k < |n.accepted| && Answers(s, n.accepted[k], hs);
        assert Built(s, accepted[k]) && Built(s, n.accepted[k]);
        assert Answers(s, accepted[k], hs);
      }
    }
    if n.caller.state == Connected {
      var k :| 0 <= k < |n.accepted| && Agrees(n.caller, n.accepted[k]);
      assert Built(s, accepted[k]) && Built(s, n.accepted[k]);
      assert Agrees(n.caller, accepted[k]);
    }
  }

  lemma AcceptKeeps(s: Setting, n: Net, hs: Handshake, id: U32)
    requires WrapSound(s) && Inv(s, n) && Enabled(s, n, AcceptConclusion(hs, id))
    ensures Inv(s, Next(s, n, AcceptConclusion(hs, id)))
  {
    AcceptBuilds(s, id, hs);
    var e := Accept(s.unwrap, s.listener, id, hs).value;
    assert (n.accepted + [e])[|n.accepted|] == e;
    AcceptedGrow(s, n, n.accepted + [e], Sent(e));
  }

  lemma AcceptorKeeps(s: Setting, n: Net, k: nat, hs: Handshake)
    requires Inv(s, n) && Enabled(s, n, AcceptorReceives(k, hs))
    ensures Inv(s, Next(s, n, AcceptorReceives(k, hs)))
  {
    assert Built(s, n.accepted[k]);
    var e := OnHandshake(n.accepted[k], hs);
    assert Built(s, e);
    assert n.accepted[k := e][k] == e;
    AcceptedGrow(s, n, n.accepted[k := e], Sent(e));
  }

  lemma StepKeeps(s: Setting, n: Net, a: Action)
    requires WrapSound(s) && Inv(s, n) && Enabled(s, n, a)
    ensures Inv(s, Next(s, n, a))
  {
    match a
    case AnswerInduction(_, id, cookie, ip) =>
      AcceptedGrow(s, n, n.accepted, iset{InductionResponse(s, id, cookie, ip)});
    case AcceptConclusion(hs, id) => AcceptKeeps(s, n, hs, id);
    case RejectConclusion(_, id, code, ip) =>
      AcceptedGrow(s, n, n.accepted, iset{RejectResponse(s, id, code, ip)});
    case AcceptorReceives(k, hs) => AcceptorKeeps(s, n, k, hs);
    case CallerReceives(hs) => CallerReceivesKeeps(s, n, hs);
    case CallerTimer(expired) => TimerKeeps(s, n, expired);
  }

  lemma {:induction false} RunKeeps(s: Setting, ns: seq<Net>, xs: seq<Action>, k: nat)
    requires WrapSound(s) && Run(s, ns, xs) && k < |ns|
    ensures Inv(s, ns[k])
  {
    if k == 0 {
      StartHolds(s);
    } else {
      RunKeeps(s, ns, xs, k - 1);
      StepKeeps(s, ns[k - 1], xs[k - 1]);
    }
  }

  /**
   In every reachable state in which the caller is connected there is an accepted connection that agrees on both socket
   ids, on the sequence numbers of both directions and on the key (or its absence); the two use the same latency
   exactly when the configured latencies are equal or the greater one fits the wire field, and then it is the greater.
   */
  lemma ConnectedAgrees(s: Setting, ns: seq<Net>, xs: seq<Action>, k: nat)
    requires WrapSound(s) && Run(s, ns, xs) && k < |ns| && ns[k].caller.state == Connected
    ensures exists j :: 0 <= j < |ns[k].accepted| && Agrees(ns[k].caller, ns[k].accepted[j])
              && (ns[k].caller.latency == ns[k].accepted[j].latency
                  <==> s.caller.latency == s.listener.latency || WireExact(Max(s.caller.latency, s.listener.latency)))
              && (ns[k].caller.latency == ns[k].accepted[j].latency
                  ==> ns[k].caller.latency == Max(s.caller.latency, s.listener.latency))
  {
    RunKeeps(s, ns, xs, k);
    LatencyAgreement(s.caller.latency, s.listener.latency);
  }
}
