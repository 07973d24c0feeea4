/**
 One end of a handshake over whole runs (connection.rs, connection/setup.rs): whatever arrives and whenever the timer
 fires, exactly when a caller connects, with which parameters, what it sends meanwhile, and what an acceptor repeats.
 */
module HandshakeRuns {
  import opened Options
  import opened SeqNumbers
  import opened Packets
  import opened HandshakeCodec
  import opened Rekey
  import opened Handshaking

  datatype HandshakeInput = Arrives(hs: Handshake) | TimerFires(expired: bool)

  function HandshakeStep(e: Endpoint, x: HandshakeInput): Endpoint {
    match x
    case Arrives(hs) => OnHandshake(e, hs)
    case TimerFires(expired) => OnHandshakeTimer(e, expired)
  }

  function HandshakeRun(e: Endpoint, xs: seq<HandshakeInput>): Endpoint {
    if xs == [] then e else HandshakeStep(HandshakeRun(e, xs[..|xs| - 1]), xs[|xs| - 1])
  }

  // ---- What the inputs say ----

  /** A conforming answer to the induction request. */
  predicate Invites(x: HandshakeInput) {
    x.Arrives? && InductionAnswer(x.hs)
  }

  /** A conforming answer to the conclusion. */
  predicate Concludes(x: HandshakeInput) {
    x.Arrives? && ConclusionAnswer(x.hs)
  }

  /** A rejection, or the connect timeout. */
  predicate Ends(x: HandshakeInput) {
    if x.Arrives? then Rejection(x.hs) else x.expired
  }

  ghost predicate NoneEnds(xs: seq<HandshakeInput>, n: nat) {
    forall k :: 0 <= k < |xs| && k < n ==> !Ends(xs[k])
  }

  ghost predicate SomeInvites(xs: seq<HandshakeInput>) {
    exists i :: 0 <= i < |xs| && Invites(xs[i])
  }

  /** An invitation at `i`, a conclusion answer at `j` after it, and nothing that ends the attempt before. */
  ghost predicate Succeeds(xs: seq<HandshakeInput>, i: nat, j: nat) {
    i < j < |xs| && Invites(xs[i]) && Concludes(xs[j]) && NoneEnds(xs, j)
  }

  ghost predicate SomeSucceeds(xs: seq<HandshakeInput>) {
    exists i, j :: Succeeds(xs, i, j)
  }

  /** The state the inputs alone prescribe. */
  ghost function Prescribed(xs: seq<HandshakeInput>): State {
    if SomeSucceeds(xs) then Connected
    else if !NoneEnds(xs, |xs|) then Failed
    else if SomeInvites(xs) then ConclusionPhase
    else InductionPhase
  }

  lemma PrefixFacts(xs: seq<HandshakeInput>)
    requires xs != []
    ensures var front, x := xs[..|xs| - 1], xs[|xs| - 1];
            && (NoneEnds(xs, |xs|) <==> NoneEnds(front, |front|) && !Ends(x))
            && (SomeInvites(xs) <==> SomeInvites(front) || Invites(x))
            && (SomeSucceeds(xs) <==> SomeSucceeds(front) || (SomeInvites(front) && Concludes(x) && NoneEnds(front, |front|)))
  {
    var front, x := xs[..|xs| - 1], xs[|xs| - 1];
    if SomeInvites(front) {
      var i :| 0 <= i < |front| && Invites(front[i]);
      assert Invites(xs[i]);
      if Concludes(x) && NoneEnds(front, |front|) {
        assert Succeeds(xs, i, |front|);
      }
    }
    if i: nat, j: nat :| Succeeds(front, i, j) {
      assert Succeeds(xs, i, j);
    }
    if i: nat, j: nat :| Succeeds(xs, i, j) {
      assert Invites(front[i]);
      if j < |front| {
        assert Succeeds(front, i, j);
      }
    }
  }

  /**
   A caller's state is exactly what the inputs prescribe: it is connected if and only if a conforming induction answer
   was followed by a conforming conclusion answer before any rejection or timeout, whatever else arrived in between;
   it has failed if and only if it did not connect and one of those came.
   */
  lemma {:induction false} ConnectsExactly(e: Endpoint, xs: seq<HandshakeInput>)
    requires e.side == CallerSide && e.state == InductionPhase
    ensures HandshakeRun(e, xs).state == Prescribed(xs) && HandshakeRun(e, xs).side == CallerSide
  {
    if xs != [] {
      ConnectsExactly(e, xs[..|xs| - 1]);
      PrefixFacts(xs);
    }
  }

  // ---- With which parameters ----

  /** What a caller takes over from the answer that connects it. */
  ghost predicate TakenFrom(r: Endpoint, e: Endpoint, hs: Handshake) {
    && r.state == Connected && r.peerId == hs.socketId && r.recvBase == hs.initialSeq
    && r.latency == Max(e.config.latency, 1000 * DelayOf(hs.extensions))
  }

  /** What never changes during a handshake. */
  ghost predicate SameSelf(r: Endpoint, e: Endpoint) {
    && r.config == e.config && r.side == e.side && r.localId == e.localId && r.nextSend == e.nextSend
    && r.crypto == e.crypto && r.keyMaterial == e.keyMaterial
  }

  lemma {:induction false} SelfStays(e: Endpoint, xs: seq<HandshakeInput>)
    ensures SameSelf(HandshakeRun(e, xs), e)
  {
    if xs != [] {
      SelfStays(e, xs[..|xs| - 1]);
    }
  }

  /** The earliest answer at which the attempt succeeds. */
  ghost predicate FirstSuccess(xs: seq<HandshakeInput>, i: nat, j: nat) {
    Succeeds(xs, i, j) && forall i': nat, j': nat :: Succeeds(xs, i', j') ==> j <= j'
  }

  /** A connected caller holds, for good, the parameters of the first answer that could connect it. */
  lemma {:induction false} ConnectedParameters(e: Endpoint, xs: seq<HandshakeInput>) returns (i: nat, j: nat)
    requires e.side == CallerSide && e.state == InductionPhase && HandshakeRun(e, xs).state == Connected
    ensures FirstSuccess(xs, i, j) && TakenFrom(HandshakeRun(e, xs), e, xs[j].hs)
  {
    ConnectsExactly(e, xs);
    var front, x := xs[..|xs| - 1], xs[|xs| - 1];
    ConnectsExactly(e, front);
    SelfStays(e, front);
    PrefixFacts(xs);
    if HandshakeRun(e, front).state == Connected {
      i, j := ConnectedParameters(e, front);
      assert Succeeds(xs, i, j);
      forall i': nat, j': nat | Succeeds(xs, i', j') ensures j <= j' {
        if j' < |front| {
          assert Succeeds(front, i', j');
        }
      }
    } else {
      i :| 0 <= i < |front| && Invites(front[i]);
      j := |front|;
      assert Succeeds(xs, i, j);
      forall i': nat, j': nat | Succeeds(xs, i', j') ensures j <= j' {
        if j' < |front| {
          assert Succeeds(front, i', j');
        }
      }
    }
  }

  // ---- What a caller sends ----

  /** The cookie of the first conforming induction answer. */
  function FirstCookie(xs: seq<HandshakeInput>): Option<U32> {
    if xs == [] then None
    else if FirstCookie(xs[..|xs| - 1]).Some? then FirstCookie(xs[..|xs| - 1])
    else if Invites(xs[|xs| - 1]) then Some(xs[|xs| - 1].hs.cookie) else None
  }

  /** A request of this caller: its induction request, or its conclusion echoing the first cookie it was given. */
  ghost predicate IsRequest(e: Endpoint, xs: seq<HandshakeInput>, hs: Handshake) {
    || hs == InductionRequest(e)
    || (FirstCookie(xs).Some? && hs == ConclusionRequest(e.(cookie := FirstCookie(xs).value)))
  }

  ghost predicate Requests(e: Endpoint, xs: seq<HandshakeInput>, r: Endpoint) {
    && (forall hs :: hs in r.sent ==> IsRequest(e, xs, hs))
    && (r.state == InductionPhase ==> r.lastHandshake == Some(InductionRequest(e)) && FirstCookie(xs).None?)
    && (r.state == ConclusionPhase ==>
          FirstCookie(xs).Some? && r.lastHandshake == Some(ConclusionRequest(e.(cookie := FirstCookie(xs).value))))
  }

  lemma RequestStays(e: Endpoint, xs: seq<HandshakeInput>, hs: Handshake)
    requires xs != [] && IsRequest(e, xs[..|xs| - 1], hs)
    ensures IsRequest(e, xs, hs)
  {
  }

  /**
   All a caller ever sends is its induction request and, echoing the first cookie it was given, one and the same
   conclusion; and while unfinished the timer repeats the request of the current phase.
   */
  lemma {:induction false} CallerSends(e: Endpoint, xs: seq<HandshakeInput>)
    requires e.side == CallerSide && e.state == InductionPhase
    requires e.sent == [InductionRequest(e)] && e.lastHandshake == Some(InductionRequest(e))
    ensures Requests(e, xs, HandshakeRun(e, xs))
  {
    if xs != [] {
      var front, x := xs[..|xs| - 1], xs[|xs| - 1];
      CallerSends(e, front);
      SelfStays(e, front);
      var r, r' := HandshakeRun(e, front), HandshakeRun(e, xs);
      forall hs | hs in r.sent ensures IsRequest(e, xs, hs) {
        RequestStays(e, xs, hs);
      }
      if r.state == InductionPhase && Invites(x) && !Ends(x) {
        assert ConclusionRequest(r.(peerId := x.hs.socketId, cookie := x.hs.cookie, state := ConclusionPhase))
            == ConclusionRequest(e.(cookie := x.hs.cookie));
      }
    }
  }

  /** A new caller is one the results above speak of. */
  lemma CallerStarts(config: Config, id: U32, isn: SeqNumber, key: Key, km: Bytes)
    ensures var e := Calling(config, id, isn, key, km);
            && e.side == CallerSide && e.state == InductionPhase
            && e.sent == [InductionRequest(e)] && e.lastHandshake == Some(InductionRequest(e))
            && (e.crypto.Some? <==> config.encryption.Some?) && (Encrypts(e) <==> config.encryption.Some?)
  {
  }

  /** Each input queues at most one handshake, and what was sent stays sent. */
  lemma SendsOneAtATime(e: Endpoint, x: HandshakeInput)
    ensures e.sent <= HandshakeStep(e, x).sent && |HandshakeStep(e, x).sent| <= |e.sent| + 1
    ensures (e.state == InductionPhase || e.state == ConclusionPhase) && x == TimerFires(false) && e.lastHandshake.Some?
            ==> HandshakeStep(e, x).sent == e.sent + [e.lastHandshake.value]
    ensures (e.state == Connected && e.side == CallerSide) || e.state == Failed ==> HandshakeStep(e, x) == e
  {
  }

  // ---- What an acceptor repeats ----

  function ConclusionsIn(xs: seq<HandshakeInput>): nat {
    if xs == [] then 0
    else ConclusionsIn(xs[..|xs| - 1]) + (if xs[|xs| - 1].Arrives? && xs[|xs| - 1].hs.hsType == CONCLUSION then 1 else 0)
  }

  function Copies(hs: Handshake, n: nat): (r: seq<Handshake>)
    ensures |r| == n && forall k :: 0 <= k < n ==> r[k] == hs
  {
    seq(n, _ => hs)
  }

  /**
   An accepted connection is connected from the start and nothing in the handshake changes it any more; it answers
   with the same response once, and once more for every conclusion that comes again.
   */
  lemma {:induction false} AcceptorRepeats(unwrap: Unwrap, config: Config, id: U32, hs: Handshake, xs: seq<HandshakeInput>)
    requires Accept(unwrap, config, id, hs).Accepted?
    ensures var e := Accept(unwrap, config, id, hs).value;
            && e.state == Connected && e.lastHandshake.Some?
            && HandshakeRun(e, xs) == e.(sent := Copies(e.lastHandshake.value, 1 + ConclusionsIn(xs)))
  {
    var e := Accept(unwrap, config, id, hs).value;
    if xs == [] {
      assert e.sent == Copies(e.lastHandshake.value, 1);
    } else {
      var n := 1 + ConclusionsIn(xs[..|xs| - 1]);
      AcceptorRepeats(unwrap, config, id, hs, xs[..|xs| - 1]);
      assert Copies(e.lastHandshake.value, n) + [e.lastHandshake.value] == Copies(e.lastHandshake.value, n + 1);
    }
  }

  // ---- The conclusion on the wire ----

  /** The extension flags announce exactly what the conclusion carries. */
  lemma FlagsMatch(e: Endpoint)
    ensures var hs := ConclusionRequest(e);
            && hs.extensionField % 2 == 1 && hs.extensions[0].HsReq?
            && (hs.extensionField / 2 % 2 == 1 <==> exists k :: 0 <= k < |hs.extensions| && hs.extensions[k].RawExt?)
            && (hs.extensionField / 4 % 2 == 1 <==> exists k :: 0 <= k < |hs.extensions| && hs.extensions[k].StreamId?)
            && (hs.encryption != NoEncryption ==> hs.extensionField / 2 % 2 == 1)
  {
    var exts := ConclusionRequest(e).extensions;
    if e.config.streamId.Some? {
      assert exts[1].StreamId?;
    }
    if Encrypts(e) {
      assert exts[|exts| - 1].RawExt?;
    }
  }

  /** What the acceptor decodes is the conclusion the caller sent. */
  lemma ConclusionSurvives(e: Endpoint, utf8: Bytes -> bool)
    requires e.config.streamId.Some? ==> GoodExtension(StreamId(e.config.streamId.value), utf8)
    requires e.keyMaterial.Some? ==> GoodExtension(RawExt(EXT_KMREQ, e.keyMaterial.value), utf8)
    ensures GoodHandshake(ConclusionRequest(e), utf8)
    ensures HandshakeFrom(HandshakeBytes(ConclusionRequest(e)), utf8) == HandshakeCodec.Ok(ConclusionRequest(e))
  {
    var hs := ConclusionRequest(e);
    assert GoodExtension(hs.extensions[0], utf8);
    HandshakeRoundTrip(hs, utf8);
  }
}
