/**
 The caller and acceptor sides of the handshake (connection/setup.rs, connection.rs; section 4.3.1 of
 draft-sharabayko-srt-01). Unwrapping a Key Material extension under a passphrase is a parameter.
 */
module Handshaking {
  import opened Options
  import opened SeqNumbers
  import opened Packets
  import opened HandshakeCodec
  import opened Rekey

  const HS_VERSION_UDT: U32 := 4
  const HS_VERSION_SRT: U32 := 5
  const SRT_MAGIC: U16 := 0x4A17
  const INDUCTION_EXT_FIELD: U16 := 2
  const EXT_FLAG_HSREQ: U16 := 1
  const EXT_FLAG_KMREQ: U16 := 2
  const EXT_FLAG_CONFIG: U16 := 4
  const EXT_KMREQ: U16 := 3
  const EXT_KMRSP: U16 := 4
  const SRT_LIBRARY_VERSION: U32 := 0x0001_0504
  const INDUCTION: U32 := 1
  const CONCLUSION: U32 := 0xFFFF_FFFF
  const DONE: U32 := 0xFFFF_FFFD
  const REJECTION_BASE: U32 := 1000
  const NO_IP: Bytes := [0, 0, 0, 0, 0, 0, 0, 0, 0, 0, 0, 0, 0, 0, 0, 0]

  datatype EncryptionSettings = EncryptionSettings(passphrase: Bytes, keySize: EncryptionField)

  /** Latencies are in microseconds. */
  datatype Config = Config(latency: nat, streamId: Option<Bytes>, encryption: Option<EncryptionSettings>, mtu: U32, flowWindow: U32)

  datatype Side = CallerSide | AcceptorSide
  datatype State = InductionPhase | ConclusionPhase | Connected | Failed

  /** One end of a connection being set up: where it will send from, receive from and which keys it holds. */
  datatype Endpoint = Endpoint(
    config: Config,
    side: Side,
    state: State,
    localId: U32,
    peerId: U32,
    cookie: U32,
    nextSend: SeqNumber,
    recvBase: SeqNumber,
    latency: nat,
    crypto: Option<Crypto>,
    keyMaterial: Option<Bytes>,
    lastHandshake: Option<Handshake>,
    sent: seq<Handshake>)

  // ---- Negotiation ----

  /** Whole milliseconds, clamped to the 16-bit wire field. */
  function MillisU16(d: nat): U16 {
    if d / 1000 < 0x1_0000 then d / 1000 else 0xFFFF
  }

  function Max(a: nat, b: nat): nat {
    if a < b then b else a
  }

  /** The capabilities always advertised: both TSBPD directions, drops, periodic NAK and the retransmit flag. */
  function SrtExtension(ms: U16): SrtHandshake {
    SrtHandshake(SRT_LIBRARY_VERSION, 0x3B, ms, ms)
  }

  /** The receiver delay of the first HSREQ or HSRSP, in milliseconds; zero without one. */
  function DelayOf(exts: seq<Extension>): nat {
    if exts == [] then 0
    else match exts[0]
      case HsReq(s) => s.recvDelay
      case HsRsp(s) => s.recvDelay
      case _ => DelayOf(exts[1..])
  }

  datatype Negotiated = Negotiated(peerId: U32, peerSeq: SeqNumber, latency: nat)

  function Negotiate(localLatency: nat, hs: Handshake): Negotiated {
    Negotiated(hs.socketId, hs.initialSeq, Max(localLatency, 1000 * DelayOf(hs.extensions)))
  }

  /** The first Key Material request carried, if any. */
  function KmRequest(exts: seq<Extension>): Option<Bytes> {
    if exts == [] then None
    else match exts[0]
      case RawExt(t, content) => if t == EXT_KMREQ then Some(content) else KmRequest(exts[1..])
      case _ => KmRequest(exts[1..])
  }

  datatype Unwrapped = Unwrapped(even: Option<Key>, odd: Option<Key>)

  /** Recovers the keys of a Key Material message under a passphrase, if they decode and the passphrase is right. */
  type Unwrap = (Bytes, Bytes) -> Option<Unwrapped>

  datatype Decline = UnexpectedKeyMaterial | MissingKeyMaterial | BadKeyMaterial

  datatype Decision<+T> = Accepted(value: T) | Declined(reason: Decline)

  function AcceptCrypto(unwrap: Unwrap, encryption: Option<EncryptionSettings>, hs: Handshake)
    : Decision<(Option<Unwrapped>, Option<Bytes>)>
  {
    var km := KmRequest(hs.extensions);
    if encryption.None? then
      if km.Some? then Declined(UnexpectedKeyMaterial) else Accepted((None, None))
    else if km.None? then Declined(MissingKeyMaterial)
    else
      var keys := unwrap(km.value, encryption.value.passphrase);
      if keys.None? then Declined(BadKeyMaterial) else Accepted((keys, km))
  }

  /** The session's key slots from what the handshake delivered; the even slot is preferred. */
  function FromInitial(u: Option<Unwrapped>): Option<Crypto> {
    if u.None? then None
    else Some(Crypto(u.value.even, u.value.odd, if u.value.even.Some? then EvenSlot else OddSlot))
  }

  // ---- The caller ----

  function InductionRequest(e: Endpoint): Handshake {
    Handshake(HS_VERSION_UDT, NoEncryption, INDUCTION_EXT_FIELD, e.nextSend, e.config.mtu, e.config.flowWindow,
      INDUCTION, e.localId, 0, NO_IP, [])
  }

  function StreamIdExt(c: Config): seq<Extension> {
    if c.streamId.Some? then [StreamId(c.streamId.value)] else []
  }

  predicate Encrypts(e: Endpoint) {
    e.keyMaterial.Some? && e.config.encryption.Some?
  }

  function KmExt(e: Endpoint): seq<Extension> {
    if Encrypts(e) then [RawExt(EXT_KMREQ, e.keyMaterial.value)] else []
  }

  /** The caller's conclusion: its own parameters, the echoed cookie, and its key if it encrypts. */
  function ConclusionRequest(e: Endpoint): Handshake {
    Handshake(HS_VERSION_SRT,
      if Encrypts(e) then e.config.encryption.value.keySize else NoEncryption,
      EXT_FLAG_HSREQ + (if e.config.streamId.Some? then EXT_FLAG_CONFIG else 0) + (if Encrypts(e) then EXT_FLAG_KMREQ else 0),
      e.nextSend, e.config.mtu, e.config.flowWindow, CONCLUSION, e.localId, e.cookie, NO_IP,
      [HsReq(SrtExtension(MillisU16(e.config.latency)))] + StreamIdExt(e.config) + KmExt(e))
  }

  function Emitted(e: Endpoint, hs: Handshake): Endpoint {
    e.(lastHandshake := Some(hs), sent := e.sent + [hs])
  }

  /** A caller with an induction request queued. `key` and its wrapped form are used only if encryption is configured. */
  function Calling(config: Config, id: U32, isn: SeqNumber, key: Key, km: Bytes): Endpoint {
    var e := Endpoint(config, CallerSide, InductionPhase, id, 0, 0, isn, isn, config.latency,
      if config.encryption.Some? then Some(Crypto(Some(key), None, EvenSlot)) else None,
      if config.encryption.Some? then Some(km) else None, None, []);
    Emitted(e, InductionRequest(e))
  }

  function Entered(e: Endpoint, n: Negotiated): Endpoint {
    e.(state := Connected, peerId := n.peerId, latency := n.latency, recvBase := n.peerSeq)
  }

  predicate InductionAnswer(hs: Handshake) {
    hs.version == HS_VERSION_SRT && hs.extensionField == SRT_MAGIC && hs.hsType == INDUCTION
  }

  predicate ConclusionAnswer(hs: Handshake) {
    hs.hsType == CONCLUSION && hs.version == HS_VERSION_SRT
  }

  predicate Rejection(hs: Handshake) {
    REJECTION_BASE <= hs.hsType < DONE
  }

  function OnInductionResponse(e: Endpoint, hs: Handshake): Endpoint {
    if !InductionAnswer(hs) then e
    else
      var e' := e.(peerId := hs.socketId, cookie := hs.cookie, state := ConclusionPhase);
      Emitted(e', ConclusionRequest(e'))
  }

  function OnConclusionResponse(e: Endpoint, hs: Handshake): Endpoint {
    if !ConclusionAnswer(hs) then e else Entered(e, Negotiate(e.config.latency, hs))
  }

  /** A handshake arriving in any state. A connected acceptor answers a repeated conclusion again. */
  function OnHandshake(e: Endpoint, hs: Handshake): Endpoint {
    match e.state
    case InductionPhase => if Rejection(hs) then e.(state := Failed) else OnInductionResponse(e, hs)
    case ConclusionPhase => if Rejection(hs) then e.(state := Failed) else OnConclusionResponse(e, hs)
    case Connected =>
      if e.side == AcceptorSide && hs.hsType == CONCLUSION && e.lastHandshake.Some?
      then e.(sent := e.sent + [e.lastHandshake.value]) else e
    case Failed => e
  }

  function OnHandshakeTimer(e: Endpoint, expired: bool): Endpoint {
    if e.state != InductionPhase && e.state != ConclusionPhase then e
    else if expired then e.(state := Failed)
    else if e.lastHandshake.Some? then e.(sent := e.sent + [e.lastHandshake.value])
    else e
  }

  // ---- The acceptor ----

  function ConclusionResponse(config: Config, id: U32, hs: Handshake, latency: nat, km: Option<Bytes>): Handshake {
    Handshake(HS_VERSION_SRT, hs.encryption, EXT_FLAG_HSREQ + (if km.Some? then EXT_FLAG_KMREQ else 0),
      hs.initialSeq, config.mtu, config.flowWindow, CONCLUSION, id, 0, NO_IP,
      [HsRsp(SrtExtension(MillisU16(latency)))] + (if km.Some? then [RawExt(EXT_KMRSP, km.value)] else []))
  }

  /** The acceptor adopts the caller's initial sequence number for both directions. */
  function Accept(unwrap: Unwrap, config: Config, id: U32, hs: Handshake): Decision<Endpoint> {
    var n := Negotiate(config.latency, hs);
    match AcceptCrypto(unwrap, config.encryption, hs)
    case Declined(reason) => Declined(reason)
    case Accepted((keys, km)) =>
      var response := ConclusionResponse(config, id, hs, n.latency, km);
      var e := Endpoint(config, AcceptorSide, ConclusionPhase, id, 0, 0, hs.initialSeq, hs.initialSeq,
        config.latency, FromInitial(keys), km, None, []);
      Accepted(Entered(Emitted(e, response), n))
  }

  // ---- The connection object ----

  class Connection {
    const config: Config
    const side: Side
    const localId: U32
    const nextSend: SeqNumber
    var state: State
    var peerId: U32
    var cookie: U32
    var recvBase: SeqNumber
    var latency: nat
    var crypto: Option<Crypto>
    var keyMaterial: Option<Bytes>
    var lastHandshake: Option<Handshake>
    var outputs: seq<Handshake>

    function View(): Endpoint
      reads this
    {
      Endpoint(config, side, state, localId, peerId, cookie, nextSend, recvBase, latency, crypto, keyMaterial,
        lastHandshake, outputs)
    }

    constructor Connect(config: Config, id: U32, isn: SeqNumber, key: Key, km: Bytes)
      ensures View() == Calling(config, id, isn, key, km)
    {
      this.config, side, localId, nextSend := config, CallerSide, id, isn;
      state, peerId, cookie, recvBase, latency := InductionPhase, 0, 0, isn, config.latency;
      crypto, keyMaterial, lastHandshake, outputs := None, None, None, [];
      new;
      if config.encryption.Some? {
        crypto := Some(Crypto(Some(key), None, EvenSlot));
        keyMaterial := Some(km);
      }
      EmitHandshake(InductionRequest(View()));
    }

    method EmitHandshake(hs: Handshake)
      modifies this
      ensures View() == Emitted(old(View()), hs)
    {
      lastHandshake := Some(hs);
      outputs := outputs + [hs];
    }

    method EnterConnected(n: Negotiated)
      modifies this
      ensures View() == Entered(old(View()), n)
    {
      state, peerId, latency, recvBase := Connected, n.peerId, n.latency, n.peerSeq;
    }

    method HandleInductionResponse(hs: Handshake)
      modifies this
      ensures View() == OnInductionResponse(old(View()), hs)
    {
      if hs.version != HS_VERSION_SRT || hs.extensionField != SRT_MAGIC || hs.hsType != INDUCTION {
        return;
      }
      peerId, cookie, state := hs.socketId, hs.cookie, ConclusionPhase;
      SendConclusion();
    }

    method SendConclusion()
      modifies this
      ensures View() == Emitted(old(View()), ConclusionRequest(old(View())))
    {
      var extensions := [HsReq(SrtExtension(MillisU16(config.latency)))];
      var field: U16 := EXT_FLAG_HSREQ;
      if config.streamId.Some? {
        extensions := extensions + [StreamId(config.streamId.value)];
        field := field + EXT_FLAG_CONFIG;
      }
      var encryption := NoEncryption;
      if keyMaterial.Some? && config.encryption.Some? {
        extensions := extensions + [RawExt(EXT_KMREQ, keyMaterial.value)];
        field := field + EXT_FLAG_KMREQ;
        encryption := config.encryption.value.keySize;
      }
      var hs := Handshake(HS_VERSION_SRT, encryption, field, nextSend, config.mtu, config.flowWindow, CONCLUSION,
        localId, cookie, NO_IP, extensions);
      assert hs == ConclusionRequest(View());
      EmitHandshake(hs);
    }

    method HandleConclusionResponse(hs: Handshake)
      modifies this
      ensures View() == OnConclusionResponse(old(View()), hs)
    {
      if hs.hsType != CONCLUSION || hs.version != HS_VERSION_SRT {
        return;
      }
      EnterConnected(Negotiate(config.latency, hs));
    }

    method FeedHandshake(hs: Handshake)
      modifies this
      ensures View() == OnHandshake(old(View()), hs)
      ensures old(state) == Failed || (old(state) == Connected && side == CallerSide) ==> View() == old(View())
      ensures old(state) == InductionPhase && state == ConclusionPhase ==>
                && InductionAnswer(hs) && peerId == hs.socketId && |outputs| == |old(outputs)| + 1
                && outputs[|outputs| - 1].hsType == CONCLUSION && outputs[|outputs| - 1].cookie == hs.cookie
      ensures old(state) != Connected && state == Connected ==>
                && old(state) == ConclusionPhase && ConclusionAnswer(hs)
                && peerId == hs.socketId && recvBase == hs.initialSeq && latency >= config.latency
                && outputs == old(outputs)
      ensures state == Failed && old(state) != Failed ==> Rejection(hs) && outputs == old(outputs)
      ensures old(outputs) <= outputs && |outputs| <= |old(outputs)| + 1
    {
      match state {
        case InductionPhase =>
          if Rejection(hs) {
            state := Failed;
          } else {
            HandleInductionResponse(hs);
          }
        case ConclusionPhase =>
          if Rejection(hs) {
            state := Failed;
          } else {
            HandleConclusionResponse(hs);
          }
        case Connected =>
          if side == AcceptorSide && hs.hsType == CONCLUSION && lastHandshake.Some? {
            outputs := outputs + [lastHandshake.value];
          }
        case Failed =>
      }
    }

    method HandleHandshakeTimer(expired: bool)
      modifies this
      ensures View() == OnHandshakeTimer(old(View()), expired)
      ensures old(state) == Connected || old(state) == Failed ==> View() == old(View())
      ensures state != old(state) ==> expired && state == Failed
      ensures outputs == old(outputs) || (lastHandshake.Some? && outputs == old(outputs) + [lastHandshake.value])
    {
      if state != InductionPhase && state != ConclusionPhase {
        return;
      }
      if expired {
        state := Failed;
      } else if lastHandshake.Some? {
        outputs := outputs + [lastHandshake.value];
      }
    }
  }
}
