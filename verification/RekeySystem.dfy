/**
 One side rotating its stream key over a link that loses packets but neither reorders nor duplicates them: every
 data packet that arrives is decrypted under the very key it was encrypted with.
 */
module RekeySystem {
  import opened Options
  import opened Packets
  import opened Rekey

  /** A first transmission, or a Key Material request with the generation of the key it announces (history). */
  datatype Forward = Data(slot: KeySlot, sealed: Sealed) | Request(km: KeyMaterial, generation: nat)

  /** A first transmission of the side that does not rotate, with the generation of its key (history). */
  datatype Reverse = PeerData(slot: KeySlot, sealed: Sealed, generation: nat)

  /** History: which generation of key the peer last installed in each slot; none is zero. */
  datatype Generations = Generations(even: nat, odd: nat)

  /** History: the keys staged in each slot, in order. */
  datatype Staging = Staging(even: seq<Key>, odd: seq<Key>)

  datatype Rotation = Rotation(
    sender: RotationModel,
    peer: RotationModel,
    forward: seq<Forward>,        // sender to peer, oldest first
    back: seq<KeyMaterial>,       // the peer's responses, oldest first
    reverse: seq<Reverse>,        // the peer's data packets, oldest first
    keys: set<Key>,               // history: every key ever supplied
    staged: Staging,
    installed: Generations)

  function StagedKeys(g: Staging, slot: KeySlot): seq<Key> {
    if slot == EvenSlot then g.even else g.odd
  }

  /** How many keys the rotating side has staged in a slot, the handshake key included. */
  function Staged(r: Rotation, slot: KeySlot): nat {
    |StagedKeys(r.staged, slot)|
  }

  function GenerationOf(g: Generations, slot: KeySlot): nat {
    if slot == EvenSlot then g.even else g.odd
  }

  datatype Event =
    | SendPacket(payload: Bytes)
    | PeerSends(payload: Bytes)
    | SupplyKey(sek: Key)
    | Keepalive
    | PeerReceives
    | SenderReceives
    | SenderOpens
    | LoseForward
    | LoseBack
    | LoseReverse

  /** Supplied keys are fresh; deliveries and losses take the oldest packet. */
  ghost predicate Enabled(r: Rotation, e: Event) {
    match e
    case SendPacket(_) => true
    case PeerSends(_) => true
    case SupplyKey(sek) => sek !in r.keys
    case Keepalive => true
    case PeerReceives => r.forward != []
    case LoseForward => r.forward != []
    case SenderReceives => r.back != []
    case LoseBack => r.back != []
    case SenderOpens => r.reverse != []
    case LoseReverse => r.reverse != []
  }

  /** What a handler put on the wire, beyond what was there before. */
  function Emitted(before: RotationModel, after: RotationModel): seq<KmDatagram> {
    if |before.emitted| <= |after.emitted| then after.emitted[|before.emitted|..] else []
  }

  function Requests(ms: seq<KmDatagram>, generation: nat): seq<Forward> {
    if ms == [] then []
    else (if ms[0].KmReq? then [Request(ms[0].km, generation)] else []) + Requests(ms[1..], generation)
  }

  function Responses(ms: seq<KmDatagram>): seq<KeyMaterial> {
    if ms == [] then [] else (if ms[0].KmRsp? then [ms[0].km] else []) + Responses(ms[1..])
  }

  /** One data packet encrypted under the active key; nothing without one. */
  function Encrypted(m: RotationModel, payload: Bytes): seq<Forward> {
    if m.crypto.None? then [] else
      var c := m.crypto.value;
      match SlotKey(c, c.active)
      case None => []
      case Some(k) => [Data(c.active, Sealed(k, payload))]
  }

  /** The slot a rotation would put a key in. */
  function NextSlot(m: RotationModel): KeySlot {
    if m.crypto.None? then OddSlot else Other(m.crypto.value.active)
  }

  function StagedMore(g: Staging, slot: KeySlot, key: Key): Staging {
    if slot == EvenSlot then g.(even := g.even + [key]) else g.(odd := g.odd + [key])
  }

  /** The staging history after a supplied key. */
  function WithStaged(r: Rotation, sek: Key): Rotation {
    if !Solicited(r.sender) then r
    else r.(staged := StagedMore(r.staged, NextSlot(r.sender), sek))
  }

  /** The installation history after the peer handled a request. */
  function WithInstalled(g: Generations, before: RotationModel, after: RotationModel, f: Forward): Generations
    requires f.Request?
  {
    if |after.emitted| == |before.emitted| || !f.km.Wrapped? then g
    else Generations(if f.km.even.Some? then f.generation else g.even, if f.km.odd.Some? then f.generation else g.odd)
  }

  /** The peer's data packet under its active key. */
  function PeerPacket(r: Rotation, m: RotationModel, payload: Bytes): seq<Reverse> {
    if m.crypto.None? then [] else
      var c := m.crypto.value;
      match SlotKey(c, c.active)
      case None => []
      case Some(k) => [PeerData(c.active, Sealed(k, payload), GenerationOf(r.installed, c.active))]
  }

  function Next(r: Rotation, e: Event): Rotation {
    match e
    case PeerSends(payload) =>
      var m := Account(r.peer);
      r.(peer := m, reverse := r.reverse + PeerPacket(r, m, payload))
    case SendPacket(payload) =>
      var m := Account(r.sender);
      r.(sender := m, forward := r.forward + Encrypted(m, payload))
    case SupplyKey(sek) =>
      var m := Provide(r.sender, sek);
      var r' := WithStaged(r, sek);
      r'.(sender := m, keys := r.keys + {sek},
          forward := r.forward + Requests(Emitted(r.sender, m), Staged(r', NextSlot(r.sender))))
    case Keepalive =>
      var m := ResendPending(r.sender);
      r.(sender := m, forward := r.forward + Requests(Emitted(r.sender, m), Staged(r, NextSlot(r.sender))))
    case PeerReceives =>
      if r.forward == [] then r
      else if r.forward[0].Data? then r.(forward := r.forward[1..])
      else
        var m := OnKmReq(r.peer, r.forward[0].km);
        r.(peer := m, forward := r.forward[1..], back := r.back + Responses(Emitted(r.peer, m)),
           installed := WithInstalled(r.installed, r.peer, m, r.forward[0]))
    case SenderReceives =>
      if r.back == [] then r else r.(sender := OnKmRsp(r.sender, r.back[0]), back := r.back[1..])
    case LoseForward => if r.forward == [] then r else r.(forward := r.forward[1..])
    case LoseBack => if r.back == [] then r else r.(back := r.back[1..])
    case SenderOpens => if r.reverse == [] then r else r.(reverse := r.reverse[1..])
    case LoseReverse => if r.reverse == [] then r else r.(reverse := r.reverse[1..])
  }

  ghost predicate Run(rs: seq<Rotation>, es: seq<Event>) {
    && |rs| == |es| + 1
    && (forall k :: 0 <= k < |es| ==> Enabled(rs[k], es[k]) && rs[k + 1] == Next(rs[k], es[k]))
  }

  /** Right after the handshake: both sides hold the caller's key in the even slot; each has its own refresh rate. */
  function Start(refreshRate: nat, peerRate: nat, passphrase: Bytes, key: Key): Rotation {
    var c := Some(Crypto(Some(key), None, EvenSlot));
    Rotation(RotationStart(refreshRate, Some(passphrase), c), RotationStart(peerRate, Some(passphrase), c),
      [], [], [], {key}, Staging([key], []), Generations(1, 0))
  }

  // ---- The invariant ----

  /** A request announcing some key for a slot, as the sender writes it. */
  ghost predicate Announces(f: Forward, passphrase: Bytes, slot: KeySlot, key: Key) {
    f.Request? && f.km == Announce(passphrase, slot, key)
  }

  /** Every request for a slot among the first `n` packets announces this key. */
  ghost predicate OnlyAnnounced(q: seq<Forward>, n: nat, passphrase: Bytes, slot: KeySlot, key: Key) {
    forall p, k :: 0 <= p < |q| && p < n && Announces(q[p], passphrase, slot, k) ==> k == key
  }

  /** The peer holds the key in that slot, and no request in flight will put another one there. */
  ghost predicate Secured(r: Rotation, slot: KeySlot, key: Key)
    requires r.sender.passphrase.Some? && r.peer.crypto.Some?
  {
    && SlotKey(r.peer.crypto.value, slot) == Some(key)
    && OnlyAnnounced(r.forward, |r.forward|, r.sender.passphrase.value, slot, key)
  }

  ghost predicate Configured(r: Rotation) {
    && r.sender.passphrase.Some? && r.peer.passphrase == r.sender.passphrase
    && r.sender.crypto.Some? && r.peer.crypto.Some?
    && Machine(r.sender)
  }

  /** Everything in flight was announced by the sender, with a key that was supplied. */
  ghost predicate Known(r: Rotation)
    requires Configured(r)
  {
    && (forall p :: 0 <= p < |r.forward| && r.forward[p].Request? ==>
          exists s, k :: k in r.keys && Announces(r.forward[p], r.sender.passphrase.value, s, k))
    && (forall p, s, k :: 0 <= p < |r.back| && r.back[p] == Announce(r.sender.passphrase.value, s, k) ==> k in r.keys)
  }

  /** Every data packet in flight will find its key. */
  ghost predicate DataOpens(r: Rotation)
    requires Configured(r)
  {
    forall q :: 0 <= q < |r.forward| && r.forward[q].Data? ==>
      && SlotKey(r.peer.crypto.value, r.forward[q].slot) == Some(r.forward[q].sealed.key)
      && OnlyAnnounced(r.forward, q, r.sender.passphrase.value, r.forward[q].slot, r.forward[q].sealed.key)
  }

  /** Behind a request for the pending key, every request for its slot announces that same key. */
  ghost predicate PendingLast(q: seq<Forward>, passphrase: Bytes, slot: KeySlot, key: Key) {
    forall p, p', k :: 0 <= p < p' < |q| && Announces(q[p], passphrase, slot, key) && Announces(q[p'], passphrase, slot, k)
      ==> k == key
  }

  ghost predicate PendingSound(r: Rotation)
    requires Configured(r)
  {
    var c := r.sender.crypto.value;
    var next := Other(c.active);
    var pass := r.sender.passphrase.value;
    r.sender.pendingKm.Some? ==>
      && SlotKey(c, next).Some? && SlotKey(c, next).value in r.keys
      && r.sender.pendingKm.value == Announce(pass, next, SlotKey(c, next).value)
      && PendingLast(r.forward, pass, next, SlotKey(c, next).value)
      && (r.sender.pendingKm.value in r.back ==> Secured(r, next, SlotKey(c, next).value))
  }

  ghost predicate Inv(r: Rotation) {
    && Configured(r)
    && Known(r) && DataOpens(r) && PendingSound(r)
    && Secured(r, r.sender.crypto.value.active, SlotKey(r.sender.crypto.value, r.sender.crypto.value.active).value)
    && (r.sender.nextReady ==>
          Secured(r, Other(r.sender.crypto.value.active),
            SlotKey(r.sender.crypto.value, Other(r.sender.crypto.value.active)).value))
  }

  lemma StartHolds(refreshRate: nat, peerRate: nat, passphrase: Bytes, key: Key)
    ensures Inv(Start(refreshRate, peerRate, passphrase, key))
  {
  }

  lemma LoseForwardKeeps(r: Rotation)
    requires Inv(r) && r.forward != []
    ensures Inv(r.(forward := r.forward[1..]))
  {
    var q := r.forward[1..];
    assert forall p :: 0 <= p < |q| ==> q[p] == r.forward[p + 1];
    var r' := r.(forward := q);
    assert Known(r');
    assert DataOpens(r');
    assert PendingSound(r');
  }

  lemma LoseBackKeeps(r: Rotation)
    requires Inv(r) && r.back != []
    ensures Inv(r.(back := r.back[1..]))
  {
  }

  lemma SwitchKeeps(r: Rotation)
    requires Inv(r)
    ensures Inv(r.(sender := Switched(r.sender)))
  {
    SwitchedKeeps(r.sender);
  }

  lemma EncryptKeeps(r: Rotation, m: RotationModel, payload: Bytes)
    requires Inv(r) && Machine(m)
    requires m == MaybeAsk(CountedOne(r.sender))
    ensures Inv(r.(sender := m, forward := r.forward + Encrypted(m, payload)))
  {
    var q := r.forward + Encrypted(m, payload);
    var r' := r.(sender := m, forward := q);
    assert forall p :: 0 <= p < |r.forward| ==> q[p] == r.forward[p];
    assert Known(r') && DataOpens(r');
  }

  lemma SendKeeps(r: Rotation, payload: Bytes)
    requires Inv(r)
    ensures Inv(Next(r, SendPacket(payload)))
  {
    AccountKeeps(r.sender);
    SwitchKeeps(r);
    EncryptKeeps(r.(sender := Switched(r.sender)), Account(r.sender), payload);
  }

  lemma EmittedOne(before: RotationModel, after: RotationModel, d: KmDatagram, generation: nat)
    requires after.emitted == before.emitted + [d]
    ensures Emitted(before, after) == [d]
    ensures d.KmReq? ==> Requests(Emitted(before, after), generation) == [Request(d.km, generation)]
    ensures d.KmRsp? ==> Responses(Emitted(before, after)) == [d.km]
  {
    assert Requests([d][1..], generation) == [] && Responses([d][1..]) == [];
  }

  /** Appending a request for the slot that is not active disturbs neither the active key nor data in flight. */
  lemma AppendKeeps(r: Rotation, f: Forward, slot: KeySlot, key: Key)
    requires Configured(r) && Known(r) && DataOpens(r) && key in r.keys
    requires Announces(f, r.sender.passphrase.value, slot, key)
    ensures Known(r.(forward := r.forward + [f])) && DataOpens(r.(forward := r.forward + [f]))
    ensures forall k :: Secured(r, Other(slot), k) ==> Secured(r.(forward := r.forward + [f]), Other(slot), k)
    ensures Secured(r, slot, key) ==> Secured(r.(forward := r.forward + [f]), slot, key)
  {
    var q := r.forward + [f];
    assert forall p :: 0 <= p < |r.forward| ==> q[p] == r.forward[p];
    assert DataOpens(r.(forward := q));
  }

  lemma SupplyKeeps(r: Rotation, sek: Key)
    requires Inv(r) && sek !in r.keys
    ensures Inv(Next(r, SupplyKey(sek)))
  {
    ProvideKeeps(r.sender, sek);
    var m := Provide(r.sender, sek);
    if m != r.sender {
      var next := Other(r.sender.crypto.value.active);
      var r' := WithStaged(r, sek);
      var f := Request(Announce(r.sender.passphrase.value, next, sek), Staged(r', next));
      EmittedOne(r.sender, m, KmReq(f.km), f.generation);
      AppendKeeps(r'.(keys := r.keys + {sek}), f, next, sek);
      assert PendingLast(r.forward + [f], r.sender.passphrase.value, next, sek);
    }
  }

  lemma KeepaliveKeeps(r: Rotation)
    requires Inv(r)
    ensures Inv(Next(r, Keepalive))
  {
    var m := ResendPending(r.sender);
    if m.retries != r.sender.retries {
      var next := Other(r.sender.crypto.value.active);
      var f := Request(r.sender.pendingKm.value, Staged(r, next));
      EmittedOne(r.sender, m, KmReq(f.km), f.generation);
      AppendKeeps(r, f, next, SlotKey(r.sender.crypto.value, next).value);
    }
  }

  /** The peer installs what a request announces and echoes it. */
  lemma PeerKeeps(r: Rotation)
    requires Inv(r) && r.forward != []
    ensures Inv(Next(r, PeerReceives))
  {
    LoseForwardKeeps(r);
    if r.forward[0].Request? {
      var km := r.forward[0].km;
      var m := OnKmReq(r.peer, km);
      EmittedOne(r.peer, m, KmRsp(km), 0);
    }
  }

  lemma ResponseKeeps(r: Rotation)
    requires Inv(r) && r.back != []
    ensures Inv(Next(r, SenderReceives))
  {
    LoseBackKeeps(r);
  }

  /** Sending does not touch the peer's slots. */
  lemma PeerSendKeeps(r: Rotation, payload: Bytes)
    requires Inv(r)
    ensures Inv(Next(r, PeerSends(payload)))
  {
    var r' := Next(r, PeerSends(payload));
    assert forall s :: SlotKey(r'.peer.crypto.value, s) == SlotKey(r.peer.crypto.value, s);
    assert Known(r') && DataOpens(r') && PendingSound(r');
  }

  lemma StepKeeps(r: Rotation, e: Event)
    requires Inv(r) && Enabled(r, e)
    ensures Inv(Next(r, e))
  {
    match e
    case SendPacket(payload) => SendKeeps(r, payload);
    case SupplyKey(sek) => SupplyKeeps(r, sek);
    case Keepalive => KeepaliveKeeps(r);
    case PeerReceives => PeerKeeps(r);
    case SenderReceives => ResponseKeeps(r);
    case LoseForward => LoseForwardKeeps(r);
    case LoseBack => LoseBackKeeps(r);
    case PeerSends(payload) => PeerSendKeeps(r, payload);
    case SenderOpens =>
    case LoseReverse =>
  }

  lemma {:induction false} RunKeeps(rs: seq<Rotation>, es: seq<Event>, n: nat)
    requires Run(rs, es) && n < |rs| && Inv(rs[0])
    ensures Inv(rs[n])
  {
    if n > 0 {
      RunKeeps(rs, es, n - 1);
      StepKeeps(rs[n - 1], es[n - 1]);
    }
  }

  /**
   Over every run, however packets, requests and responses are lost and whenever keys are supplied: a data packet
   reaching the peer opens to the payload that was encrypted, and so will every one still in flight.
   */
  lemma EveryPacketDecrypts(rs: seq<Rotation>, es: seq<Event>, n: nat, refreshRate: nat, peerRate: nat, passphrase: Bytes, key: Key)
    requires Run(rs, es) && n < |es| && rs[0] == Start(refreshRate, peerRate, passphrase, key)
    requires es[n] == PeerReceives && rs[n].forward[0].Data?
    ensures rs[n].peer.crypto.Some?
    ensures OpenWith(rs[n].peer.crypto.value, rs[n].forward[0].slot, rs[n].forward[0].sealed)
            == Plain(rs[n].forward[0].sealed.payload)
  {
    StartHolds(refreshRate, peerRate, passphrase, key);
    RunKeeps(rs, es, n);
  }

  /** The sender always encrypts: the slot it uses is populated, and the peer already holds that very key. */
  lemma SenderAlwaysReady(rs: seq<Rotation>, es: seq<Event>, n: nat, refreshRate: nat, peerRate: nat, passphrase: Bytes, key: Key, payload: Bytes)
    requires Run(rs, es) && n < |es| && rs[0] == Start(refreshRate, peerRate, passphrase, key)
    requires es[n] == SendPacket(payload)
    ensures rs[n + 1].sender.crypto.Some? && rs[n + 1].peer.crypto.Some?
    ensures var c := rs[n + 1].sender.crypto.value;
            && SlotKey(c, c.active).Some?
            && SlotKey(rs[n + 1].peer.crypto.value, c.active) == SlotKey(c, c.active)
            && rs[n + 1].forward == rs[n].forward + [Data(c.active, Sealed(SlotKey(c, c.active).value, payload))]
  {
    StartHolds(refreshRate, peerRate, passphrase, key);
    RunKeeps(rs, es, n + 1);
  }
}
