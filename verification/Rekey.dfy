/**
 Stream key rotation (connection/rekey.rs) over the two key slots of a session (crypto/mod.rs); section 6.1.6 of
 draft-sharabayko-srt-01. Key wrapping is abstract: a Key Material message opens under its own passphrase only.
 */
module Rekey {
  import opened Options
  import opened Packets

  const KM_REFRESH_DEFAULT: nat := 0x100_0000
  const MAX_KM_RETRIES: nat := 60
  const U32_MAX: nat := 0xFFFF_FFFF

  type Key = Bytes

  datatype KeySlot = EvenSlot | OddSlot

  function Other(s: KeySlot): KeySlot {
    if s == EvenSlot then OddSlot else EvenSlot
  }

  /** A Key Material message: the keys it delivers, wrapped under a passphrase; or bytes that do not decode. */
  datatype KeyMaterial = Wrapped(passphrase: Bytes, even: Option<Key>, odd: Option<Key>) | Malformed(bytes: Bytes)

  /** A message announcing one key in one slot. */
  function Announce(passphrase: Bytes, slot: KeySlot, key: Key): KeyMaterial {
    if slot == EvenSlot then Wrapped(passphrase, Some(key), None) else Wrapped(passphrase, None, Some(key))
  }

  // ---- Key slots ----

  datatype Crypto = Crypto(even: Option<Key>, odd: Option<Key>, active: KeySlot)

  function SlotKey(c: Crypto, s: KeySlot): Option<Key> {
    if s == EvenSlot then c.even else c.odd
  }

  function Installed(c: Crypto, s: KeySlot, k: Key): Crypto {
    if s == EvenSlot then c.(even := Some(k)) else c.(odd := Some(k))
  }

  function InstalledAll(c: Crypto, even: Option<Key>, odd: Option<Key>): Crypto {
    c.(even := if even.Some? then even else c.even, odd := if odd.Some? then odd else c.odd)
  }

  /** A payload encrypted under a key. */
  datatype Sealed = Sealed(key: Key, payload: Bytes)

  /** Decryption: no key held, the plaintext, or a key other than the sender's (garbage, or an authentication failure). */
  datatype Opened = NoKey | Plain(payload: Bytes) | WrongKey

  class SessionCrypto {
    var even: Option<Key>
    var odd: Option<Key>
    var active: KeySlot

    function View(): Crypto
      reads this
    {
      Crypto(even, odd, active)
    }

    /** Starts from whatever slots the handshake delivered, preferring the even one. */
    constructor FromInitial(even: Option<Key>, odd: Option<Key>)
      requires even.Some? || odd.Some?
      ensures View() == Crypto(even, odd, if even.Some? then EvenSlot else OddSlot)
      ensures SlotKey(View(), View().active).Some?
    {
      this.even, this.odd := even, odd;
      active := if even.Some? then EvenSlot else OddSlot;
    }

    method InstallUnwrapped(evenKey: Option<Key>, oddKey: Option<Key>)
      modifies this
      ensures View() == InstalledAll(old(View()), evenKey, oddKey)
    {
      if evenKey.Some? {
        even := evenKey;
      }
      if oddKey.Some? {
        odd := oddKey;
      }
    }

    method Install(slot: KeySlot, key: Key)
      modifies this
      ensures View() == Installed(old(View()), slot, key)
    {
      if slot == OddSlot {
        odd := Some(key);
      } else {
        even := Some(key);
      }
    }

    method Activate(slot: KeySlot)
      modifies this`active
      ensures active == slot
    {
      active := slot;
    }

    /** Encrypts under the active key; the slot must be populated. */
    function Encrypt(payload: Bytes): Sealed
      requires SlotKey(View(), active).Some?
      reads this
    {
      Sealed(SlotKey(View(), active).value, payload)
    }

    /** Opens with the slot the packet's flag selects. */
    function Decrypt(slot: KeySlot, sealed: Sealed): (r: Opened)
      reads this
      ensures r == Plain(sealed.payload) <==> SlotKey(View(), slot) == Some(sealed.key)
    {
      OpenWith(View(), slot, sealed)
    }
  }

  function OpenWith(c: Crypto, slot: KeySlot, sealed: Sealed): Opened {
    match SlotKey(c, slot)
    case None => NoKey
    case Some(k) => if k == sealed.key then Plain(sealed.payload) else WrongKey
  }

  // ---- The rotation state machine ----

  datatype KmDatagram = KmReq(km: KeyMaterial) | KmRsp(km: KeyMaterial)

  datatype RotationModel = RotationModel(
    refreshRate: nat,
    passphrase: Option<Bytes>,          // configured encryption
    crypto: Option<Crypto>,
    onKey: nat,                         // packets sent under the active key, saturating at 32 bits
    rekeyPending: bool,                 // fresh key bytes were asked for
    nextReady: bool,                    // the next key is confirmed by the peer
    pendingKm: Option<KeyMaterial>,     // announced, not yet confirmed
    retries: nat,
    asked: nat,                         // how often fresh key bytes were asked for
    spans: seq<nat>,                    // history: packets sent under each activation, the last one current
    emitted: seq<KmDatagram>)           // history

  function Refresh(m: RotationModel): (r: nat)
    ensures r > 0
  {
    if m.refreshRate == 0 then KM_REFRESH_DEFAULT else m.refreshRate
  }

  function AnnounceAt(refresh: nat): nat {
    var ahead := if refresh / 4 < 1 then 1 else refresh / 4;
    if refresh < ahead then 0 else refresh - ahead
  }

  function RotationStart(refreshRate: nat, passphrase: Option<Bytes>, crypto: Option<Crypto>): RotationModel {
    RotationModel(refreshRate, passphrase, crypto, 0, false, false, None, 0, 0, [0], [])
  }

  /** Switches to the confirmed next key once the refresh point is reached. */
  function Switched(m: RotationModel): RotationModel {
    if m.crypto.Some? && m.nextReady && m.onKey >= Refresh(m) then
      m.(crypto := Some(m.crypto.value.(active := Other(m.crypto.value.active))),
         onKey := 0, nextReady := false, spans := m.spans + [0])
    else m
  }

  /** Counts one packet under the active key. */
  function CountedOne(m: RotationModel): RotationModel {
    m.(onKey := if m.onKey < U32_MAX then m.onKey + 1 else m.onKey,
       spans := if m.spans == [] then [] else m.spans[..|m.spans| - 1] + [m.spans[|m.spans| - 1] + 1])
  }

  /** Asks for a fresh key a quarter window before the refresh point, unless a rotation is already under way. */
  function MaybeAsk(m: RotationModel): RotationModel {
    if !m.rekeyPending && !m.nextReady && m.pendingKm.None? && m.onKey >= AnnounceAt(Refresh(m)) && m.passphrase.Some?
    then m.(rekeyPending := true, asked := m.asked + 1)
    else m
  }

  /** The accounting before each data packet. */
  function Account(m: RotationModel): RotationModel {
    if m.crypto.None? then m else MaybeAsk(CountedOne(Switched(m)))
  }

  predicate Salted(c: Crypto) {
    c.even.Some? || c.odd.Some?
  }

  /** Whether a supplied key is taken: it was asked for and there is a session to put it in. */
  predicate Solicited(m: RotationModel) {
    m.rekeyPending && m.passphrase.Some? && m.crypto.Some? && Salted(m.crypto.value)
  }

  function Provide(m: RotationModel, sek: Key): RotationModel {
    if !Solicited(m) then m
    else
      var next := Other(m.crypto.value.active);
      var km := Announce(m.passphrase.value, next, sek);
      m.(crypto := Some(Installed(m.crypto.value, next, sek)), rekeyPending := false,
         pendingKm := Some(km), retries := 0, emitted := m.emitted + [KmReq(km)])
  }

  function OnKmRsp(m: RotationModel, km: KeyMaterial): RotationModel {
    if m.pendingKm == Some(km) then m.(pendingKm := None, nextReady := true) else m
  }

  function ResendPending(m: RotationModel): RotationModel {
    if m.pendingKm.None? then m
    else if m.retries >= MAX_KM_RETRIES then m.(pendingKm := None)
    else m.(retries := m.retries + 1, emitted := m.emitted + [KmReq(m.pendingKm.value)])
  }

  function OnKmReq(m: RotationModel, km: KeyMaterial): RotationModel {
    if m.passphrase.None? || m.crypto.None? || !km.Wrapped? || km.passphrase != m.passphrase.value then m
    else m.(crypto := Some(InstalledAll(m.crypto.value, km.even, km.odd)), emitted := m.emitted + [KmRsp(km)])
  }

  class KeyRotation {
    const refreshRate: nat
    const passphrase: Option<Bytes>
    const crypto: SessionCrypto?
    var onKey: nat
    var rekeyPending: bool
    var nextReady: bool
    var pendingKm: Option<KeyMaterial>
    var retries: nat
    var asked: nat
    var outputs: seq<KmDatagram>
    ghost var model: RotationModel

    ghost predicate Valid()
      reads this, crypto
    {
      && refreshRate == model.refreshRate && passphrase == model.passphrase
      && (crypto == null <==> model.crypto.None?)
      && (crypto != null ==> crypto.View() == model.crypto.value)
      && onKey == model.onKey && rekeyPending == model.rekeyPending && nextReady == model.nextReady
      && pendingKm == model.pendingKm && retries == model.retries && asked == model.asked
      && outputs == model.emitted
      && Machine(model)
    }

    constructor (refreshRate: nat, passphrase: Option<Bytes>, crypto: SessionCrypto?)
      requires crypto != null ==> SlotKey(crypto.View(), crypto.active).Some?
      ensures Valid() && this.crypto == crypto
      ensures model == RotationStart(refreshRate, passphrase, if crypto == null then None else Some(crypto.View()))
    {
      this.refreshRate, this.passphrase, this.crypto := refreshRate, passphrase, crypto;
      onKey, rekeyPending, nextReady, pendingKm, retries, asked, outputs := 0, false, false, None, 0, 0, [];
      model := RotationStart(refreshRate, passphrase, if crypto == null then None else Some(crypto.View()));
    }

    method AccountKeyAndMaybeRotate()
      requires Valid()
      modifies this, crypto
      ensures Valid() && model == Account(old(model))
    {
      if crypto == null {
        return;
      }
      SwitchIfDue();
      CountPacket();
      AskIfDue();
    }

    method SwitchIfDue()
      requires Valid()
      modifies this, crypto
      ensures Valid() && model == Switched(old(model))
    {
      SwitchedKeeps(model);
      var refresh := if refreshRate == 0 then KM_REFRESH_DEFAULT else refreshRate;
      if crypto != null && nextReady && onKey >= refresh {
        crypto.Activate(Other(crypto.active));
        onKey, nextReady := 0, false;
      }
      model := Switched(model);
    }

    method CountPacket()
      requires Valid()
      modifies this
      ensures Valid() && model == CountedOne(old(model))
    {
      onKey := if onKey < U32_MAX then onKey + 1 else onKey;
      model := CountedOne(model);
    }

    method AskIfDue()
      requires Valid()
      modifies this
      ensures Valid() && model == MaybeAsk(old(model))
    {
      var refresh := if refreshRate == 0 then KM_REFRESH_DEFAULT else refreshRate;
      if !rekeyPending && !nextReady && pendingKm.None? && onKey >= AnnounceAt(refresh) && passphrase.Some? {
        rekeyPending := true;
        asked := asked + 1;
      }
      model := MaybeAsk(model);
    }

    method ProvideRekey(sek: Key)
      requires Valid()
      modifies this, crypto
      ensures Valid() && model == Provide(old(model), sek)
    {
      ProvideKeeps(model, sek);
      if !rekeyPending || passphrase.None? || crypto == null || (crypto.even.None? && crypto.odd.None?) {
        return;
      }
      var next := Other(crypto.active);
      var km := Announce(passphrase.value, next, sek);
      crypto.Install(next, sek);
      outputs := outputs + [KmReq(km)];
      rekeyPending, pendingKm, retries := false, Some(km), 0;
      model := Provide(model, sek);
    }

    method HandleKmRsp(km: KeyMaterial)
      requires Valid()
      modifies this
      ensures Valid() && model == OnKmRsp(old(model), km)
    {
      if pendingKm == Some(km) {
        pendingKm, nextReady := None, true;
      }
      model := OnKmRsp(model, km);
    }

    method ResendPendingKm()
      requires Valid()
      modifies this
      ensures Valid() && model == ResendPending(old(model))
    {
      if pendingKm.Some? {
        if retries >= MAX_KM_RETRIES {
          pendingKm := None;
        } else {
          outputs := outputs + [KmReq(pendingKm.value)];
          retries := retries + 1;
        }
      }
      model := ResendPending(model);
    }

    method HandleKmReq(km: KeyMaterial)
      requires Valid()
      modifies this, crypto
      ensures Valid() && model == OnKmReq(old(model), km)
    {
      OnKmReqKeeps(model, km);
      if passphrase.None? || !km.Wrapped? || crypto == null || km.passphrase != passphrase.value {
        return;
      }
      crypto.InstallUnwrapped(km.even, km.odd);
      outputs := outputs + [KmRsp(km)];
      model := OnKmReq(model, km);
    }

    /** The accounting and encryption of one data packet; the active slot is populated by the machine invariant. */
    method SendPacket(payload: Bytes) returns (slot: KeySlot, sealed: Sealed)
      requires Valid() && crypto != null
      modifies this, crypto
      ensures Valid() && model == Account(old(model))
      ensures slot == model.crypto.value.active && SlotKey(model.crypto.value, slot) == Some(sealed.key)
      ensures sealed.payload == payload
    {
      AccountKeyAndMaybeRotate();
      slot := crypto.active;
      sealed := crypto.Encrypt(payload);
    }
  }

  // ---- The machine invariant ----

  /** At most one stage of a rotation at a time. */
  ghost predicate OneStage(m: RotationModel) {
    && !(m.rekeyPending && m.nextReady)
    && !(m.rekeyPending && m.pendingKm.Some?)
    && !(m.nextReady && m.pendingKm.Some?)
  }

  /** The active slot is populated, and so is the one a switch would activate whenever a switch is possible. */
  ghost predicate Populated(m: RotationModel) {
    m.crypto.Some? ==>
      && SlotKey(m.crypto.value, m.crypto.value.active).Some?
      && (m.pendingKm.Some? || m.nextReady ==> SlotKey(m.crypto.value, Other(m.crypto.value.active)).Some?)
  }

  /** Every completed activation encrypted at least the refresh count; the current one at least what is counted. */
  ghost predicate FullSpans(m: RotationModel) {
    && m.spans != [] && m.spans[|m.spans| - 1] >= m.onKey
    && (forall k :: 0 <= k < |m.spans| - 1 ==> m.spans[k] >= Refresh(m))
  }

  ghost predicate Machine(m: RotationModel) {
    OneStage(m) && Populated(m) && FullSpans(m)
  }

  lemma SwitchedKeeps(m: RotationModel)
    requires Machine(m)
    ensures Machine(Switched(m))
  {
  }

  lemma AccountKeeps(m: RotationModel)
    requires Machine(m)
    ensures Machine(Account(m))
  {
    SwitchedKeeps(m);
    assert FullSpans(CountedOne(Switched(m)));
  }

  lemma ProvideKeeps(m: RotationModel, sek: Key)
    requires Machine(m)
    ensures Machine(Provide(m, sek))
  {
  }

  lemma OnKmReqKeeps(m: RotationModel, km: KeyMaterial)
    requires Machine(m)
    ensures Machine(OnKmReq(m, km))
  {
  }

  /** Anything that can happen to a rotating connection. */
  datatype RotationInput = Packet | FreshKey(sek: Key) | RspIn(km: KeyMaterial) | ReqIn(km: KeyMaterial) | KeepaliveTimer

  function RotationStep(m: RotationModel, x: RotationInput): RotationModel {
    match x
    case Packet => Account(m)
    case FreshKey(sek) => Provide(m, sek)
    case RspIn(km) => OnKmRsp(m, km)
    case ReqIn(km) => OnKmReq(m, km)
    case KeepaliveTimer => ResendPending(m)
  }

  function RotationRun(m: RotationModel, xs: seq<RotationInput>): RotationModel {
    if xs == [] then m else RotationStep(RotationRun(m, xs[..|xs| - 1]), xs[|xs| - 1])
  }

  lemma MachineStep(m: RotationModel, x: RotationInput)
    requires Machine(m)
    ensures Machine(RotationStep(m, x))
  {
    match x
    case Packet => AccountKeeps(m);
    case FreshKey(sek) => ProvideKeeps(m, sek);
    case RspIn(km) =>
    case ReqIn(km) => OnKmReqKeeps(m, km);
    case KeepaliveTimer =>
  }

  /**
   In every reachable state, whatever packets, keys, requests, responses and timers came, at most one rotation stage
   is open, the slot new packets are encrypted with is populated, and each key that was ever switched away from had
   encrypted at least the refresh count.
   */
  lemma {:induction false} MachineHolds(m: RotationModel, xs: seq<RotationInput>)
    requires Machine(m)
    ensures Machine(RotationRun(m, xs))
  {
    if xs != [] {
      MachineHolds(m, xs[..|xs| - 1]);
      MachineStep(RotationRun(m, xs[..|xs| - 1]), xs[|xs| - 1]);
    }
  }
}
