/**
 Data sent against the direction of a key rotation. Both directions share the key slots, and the rotating side stages
 its next key in a slot at once, before the peer has it. A packet of the other side therefore opens exactly when no key
 was staged in its slot that the peer had not installed when it sealed the packet.
 */
module RekeyReverse {
  import opened Options
  import opened Packets
  import opened Rekey
  import opened RekeySystem

  /** No key twice in a slot. */
  ghost predicate DistinctKeys(ks: seq<Key>) {
    forall i, j :: 0 <= i < j < |ks| ==> ks[i] != ks[j]
  }

  /** The key of a generation, counted from one. */
  ghost predicate IsGeneration(ks: seq<Key>, key: Key, generation: nat) {
    1 <= generation <= |ks| && ks[generation - 1] == key
  }

  ghost predicate Fresh(g: Staging, keys: set<Key>) {
    && DistinctKeys(g.even) && DistinctKeys(g.odd)
    && (forall k :: k in g.even ==> k in keys) && (forall k :: k in g.odd ==> k in keys)
  }

  ghost predicate IsLast(slot: Option<Key>, ks: seq<Key>) {
    slot == if ks == [] then None else Some(ks[|ks| - 1])
  }

  /** The rotating side holds the last key staged in each slot. */
  ghost predicate HoldsLast(m: RotationModel, g: Staging) {
    m.crypto.Some? && IsLast(m.crypto.value.even, g.even) && IsLast(m.crypto.value.odd, g.odd)
  }

  ghost predicate TagIn(f: Forward, pass: Bytes, slot: KeySlot, ks: seq<Key>) {
    f.Request? && 1 <= f.generation <= |ks| && f.km == Announce(pass, slot, ks[f.generation - 1])
  }

  /** A request announces the generation it says. */
  ghost predicate Tagged(f: Forward, pass: Bytes, g: Staging) {
    f.Request? ==> TagIn(f, pass, EvenSlot, g.even) || TagIn(f, pass, OddSlot, g.odd)
  }

  ghost predicate AllTagged(q: seq<Forward>, pass: Bytes, g: Staging) {
    forall p :: 0 <= p < |q| ==> Tagged(q[p], pass, g)
  }

  ghost predicate Tracks(slot: Option<Key>, ks: seq<Key>, generation: nat) {
    slot.Some? ==> IsGeneration(ks, slot.value, generation)
  }

  /** The peer's slots hold the generations it installed; it never rotates. */
  ghost predicate PeerTracks(m: RotationModel, g: Staging, installed: Generations) {
    && m.crypto.Some? && m.pendingKm.None? && !m.nextReady
    && m.crypto.value.active == EvenSlot && m.crypto.value.even.Some?
    && Tracks(m.crypto.value.even, g.even, installed.even) && Tracks(m.crypto.value.odd, g.odd, installed.odd)
  }

  ghost predicate ReverseTagged(q: seq<Reverse>, g: Staging) {
    forall p :: 0 <= p < |q| ==> IsGeneration(StagedKeys(g, q[p].slot), q[p].sealed.key, q[p].generation)
  }

  ghost predicate ReverseInv(r: Rotation) {
    && r.sender.passphrase.Some? && r.peer.passphrase == r.sender.passphrase
    && Fresh(r.staged, r.keys) && HoldsLast(r.sender, r.staged)
    && AllTagged(r.forward, r.sender.passphrase.value, r.staged)
    && PeerTracks(r.peer, r.staged, r.installed) && ReverseTagged(r.reverse, r.staged)
  }

  lemma StartReverse(refreshRate: nat, peerRate: nat, passphrase: Bytes, key: Key)
    ensures ReverseInv(Start(refreshRate, peerRate, passphrase, key))
  {
  }

  lemma SendReverse(r: Rotation, payload: Bytes)
    requires ReverseInv(r)
    ensures ReverseInv(Next(r, SendPacket(payload)))
  {
    var m := Account(r.sender);
    assert m.passphrase == r.sender.passphrase && HoldsLast(m, r.staged);
    TaggedAppend(r.forward, Encrypted(m, payload), r.sender.passphrase.value, r.staged);
  }

  lemma TaggedAppend(q: seq<Forward>, more: seq<Forward>, pass: Bytes, g: Staging)
    requires AllTagged(q, pass, g) && AllTagged(more, pass, g)
    ensures AllTagged(q + more, pass, g)
  {
  }

  lemma PeerSendReverse(r: Rotation, payload: Bytes)
    requires ReverseInv(r)
    ensures ReverseInv(Next(r, PeerSends(payload)))
  {
    var m := Account(r.peer);
    assert m.crypto == r.peer.crypto && m.passphrase == r.peer.passphrase && PeerTracks(m, r.staged, r.installed);
    var more := PeerPacket(r, m, payload);
    assert ReverseTagged(more, r.staged);
  }

  /** Staging one more fresh key keeps every generation's key. */
  lemma StagingGrows(r: Rotation, slot: KeySlot, sek: Key)
    requires ReverseInv(r) && sek !in r.keys
    ensures var g := StagedMore(r.staged, slot, sek);
            && Fresh(g, r.keys + {sek}) && AllTagged(r.forward, r.sender.passphrase.value, g)
            && PeerTracks(r.peer, g, r.installed) && ReverseTagged(r.reverse, g)
  {
  }

  lemma SupplyReverse(r: Rotation, sek: Key)
    requires ReverseInv(r) && sek !in r.keys
    ensures ReverseInv(Next(r, SupplyKey(sek)))
  {
    if Solicited(r.sender) {
      var m, next := Provide(r.sender, sek), NextSlot(r.sender);
      var pass, g := r.sender.passphrase.value, StagedMore(r.staged, next, sek);
      var f := Request(Announce(pass, next, sek), |StagedKeys(g, next)|);
      StagingGrows(r, next, sek);
      EmittedOne(r.sender, m, KmReq(f.km), f.generation);
      assert Tagged(f, pass, g);
      TaggedAppend(r.forward, [f], pass, g);
      assert HoldsLast(m, g);
    }
  }

  lemma KeepaliveReverse(r: Rotation)
    requires Inv(r) && ReverseInv(r)
    ensures ReverseInv(Next(r, Keepalive))
  {
    var m := ResendPending(r.sender);
    assert HoldsLast(m, r.staged) && m.passphrase == r.sender.passphrase;
    if m.retries != r.sender.retries {
      var pass, next := r.sender.passphrase.value, NextSlot(r.sender);
      var f := Request(r.sender.pendingKm.value, Staged(r, next));
      EmittedOne(r.sender, m, KmReq(f.km), f.generation);
      assert Tagged(f, pass, r.staged);
      TaggedAppend(r.forward, [f], pass, r.staged);
    }
  }

  lemma PeerReverse(r: Rotation)
    requires ReverseInv(r) && r.forward != []
    ensures ReverseInv(Next(r, PeerReceives))
  {
    var f := r.forward[0];
    assert Tagged(f, r.sender.passphrase.value, r.staged);
    assert AllTagged(r.forward[1..], r.sender.passphrase.value, r.staged);
    if f.Request? {
      var m := OnKmReq(r.peer, f.km);
      assert PeerTracks(m, r.staged, WithInstalled(r.installed, r.peer, m, f));
    }
  }

  lemma StepReverse(r: Rotation, e: Event)
    requires Inv(r) && ReverseInv(r) && Enabled(r, e)
    ensures ReverseInv(Next(r, e))
  {
    match e
    case SendPacket(payload) => SendReverse(r, payload);
    case PeerSends(payload) => PeerSendReverse(r, payload);
    case SupplyKey(sek) => SupplyReverse(r, sek);
    case Keepalive => KeepaliveReverse(r);
    case PeerReceives => PeerReverse(r);
    case SenderReceives =>
      assert HoldsLast(OnKmRsp(r.sender, r.back[0]), r.staged);
    case SenderOpens =>
    case LoseForward =>
    case LoseBack =>
    case LoseReverse =>
  }

  lemma {:induction false} RunReverse(rs: seq<Rotation>, es: seq<Event>, n: nat)
    requires Run(rs, es) && n < |rs| && Inv(rs[0]) && ReverseInv(rs[0])
    ensures ReverseInv(rs[n])
  {
    if n > 0 {
      RunReverse(rs, es, n - 1);
      RunKeeps(rs, es, n - 1);
      StepReverse(rs[n - 1], es[n - 1]);
    }
  }

  // ---- Exactly when a packet of the other side opens ----

  /** A step that stages a key in a slot: a solicited key is supplied while the other slot is active. */
  ghost predicate StagesInto(r: Rotation, e: Event, slot: KeySlot) {
    e.SupplyKey? && Solicited(r.sender) && NextSlot(r.sender) == slot
  }

  lemma StepStages(r: Rotation, e: Event, slot: KeySlot)
    ensures Staged(Next(r, e), slot) == Staged(r, slot) + (if StagesInto(r, e, slot) then 1 else 0)
  {
  }

  /** No key is staged in the slot from step `m` up to step `n`. */
  ghost predicate Unstaged(rs: seq<Rotation>, es: seq<Event>, slot: KeySlot, m: nat, n: nat)
    requires n <= |es| && n <= |rs|
  {
    forall k :: m <= k < n ==> !StagesInto(rs[k], es[k], slot)
  }

  /** The counter of a slot follows the steps that stage something in it. */
  ghost predicate Counted(rs: seq<Rotation>, es: seq<Event>, slot: KeySlot) {
    |rs| == |es| + 1 && forall k :: 0 <= k < |es| ==>
      Staged(rs[k + 1], slot) == Staged(rs[k], slot) + (if StagesInto(rs[k], es[k], slot) then 1 else 0)
  }

  lemma RunCounted(rs: seq<Rotation>, es: seq<Event>, slot: KeySlot)
    requires Run(rs, es)
    ensures Counted(rs, es, slot)
  {
    forall k | 0 <= k < |es|
      ensures Staged(rs[k + 1], slot) == Staged(rs[k], slot) + (if StagesInto(rs[k], es[k], slot) then 1 else 0)
    {
      StepStages(rs[k], es[k], slot);
    }
  }

  /** The counter moves exactly when something is staged. */
  lemma {:induction false} StagedCounts(rs: seq<Rotation>, es: seq<Event>, slot: KeySlot, m: nat, n: nat)
    requires Counted(rs, es, slot) && m <= n < |rs|
    ensures Staged(rs[m], slot) <= Staged(rs[n], slot)
    ensures Staged(rs[m], slot) == Staged(rs[n], slot) <==> Unstaged(rs, es, slot, m, n)
  {
    if m < n {
      StagedCounts(rs, es, slot, m, n - 1);
      assert Unstaged(rs, es, slot, m, n) <==> Unstaged(rs, es, slot, m, n - 1) && !StagesInto(rs[n - 1], es[n - 1], slot);
    }
  }

  lemma OpensIffLatest(r: Rotation, p: Reverse)
    requires ReverseInv(r) && IsGeneration(StagedKeys(r.staged, p.slot), p.sealed.key, p.generation)
    ensures OpenWith(r.sender.crypto.value, p.slot, p.sealed) == Plain(p.sealed.payload) <==> p.generation == Staged(r, p.slot)
    ensures OpenWith(r.sender.crypto.value, p.slot, p.sealed) != NoKey
  {
    var ks := StagedKeys(r.staged, p.slot);
    assert SlotKey(r.sender.crypto.value, p.slot) == Some(ks[|ks| - 1]);
    assert DistinctKeys(ks);
  }

  /** The packet a peer's send puts on the wire: under its even key, tagged with the generation it installed. */
  ghost predicate SealedAt(r: Rotation, e: Event, p: Reverse) {
    e == PeerSends(p.sealed.payload) && PeerPacket(r, Account(r.peer), p.sealed.payload) == [p]
  }

  /** Every packet of the other side in flight was sealed at some step of the run. */
  lemma {:induction false} SealedSomewhere(rs: seq<Rotation>, es: seq<Event>, n: nat, p: Reverse) returns (m: nat)
    requires Run(rs, es) && n < |rs| && rs[0].reverse == [] && p in rs[n].reverse
    ensures m < n && SealedAt(rs[m], es[m], p)
  {
    var r, e := rs[n - 1], es[n - 1];
    if p in r.reverse {
      m := SealedSomewhere(rs, es, n - 1, p);
    } else {
      assert e.PeerSends? && p in PeerPacket(r, Account(r.peer), e.payload);
      m := n - 1;
    }
  }

  lemma SealedGeneration(r: Rotation, e: Event, p: Reverse)
    requires ReverseInv(r) && SealedAt(r, e, p)
    ensures p.slot == EvenSlot && p.generation == GenerationOf(r.installed, p.slot) <= Staged(r, p.slot)
    ensures IsGeneration(StagedKeys(r.staged, p.slot), p.sealed.key, p.generation)
  {
    assert Account(r.peer).crypto == r.peer.crypto;
  }

  /**
   Over every run, a packet of the side that does not rotate opens on arrival if and only if, when it was sealed, the
   peer had installed as many keys in that slot as had been staged, and none was staged there between sealing and
   arrival. Otherwise a different key meets it. This holds of every step that could have sealed it.
   */
  lemma ReverseOpensExactly(
    rs: seq<Rotation>, es: seq<Event>, m: nat, n: nat, refreshRate: nat, peerRate: nat, passphrase: Bytes, key: Key)
    requires Run(rs, es) && m < n < |es| && rs[0] == Start(refreshRate, peerRate, passphrase, key) && es[n] == SenderOpens
    requires SealedAt(rs[m], es[m], rs[n].reverse[0])
    ensures rs[n].sender.crypto.Some?
    ensures var p := rs[n].reverse[0];
            var outcome := OpenWith(rs[n].sender.crypto.value, p.slot, p.sealed);
            && (outcome == Plain(p.sealed.payload) <==>
                  GenerationOf(rs[m].installed, p.slot) == Staged(rs[m], p.slot) && Unstaged(rs, es, p.slot, m, n))
            && (outcome == Plain(p.sealed.payload) || outcome == WrongKey)
  {
    var p := rs[n].reverse[0];
    StartHolds(refreshRate, peerRate, passphrase, key);
    StartReverse(refreshRate, peerRate, passphrase, key);
    RunReverse(rs, es, m);
    RunReverse(rs, es, n);
    SealedGeneration(rs[m], es[m], p);
    RunCounted(rs, es, p.slot);
    StagedCounts(rs, es, p.slot, m, n);
    OpensIffLatest(rs[n], p);
  }

  /** Until a second key is staged in the even slot, the whole first rotation included, every packet opens. */
  lemma FirstRotationHarmless(
    rs: seq<Rotation>, es: seq<Event>, n: nat, refreshRate: nat, peerRate: nat, passphrase: Bytes, key: Key)
    requires Run(rs, es) && n < |es| && rs[0] == Start(refreshRate, peerRate, passphrase, key) && es[n] == SenderOpens
    requires Unstaged(rs, es, EvenSlot, 0, n)
    ensures rs[n].sender.crypto.Some?
    ensures OpenWith(rs[n].sender.crypto.value, rs[n].reverse[0].slot, rs[n].reverse[0].sealed)
            == Plain(rs[n].reverse[0].sealed.payload)
  {
    var m := SealedSomewhere(rs, es, n, rs[n].reverse[0]);
    ReverseOpensExactly(rs, es, m, n, refreshRate, peerRate, passphrase, key);
    StartHolds(refreshRate, peerRate, passphrase, key);
    StartReverse(refreshRate, peerRate, passphrase, key);
    RunReverse(rs, es, m);
    SealedGeneration(rs[m], es[m], rs[n].reverse[0]);
    RunCounted(rs, es, EvenSlot);
    StagedCounts(rs, es, EvenSlot, 0, m);
  }

  // ---- A run in which one does not open ----

  lemma RunExtend(rs: seq<Rotation>, es: seq<Event>, e: Event)
    requires Run(rs, es) && Enabled(rs[|es|], e)
    ensures Run(rs + [Next(rs[|es|], e)], es + [e])
  {
    var rs', es' := rs + [Next(rs[|es|], e)], es + [e];
    forall k | 0 <= k < |es'| ensures Enabled(rs'[k], es'[k]) && rs'[k + 1] == Next(rs'[k], es'[k]) {
      if k < |es| {
        assert rs'[k] == rs[k] && rs'[k + 1] == rs[k + 1] && es'[k] == es[k];
      }
    }
  }

  /** The rotating side after its first key was announced, its data packet lost, with a refresh of one packet. */
  function Announced(passphrase: Bytes, k0: Key, k1: Key): Rotation {
    Next(Next(Next(Start(1, 1, passphrase, k0), SendPacket([])), SupplyKey(k1)), LoseForward)
  }

  lemma AnnouncedState(passphrase: Bytes, k0: Key, k1: Key)
    ensures var r := Announced(passphrase, k0, k1);
            && r.sender.crypto == Some(Crypto(Some(k0), Some(k1), EvenSlot))
            && r.sender.refreshRate == 1 && r.sender.onKey == 1 && !r.sender.nextReady && !r.sender.rekeyPending
            && r.sender.passphrase == Some(passphrase) && r.sender.pendingKm == Some(Announce(passphrase, OddSlot, k1))
            && r.peer == RotationStart(1, Some(passphrase), Some(Crypto(Some(k0), None, EvenSlot)))
            && r.forward == [Request(Announce(passphrase, OddSlot, k1), 1)] && r.back == [] && r.reverse == []
            && r.keys == {k0, k1} && r.installed == Generations(1, 0)
  {
    var asked := Next(Start(1, 1, passphrase, k0), SendPacket([]));
    EmittedOne(asked.sender, Next(asked, SupplyKey(k1)).sender, KmReq(Announce(passphrase, OddSlot, k1)), 1);
  }

  /** The first key confirmed and in use, the next one asked for. */
  function Rotated(r: Rotation): Rotation {
    Next(Next(Next(r, PeerReceives), SenderReceives), SendPacket([]))
  }

  lemma RotatedState(r: Rotation, passphrase: Bytes, k0: Key, k1: Key)
    requires r == Announced(passphrase, k0, k1)
    ensures Next(r, PeerReceives).back == [Announce(passphrase, OddSlot, k1)]
    ensures var t := Rotated(r);
            && t.sender.crypto == Some(Crypto(Some(k0), Some(k1), OddSlot)) && t.sender.rekeyPending
            && t.sender.passphrase == Some(passphrase)
            && t.peer.crypto == Some(Crypto(Some(k0), Some(k1), EvenSlot)) && !t.peer.nextReady
            && t.reverse == [] && t.keys == {k0, k1} && t.installed.even == 1
  {
    AnnouncedState(passphrase, k0, k1);
    EmittedOne(r.peer, Next(r, PeerReceives).peer, KmRsp(Announce(passphrase, OddSlot, k1)), 1);
  }

  /** The peer seals a packet, then a second key is staged in its slot. */
  lemma OvertakenState(t: Rotation, k0: Key, k1: Key, k2: Key, payload: Bytes)
    requires t.sender.crypto == Some(Crypto(Some(k0), Some(k1), OddSlot)) && t.sender.rekeyPending
    requires t.sender.passphrase.Some? && !t.peer.nextReady && t.reverse == [] && k0 != k2
    requires t.peer.crypto == Some(Crypto(Some(k0), Some(k1), EvenSlot))
    ensures Next(t, PeerSends(payload)).keys == t.keys
    ensures var u := Next(Next(t, PeerSends(payload)), SupplyKey(k2));
            && u.reverse == [PeerData(EvenSlot, Sealed(k0, payload), t.installed.even)]
            && u.sender.crypto == Some(Crypto(Some(k2), Some(k1), OddSlot))
  {
  }

  /**
   A run every step of which is enabled, ending with the arrival of a packet that no longer opens: it was sealed under
   the handshake key, and the second rotation has since staged a key in that slot.
   */
  lemma ReverseCanFail(passphrase: Bytes, k0: Key, k1: Key, k2: Key, payload: Bytes)
    returns (rs: seq<Rotation>, es: seq<Event>)
    requires k0 != k1 && k0 != k2 && k1 != k2
    ensures Run(rs, es) && rs[0] == Start(1, 1, passphrase, k0) && |es| > 0 && es[|es| - 1] == SenderOpens
    ensures var r := rs[|es| - 1];
            && r.sender.crypto.Some? && r.reverse != [] && r.reverse[0].sealed.payload == payload
            && OpenWith(r.sender.crypto.value, r.reverse[0].slot, r.reverse[0].sealed) == WrongKey
  {
    rs, es := ToRotated(passphrase, k0, k1);
    RotatedState(Announced(passphrase, k0, k1), passphrase, k0, k1);
    OvertakenState(rs[|es|], k0, k1, k2, payload);
    rs, es := ExtendThrice(rs, es, PeerSends(payload), SupplyKey(k2), SenderOpens);
  }

  lemma ExtendThrice(rs: seq<Rotation>, es: seq<Event>, e1: Event, e2: Event, e3: Event)
    returns (rs': seq<Rotation>, es': seq<Event>)
    requires Run(rs, es)
    requires Enabled(rs[|es|], e1) && Enabled(Next(rs[|es|], e1), e2) && Enabled(Next(Next(rs[|es|], e1), e2), e3)
    ensures Run(rs', es') && rs'[0] == rs[0] && es' == es + [e1, e2, e3]
    ensures rs'[|es'| - 1] == Next(Next(rs[|es|], e1), e2) && rs'[|es'|] == Next(Next(Next(rs[|es|], e1), e2), e3)
  {
    rs', es' := Extend(rs, es, e1);
    rs', es' := Extend(rs', es', e2);
    rs', es' := Extend(rs', es', e3);
  }

  lemma ToRotated(passphrase: Bytes, k0: Key, k1: Key) returns (rs: seq<Rotation>, es: seq<Event>)
    requires k0 != k1
    ensures Run(rs, es) && rs[0] == Start(1, 1, passphrase, k0) && rs[|es|] == Rotated(Announced(passphrase, k0, k1))
  {
    rs, es := ToAnnounced(passphrase, k0, k1);
    AnnouncedState(passphrase, k0, k1);
    RotatedState(rs[|es|], passphrase, k0, k1);
    rs, es := ExtendThrice(rs, es, PeerReceives, SenderReceives, SendPacket([]));
  }

  lemma Extend(rs: seq<Rotation>, es: seq<Event>, e: Event) returns (rs': seq<Rotation>, es': seq<Event>)
    requires Run(rs, es) && Enabled(rs[|es|], e)
    ensures Run(rs', es') && es' == es + [e] && rs'[|es'|] == Next(rs[|es|], e)
    ensures rs'[0] == rs[0] && rs'[|es|] == rs[|es|]
  {
    RunExtend(rs, es, e);
    rs', es' := rs + [Next(rs[|es|], e)], es + [e];
  }

  lemma ToAnnounced(passphrase: Bytes, k0: Key, k1: Key) returns (rs: seq<Rotation>, es: seq<Event>)
    requires k0 != k1
    ensures Run(rs, es) && rs[0] == Start(1, 1, passphrase, k0) && rs[|es|] == Announced(passphrase, k0, k1)
  {
    rs, es := [Start(1, 1, passphrase, k0)], [];
    rs, es := ExtendThrice(rs, es, SendPacket([]), SupplyKey(k1), LoseForward);
  }
}
