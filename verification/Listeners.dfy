/** The listener (listener.rs): cookies, socket ids, parked conclusions and accepted connections. */
module Listeners {
  import opened Options
  import opened SeqNumbers
  import opened Packets
  import opened HandshakeCodec
  import opened Handshaking

  const COOKIE_QUANTUM: nat := 60_000_000
  const PENDING_TTL: nat := 30_000_000
  const REJ_BADSECRET: U32 := 10
  const REJ_UNSECURE: U32 := 11

  /** A peer address; the 16-byte form goes into responses. */
  datatype Address = Address(ip: Bytes, port: U16)

  datatype Parked = Parked(from: Address, conclusion: Handshake, since: nat)

  /** A keyed hash of an address and a time quantum. */
  type CookieHash = (Address, nat) -> U32

  // ---- Cookies ----

  function Quantum(start: nat, now: nat): nat {
    if now < start then 0 else (now - start) / COOKIE_QUANTUM
  }

  /** The current or the previous quantum's cookie. */
  predicate CookieValid(hash: CookieHash, start: nat, cookie: U32, from: Address, now: nat) {
    var q := Quantum(start, now);
    cookie == hash(from, q) || (q > 0 && cookie == hash(from, q - 1))
  }

  /**
   A cookie handed out in one quantum is accepted in another exactly when that is the same or the next one, or when the
   hash of one of the two quanta then in force happens to collide with it. So it is accepted for at least a minute, and
   after two minutes only by collision.
   */
  lemma CookieLifetime(hash: CookieHash, start: nat, from: Address, issued: nat, now: nat)
    requires start <= issued <= now
    ensures var a, b := Quantum(start, issued), Quantum(start, now);
            && a <= b
            && (CookieValid(hash, start, hash(from, a), from, now) <==>
                  b <= a + 1 || hash(from, a) == hash(from, b) || hash(from, a) == hash(from, b - 1))
            && (now < issued + COOKIE_QUANTUM ==> b <= a + 1)
            && (now >= issued + 2 * COOKIE_QUANTUM ==> b >= a + 2)
  {
    var a, b := issued - start, now - start;
    assert a / COOKIE_QUANTUM <= b / COOKIE_QUANTUM;
    if now < issued + COOKIE_QUANTUM {
      assert b / COOKIE_QUANTUM <= a / COOKIE_QUANTUM + 1;
    }
    if now >= issued + 2 * COOKIE_QUANTUM {
      assert b / COOKIE_QUANTUM >= a / COOKIE_QUANTUM + 2;
    }
  }

  // ---- Parked conclusions ----

  ghost predicate Distinct(ps: seq<Parked>) {
    forall i, j :: 0 <= i < j < |ps| ==> ps[i].from != ps[j].from
  }

  /** The list holds one entry per address, the one the map says. */
  ghost predicate Holds(ps: seq<Parked>, m: map<Address, Parked>) {
    && Distinct(ps)
    && (forall i :: 0 <= i < |ps| ==> ps[i].from in m && m[ps[i].from] == ps[i])
    && (forall a :: a in m ==> exists i :: 0 <= i < |ps| && ps[i].from == a)
  }

  method Find(ps: seq<Parked>, from: Address) returns (r: Option<nat>)
    ensures r.Some? ==> r.value < |ps| && ps[r.value].from == from
    ensures r.None? ==> forall i :: 0 <= i < |ps| ==> ps[i].from != from
  {
    for i := 0 to |ps|
      invariant forall j :: 0 <= j < i ==> ps[j].from != from
    {
      if ps[i].from == from {
        return Some(i);
      }
    }
    return None;
  }

  /** Removes one entry, moving the last into its place. */
  function SwapRemove(ps: seq<Parked>, i: nat): seq<Parked>
    requires i < |ps|
  {
    ps[i := ps[|ps| - 1]][..|ps| - 1]
  }

  lemma SwapRemoveHolds(ps: seq<Parked>, m: map<Address, Parked>, i: nat)
    requires Holds(ps, m) && i < |ps|
    ensures Holds(SwapRemove(ps, i), m - {ps[i].from})
  {
    var qs := SwapRemove(ps, i);
    var n := |ps| - 1;
    assert forall k :: 0 <= k < n ==> qs[k] == if k == i then ps[n] else ps[k];
    forall a | a in m - {ps[i].from}
      ensures exists k :: 0 <= k < |qs| && qs[k].from == a
    {
      var k :| 0 <= k < |ps| && ps[k].from == a;
      assert qs[if k == n then i else k].from == a;
    }
  }

  lemma PushHolds(ps: seq<Parked>, m: map<Address, Parked>, p: Parked)
    requires Holds(ps, m) && p.from !in m
    ensures Holds(ps + [p], m[p.from := p])
  {
    var qs := ps + [p];
    assert qs[|ps|] == p;
    forall a | a in m
      ensures exists k :: 0 <= k < |qs| && qs[k].from == a
    {
      var k :| 0 <= k < |ps| && ps[k].from == a;
      assert qs[k].from == a;
    }
  }

  lemma ReplaceHolds(ps: seq<Parked>, m: map<Address, Parked>, i: nat, p: Parked)
    requires Holds(ps, m) && i < |ps| && ps[i].from == p.from
    ensures Holds(ps[i := p], m[p.from := p])
  {
    var qs, m' := ps[i := p], m[p.from := p];
    forall a | a in m'
      ensures exists k :: 0 <= k < |qs| && qs[k].from == a
    {
      var k :| 0 <= k < |ps| && ps[k].from == a;
      assert qs[k].from == a;
    }
  }

  predicate Live(p: Parked, now: nat) {
    now < p.since + PENDING_TTL
  }

  function LiveOnly(m: map<Address, Parked>, now: nat): map<Address, Parked> {
    map a | a in m && Live(m[a], now) :: m[a]
  }

  /** The entries not yet expired. */
  method Unexpired(ps: seq<Parked>, ghost m: map<Address, Parked>, now: nat) returns (qs: seq<Parked>)
    requires Holds(ps, m)
    ensures Holds(qs, LiveOnly(m, now))
  {
    qs := [];
    for i := 0 to |ps|
      invariant forall k :: 0 <= k < |qs| ==> qs[k] in ps[..i] && Live(qs[k], now)
      invariant forall k :: 0 <= k < i && Live(ps[k], now) ==> ps[k] in qs
      invariant Distinct(qs)
    {
      if Live(ps[i], now) {
        StillDistinct(ps, i, qs);
        qs := qs + [ps[i]];
      }
    }
    KeptHolds(ps, m, now, qs);
  }

  lemma StillDistinct(ps: seq<Parked>, i: nat, qs: seq<Parked>)
    requires Distinct(ps) && i < |ps| && Distinct(qs) && (forall k :: 0 <= k < |qs| ==> qs[k] in ps[..i])
    ensures Distinct(qs + [ps[i]])
  {
    forall k | 0 <= k < |qs|
      ensures qs[k].from != ps[i].from
    {
      var j :| 0 <= j < |ps[..i]| && ps[..i][j] == qs[k];
      assert ps[j] == qs[k];
    }
  }

  lemma KeptHolds(ps: seq<Parked>, m: map<Address, Parked>, now: nat, qs: seq<Parked>)
    requires Holds(ps, m) && Distinct(qs)
    requires forall k :: 0 <= k < |qs| ==> qs[k] in ps && Live(qs[k], now)
    requires forall k :: 0 <= k < |ps| && Live(ps[k], now) ==> ps[k] in qs
    ensures Holds(qs, LiveOnly(m, now))
  {
    var kept := LiveOnly(m, now);
    forall k | 0 <= k < |qs|
      ensures qs[k].from in kept && kept[qs[k].from] == qs[k]
    {
      assert qs[k] in ps;
      var j :| 0 <= j < |ps| && ps[j] == qs[k];
    }
    forall a | a in kept
      ensures exists k :: 0 <= k < |qs| && qs[k].from == a
    {
      var k :| 0 <= k < |ps| && ps[k].from == a;
      assert ps[k] in qs;
    }
  }

  // ---- Socket ids ----

  function PowerOfTwo(n: nat): nat {
    if n == 0 then 1 else 2 * PowerOfTwo(n - 1)
  }

  /** Exclusive or of the low `n` bits. */
  function XorBits(a: nat, b: nat, n: nat): (r: nat)
    ensures r < PowerOfTwo(n)
  {
    if n == 0 then 0 else 2 * XorBits(a / 2, b / 2, n - 1) + (a % 2 + b % 2) % 2
  }

  lemma BitCancels(p: nat, q: nat, r: nat, x: nat, y: nat)
    requires p < 2 && q < 2 && r < 2 && 2 * x + (p + q) % 2 == 2 * y + (p + r) % 2
    ensures x == y && q == r
  {
  }

  lemma {:induction false} XorCancels(a: nat, b: nat, c: nat, n: nat)
    requires b < PowerOfTwo(n) && c < PowerOfTwo(n) && XorBits(a, b, n) == XorBits(a, c, n)
    ensures b == c
  {
    if n > 0 {
      var x, y := XorBits(a / 2, b / 2, n - 1), XorBits(a / 2, c / 2, n - 1);
      BitCancels(a % 2, b % 2, c % 2, x, y);
      XorCancels(a / 2, b / 2, c / 2, n - 1);
      assert b == 2 * (b / 2) + b % 2 && c == 2 * (c / 2) + c % 2;
    }
  }

  lemma {:induction false} XorUnits(a: nat, n: nat)
    requires a < PowerOfTwo(n)
    ensures XorBits(a, 0, n) == a && XorBits(a, a, n) == 0
  {
    if n > 0 {
      XorUnits(a / 2, n - 1);
    }
  }

  lemma WordSize()
    ensures PowerOfTwo(32) == 0x1_0000_0000
  {
    assert PowerOfTwo(8) == 256;
    assert PowerOfTwo(16) == 0x1_0000;
    assert PowerOfTwo(24) == 0x100_0000;
  }

  /** The id a counter value mints. */
  function IdOf(localId: U32, c: U32): U32 {
    WordSize();
    XorBits(localId, c, 32)
  }

  /** Counter values that mint no usable id. */
  predicate IsTaken(localId: U32, c: U32) {
    c == 0 || c == localId
  }

  /** Different counter values mint different ids. */
  lemma IdInjective(localId: U32, c: U32, d: U32)
    requires IdOf(localId, c) == IdOf(localId, d)
    ensures c == d
  {
    WordSize();
    XorCancels(localId, c, d, 32);
  }

  /** Exactly two counter values mint zero or the listener's own id. */
  lemma IdProper(localId: U32, c: U32)
    ensures IsTaken(localId, c) <==> IdOf(localId, c) == 0 || IdOf(localId, c) == localId
  {
    WordSize();
    XorUnits(localId, 32);
    if IdOf(localId, c) == 0 {
      IdInjective(localId, c, localId);
    } else if IdOf(localId, c) == localId {
      IdInjective(localId, c, 0);
    }
  }

  /** The counter's next value, wrapping at 32 bits. */
  function Stepped(c: U32): U32 {
    if c == 0xFFFF_FFFF then 0 else c + 1
  }

  /** Steps the counter until it mints a usable id: at most three steps, since only two values do not. */
  method NextId(localId: U32, from: U32) returns (counter: U32, id: U32)
    ensures id == IdOf(localId, counter) && id != 0 && id != localId && !IsTaken(localId, counter)
    ensures from < 0xFFFF_FFFD ==> from < counter
  {
    counter := Stepped(from);
    id := IdOf(localId, counter);
    ghost var first, second := counter, Stepped(counter);
    ghost var left := 2;
    IdProper(localId, counter);
    while id == 0 || id == localId
      invariant id == IdOf(localId, counter) && 0 <= left <= 2
      invariant IsTaken(localId, counter) <==> id == 0 || id == localId
      invariant left == 2 ==> counter == first
      invariant left == 1 ==> counter == second && IsTaken(localId, first)
      invariant left == 0 ==> counter == Stepped(second) && IsTaken(localId, first) && IsTaken(localId, second)
      decreases left
    {
      counter := Stepped(counter);
      id := IdOf(localId, counter);
      IdProper(localId, counter);
      left := left - 1;
    }
  }

  /** The counter value behind each id handed out: the counter is past all of them unless it has gone round. */
  ghost predicate AllMinted(minted: map<U32, U32>, localId: U32, counter: U32, wrapped: bool) {
    forall i :: i in minted ==>
      && i == IdOf(localId, minted[i]) && !IsTaken(localId, minted[i])
      && (wrapped || minted[i] <= counter)
  }

  lemma MintedNext(minted: map<U32, U32>, localId: U32, from: U32, wrapped: bool, counter: U32)
    requires AllMinted(minted, localId, from, wrapped) && !IsTaken(localId, counter)
    ensures AllMinted(minted[IdOf(localId, counter) := counter], localId, counter, wrapped || counter <= from)
    ensures !wrapped && from < counter ==> IdOf(localId, counter) !in minted
  {
    var id := IdOf(localId, counter);
    if id in minted {
      IdInjective(localId, minted[id], counter);
    }
  }

  // ---- The listener ----

  function RejectCode(d: Decline): U32 {
    if d == BadKeyMaterial then REJ_BADSECRET else REJ_UNSECURE
  }

  /** One more response queued: a rejection to that address. */
  ghost predicate Rejected(before: seq<(Address, Handshake)>, after: seq<(Address, Handshake)>, from: Address, d: Decline) {
    && |after| == |before| + 1 && before <= after
    && after[|before|].0 == from && after[|before|].1.hsType == REJECTION_BASE + RejectCode(d)
    && Rejection(after[|before|].1)
  }

  class Listener {
    const config: Config
    const localId: U32
    const localSeq: SeqNumber
    const start: nat
    const hash: CookieHash
    const unwrap: Unwrap
    var deferred: bool
    var pending: seq<Parked>
    var requests: seq<Address>
    var responses: seq<(Address, Handshake)>
    var accepted: seq<Endpoint>
    var counter: U32
    ghost var parked: map<Address, Parked>
    ghost var minted: map<U32, U32>
    ghost var wrapped: bool            // the counter has gone round

    /** One entry per address. */
    ghost predicate Parking()
      reads `pending, `parked
    {
      Holds(pending, parked)
    }

    ghost predicate Minting()
      reads `counter, `minted, `wrapped
    {
      AllMinted(minted, localId, counter, wrapped)
    }

    ghost predicate Valid()
      reads `pending, `parked, `counter, `minted, `wrapped
    {
      Parking() && Minting()
    }

    constructor (config: Config, localId: U32, localSeq: SeqNumber, hash: CookieHash, unwrap: Unwrap, now: nat)
      ensures Valid() && parked == map[] && minted == map[] && !wrapped && !deferred
      ensures requests == [] && responses == [] && accepted == []
    {
      this.config, this.localId, this.localSeq, start := config, localId, localSeq, now;
      this.hash, this.unwrap := hash, unwrap;
      deferred, pending, requests, responses, accepted, counter := false, [], [], [], [], 0;
      parked, minted, wrapped := map[], map[], false;
    }

    /**
     A fresh socket id: never zero, never the listener's own, and different from every id minted before for as long as
     the 32-bit counter has not gone round. At most three steps of the counter are needed.
     */
    method MintSocketId() returns (id: U32)
      requires Minting()
      modifies `counter, `minted, `wrapped
      ensures Minting() && minted.Keys == old(minted).Keys + {id}
      ensures id != 0 && id != localId
      ensures !wrapped ==> id !in old(minted)
      ensures old(counter) < 0xFFFF_FFFD ==> wrapped == old(wrapped)
    {
      var next;
      next, id := NextId(localId, counter);
      MintedNext(minted, localId, counter, wrapped, next);
      wrapped := wrapped || next <= counter;
      counter := next;
      minted := minted[id := next];
    }

    method Reject(conclusion: Handshake, from: Address, reason: Decline)
      modifies `responses
      ensures Rejected(old(responses), responses, from, reason)
    {
      var hs := Handshake(HS_VERSION_SRT, NoEncryption, 0, localSeq, config.mtu, config.flowWindow,
        REJECTION_BASE + RejectCode(reason), localId, 0, from.ip, []);
      responses := responses + [(from, hs)];
    }

    /** One more response queued: an induction answer to that address with a cookie that is valid now. */
    ghost predicate Invited(before: seq<(Address, Handshake)>, after: seq<(Address, Handshake)>, from: Address, now: nat) {
      && |after| == |before| + 1 && before <= after && after[|before|].0 == from
      && InductionAnswer(after[|before|].1) && CookieValid(hash, start, after[|before|].1.cookie, from, now)
    }

    /** Answers without keeping any state about the peer. */
    method OnInduction(request: Handshake, from: Address, now: nat)
      modifies `responses
      ensures Invited(old(responses), responses, from, now)
    {
      var hs := Handshake(HS_VERSION_SRT, NoEncryption, SRT_MAGIC, localSeq, config.mtu, config.flowWindow, INDUCTION,
        localId, hash(from, Quantum(start, now)), from.ip, []);
      responses := responses + [(from, hs)];
    }

    /**
     Without a valid cookie nothing happens. Otherwise the keys are checked first: a mismatch is rejected and never
     surfaced. What passes is accepted under a fresh id, or parked when accepts are deferred.
     */
    method OnConclusion(conclusion: Handshake, from: Address, now: nat)
      requires Valid()
      modifies this
      ensures Valid() && deferred == old(deferred)
      ensures !CookieValid(hash, start, conclusion.cookie, from, now)
              ==> unchanged(`responses) && unchanged(`accepted) && unchanged(`pending) && unchanged(`requests)
      ensures Checked(conclusion).Declined?
              ==> accepted == old(accepted) && parked == old(parked) && requests == old(requests)
      ensures CookieValid(hash, start, conclusion.cookie, from, now) && Checked(conclusion).Declined?
              ==> Rejected(old(responses), responses, from, Checked(conclusion).reason)
      ensures CookieValid(hash, start, conclusion.cookie, from, now)
              && Checked(conclusion).Accepted? ==>
                if deferred then
                  && accepted == old(accepted)
                  && parked == old(parked)[from := Parked(from, conclusion, now)]
                  && requests == old(requests) + (if from in old(parked) then [] else [from])
                else
                  && parked == old(parked) && requests == old(requests)
                  && exists id :: FreshId(id, old(minted)) && accepted == old(accepted) + Built(id, conclusion)
    {
      if !CookieValid(hash, start, conclusion.cookie, from, now) {
        return;
      }
      if deferred {
        ParkConclusion(conclusion, from, now);
      } else {
        AcceptNow(conclusion, from);
      }
    }

    /** An id minted just now: never seen before unless the counter has gone round. */
    ghost predicate FreshId(id: U32, before: map<U32, U32>)
      reads `minted, `wrapped
    {
      id in minted && (wrapped || id !in before)
    }

    /** The key check alone. */
    function Checked(conclusion: Handshake): Decision<(Option<Unwrapped>, Option<Bytes>)> {
      AcceptCrypto(unwrap, config.encryption, conclusion)
    }

    /** The connection a conclusion gives under an id, if its keys are accepted. */
    function Built(id: U32, conclusion: Handshake): seq<Endpoint> {
      match Accept(unwrap, config, id, conclusion)
      case Accepted(conn) => [conn]
      case Declined(_) => []
    }

    method AcceptNow(conclusion: Handshake, from: Address)
      requires Minting()
      modifies `counter, `minted, `wrapped, `accepted, `responses
      ensures Minting()
      ensures exists id :: FreshId(id, old(minted)) && accepted == old(accepted) + Built(id, conclusion)
      ensures Checked(conclusion).Declined? ==> Rejected(old(responses), responses, from, Checked(conclusion).reason)
    {
      var id := MintSocketId();
      accepted := accepted + Built(id, conclusion);
      var checked := Checked(conclusion);
      if checked.Declined? {
        Reject(conclusion, from, checked.reason);
      }
    }

    method ParkConclusion(conclusion: Handshake, from: Address, now: nat)
      requires Parking()
      modifies `pending, `parked, `requests, `responses
      ensures Parking()
      ensures Checked(conclusion).Declined?
              ==> parked == old(parked) && requests == old(requests)
                  && Rejected(old(responses), responses, from, Checked(conclusion).reason)
      ensures Checked(conclusion).Accepted? ==>
                && parked == old(parked)[from := Parked(from, conclusion, now)]
                && requests == old(requests) + (if from in old(parked) then [] else [from])
    {
      var checked := Checked(conclusion);
      if checked.Declined? {
        Reject(conclusion, from, checked.reason);
        return;
      }
      var p := Parked(from, conclusion, now);
      var at := Find(pending, from);
      if at.Some? {
        ReplaceHolds(pending, parked, at.value, p);
        pending := pending[at.value := p];
      } else {
        PushHolds(pending, parked, p);
        pending := pending + [p];
        requests := requests + [from];
      }
      parked := parked[from := p];
    }

    /** Decides for a parked conclusion: it is taken out, and the connection built from exactly that conclusion. */
    method AcceptPending(remote: Address, now: nat) returns (r: seq<Endpoint>)
      requires Valid()
      modifies this
      ensures Valid() && parked == old(parked) - {remote}
      ensures remote !in old(parked) ==> r == []
      ensures remote in old(parked)
              ==> exists id :: FreshId(id, old(minted)) && r == Built(id, old(parked)[remote].conclusion)
      ensures remote in old(parked) && Checked(old(parked)[remote].conclusion).Declined?
              ==> Rejected(old(responses), responses, remote, Checked(old(parked)[remote].conclusion).reason)
    {
      var at := Find(pending, remote);
      if at.None? {
        assert parked - {remote} == parked;
        return [];
      }
      var entry := pending[at.value];
      SwapRemoveHolds(pending, parked, at.value);
      pending := SwapRemove(pending, at.value);
      parked := parked - {remote};
      var id := MintSocketId();
      r := Built(id, entry.conclusion);
      var checked := Checked(entry.conclusion);
      if checked.Declined? {
        Reject(entry.conclusion, entry.from, checked.reason);
      }
    }

    method Expire(now: nat)
      requires Parking()
      modifies `pending, `parked
      ensures Parking() && parked == LiveOnly(old(parked), now)
    {
      pending := Unexpired(pending, parked, now);
      parked := LiveOnly(parked, now);
    }

    /** One received handshake: expired entries go first. */
    method Feed(hs: Handshake, from: Address, now: nat)
      requires Valid()
      modifies this
      ensures Valid()
      ensures hs.hsType != CONCLUSION
              || !CookieValid(hash, start, hs.cookie, from, now)
              || Checked(hs).Declined?
              ==> accepted == old(accepted) && requests == old(requests) && parked == LiveOnly(old(parked), now)
      ensures hs.hsType == CONCLUSION && CookieValid(hash, start, hs.cookie, from, now) && Checked(hs).Accepted?
              && old(deferred)
              ==> parked == LiveOnly(old(parked), now)[from := Parked(from, hs, now)] && accepted == old(accepted)
                  && requests == old(requests) + (if from in LiveOnly(old(parked), now) then [] else [from])
      ensures hs.hsType == CONCLUSION && CookieValid(hash, start, hs.cookie, from, now) && Checked(hs).Accepted?
              && !old(deferred)
              ==> parked == LiveOnly(old(parked), now)
                  && exists id :: FreshId(id, old(minted)) && accepted == old(accepted) + Built(id, hs)
      ensures hs.hsType == CONCLUSION && CookieValid(hash, start, hs.cookie, from, now) && Checked(hs).Declined?
              ==> Rejected(old(responses), responses, from, Checked(hs).reason)
      ensures hs.hsType == INDUCTION ==> Invited(old(responses), responses, from, now)
    {
      Expire(now);
      if hs.hsType == INDUCTION {
        OnInduction(hs, from, now);
      } else if hs.hsType == CONCLUSION {
        OnConclusion(hs, from, now);
      }
    }
  }
}
