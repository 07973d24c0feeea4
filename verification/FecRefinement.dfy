/**
 The receiver keys its history by 31-bit sequence numbers. While every number it handles lies within half the sequence
 space of what it holds, it does exactly what the index-keyed model of FecRuns does.
 */
module FecRefinement {
  import opened Options
  import opened SeqNumbers
  import opened Fec
  import opened FecReceivers
  import opened FecRuns

  /** The same map, keyed by wire number. */
  ghost predicate Named<T>(w: map<SeqNumber, T>, v: map<int, T>) {
    && (forall i :: i in v ==> Wire(i) in w && w[Wire(i)] == v[i])
    && (forall k :: k in w ==> exists i :: i in v && Wire(i) == k)
  }

  ghost predicate NamedStore(w: Store<SeqNumber>, v: Store<int>) {
    Named(w.data, v.data) && Named(w.parities, v.parities)
  }

  /** An index in the stretch of one sequence space starting at `lo`. */
  ghost predicate Within(i: int, lo: int) {
    lo <= i < lo + COUNT
  }

  ghost predicate MapWithin<T>(v: map<int, T>, lo: int) {
    forall i :: i in v ==> Within(i, lo)
  }

  ghost predicate StoreWithin(v: Store<int>, lo: int) {
    MapWithin(v.data, lo) && MapWithin(v.parities, lo)
  }

  /** The wire names of a list of indices. */
  ghost predicate WireOf(ws: seq<SeqNumber>, vs: seq<int>) {
    |ws| == |vs| && (forall k :: 0 <= k < |vs| ==> ws[k] == Wire(vs[k]))
  }

  lemma Lookup<T>(w: map<SeqNumber, T>, v: map<int, T>, lo: int, x: int)
    requires Named(w, v) && MapWithin(v, lo) && Within(x, lo)
    ensures Wire(x) in w <==> x in v
    ensures x in v ==> w[Wire(x)] == v[x]
  {
    if Wire(x) in w {
      var i :| i in v && Wire(i) == Wire(x);
      WireInjective(i, x);
    }
  }

  lemma InsertNamed<T>(w: map<SeqNumber, T>, v: map<int, T>, lo: int, x: int, t: T)
    requires Named(w, v) && MapWithin(v, lo) && Within(x, lo)
    ensures Named(w[Wire(x) := t], v[x := t]) && MapWithin(v[x := t], lo)
  {
    var w', v' := w[Wire(x) := t], v[x := t];
    forall i | i in v'
      ensures Wire(i) in w' && w'[Wire(i)] == v'[i]
    {
      if Wire(i) == Wire(x) {
        WireInjective(i, x);
      }
    }
    assert x in v';
    forall k | k in w'
      ensures exists i :: i in v' && Wire(i) == k
    {
      if k in w {
        var i :| i in v && Wire(i) == k;
        assert i in v';
      }
    }
  }

  lemma RemoveNamed<T>(w: map<SeqNumber, T>, v: map<int, T>, lo: int, x: int)
    requires Named(w, v) && MapWithin(v, lo) && Within(x, lo)
    ensures Named(w - {Wire(x)}, v - {x}) && MapWithin(v - {x}, lo)
  {
    var w', v' := w - {Wire(x)}, v - {x};
    forall i | i in v'
      ensures Wire(i) in w' && w'[Wire(i)] == v'[i]
    {
      if Wire(i) == Wire(x) {
        WireInjective(i, x);
      }
    }
    forall k | k in w'
      ensures exists i :: i in v' && Wire(i) == k
    {
      var i :| i in v && Wire(i) == k;
      assert i in v';
    }
  }

  lemma {:induction false} MembersNamed(w: map<SeqNumber, FecData>, v: map<int, FecData>, ws: seq<SeqNumber>, vs: seq<int>, lo: int)
    requires Named(w, v) && MapWithin(v, lo) && WireOf(ws, vs) && (forall k :: 0 <= k < |vs| ==> Within(vs[k], lo))
    ensures Present(w, ws) == Present(v, vs) && WireOf(Absent(w, ws), Absent(v, vs))
    ensures forall k :: 0 <= k < |Absent(v, vs)| ==> Within(Absent(v, vs)[k], lo)
  {
    if vs != [] {
      var n := |vs| - 1;
      MembersNamed(w, v, ws[..n], vs[..n], lo);
      Lookup(w, v, lo, vs[n]);
    }
  }

  /** The same recovery under both names. */
  ghost predicate SameRecovery(w: Option<Recovery<SeqNumber>>, v: Option<Recovery<int>>) {
    (w.None? <==> v.None?) && (v.Some? ==> w.value == Recovery(Wire(v.value.key), v.value.packet))
  }

  ghost predicate SameRecoveries(ws: seq<Recovery<SeqNumber>>, vs: seq<Recovery<int>>) {
    |ws| == |vs| && (forall k :: 0 <= k < |vs| ==> ws[k] == Recovery(Wire(vs[k].key), vs[k].packet))
  }

  lemma GroupNamed(w: Store<SeqNumber>, v: Store<int>, ws: seq<SeqNumber>, vs: seq<int>, lo: int, size: nat)
    requires NamedStore(w, v) && StoreWithin(v, lo) && WireOf(ws, vs) && (forall k :: 0 <= k < |vs| ==> Within(vs[k], lo))
    ensures SameRecovery(GroupRecovery(w, ws, size), GroupRecovery(v, vs, size))
    ensures NamedStore(TryGroup(w, ws, size), TryGroup(v, vs, size)) && StoreWithin(TryGroup(v, vs, size), lo)
  {
    if vs != [] {
      MembersNamed(w.data, v.data, ws, vs, lo);
      Lookup(w.parities, v.parities, lo, vs[0]);
      var r := GroupRecovery(v, vs, size);
      if r.Some? {
        InsertNamed(w.data, v.data, lo, r.value.key, r.value.packet);
        RemoveNamed(w.parities, v.parities, lo, vs[0]);
      }
    }
  }

  lemma {:induction false} GroupsNamed(w: Store<SeqNumber>, v: Store<int>, wgs: seq<seq<SeqNumber>>, gs: seq<seq<int>>, lo: int, size: nat)
    requires NamedStore(w, v) && StoreWithin(v, lo) && |wgs| == |gs|
    requires forall k :: 0 <= k < |gs| ==> WireOf(wgs[k], gs[k])
    requires forall k, j :: 0 <= k < |gs| && 0 <= j < |gs[k]| ==> Within(gs[k][j], lo)
    ensures SameRecoveries(RecoveredAll(w, wgs, size), RecoveredAll(v, gs, size))
    ensures NamedStore(TryAll(w, wgs, size), TryAll(v, gs, size)) && StoreWithin(TryAll(v, gs, size), lo)
  {
    if gs != [] {
      var n := |gs| - 1;
      GroupsNamed(w, v, wgs[..n], gs[..n], lo, size);
      GroupNamed(TryAll(w, wgs[..n], size), TryAll(v, gs[..n], size), wgs[n], gs[n], lo, size);
    }
  }

  lemma EvictMap<T>(w: map<SeqNumber, T>, v: map<int, T>, x: int, window: int)
    requires Named(w, v) && (forall i :: i in v ==> -HALF < x - i < HALF)
    ensures Named(map k | k in w && k !in WireStale(Wire(x), window) :: w[k],
                  map i | i in v && i !in Stale(x, window) :: v[i])
  {
    var w' := map k | k in w && k !in WireStale(Wire(x), window) :: w[k];
    var v' := map i | i in v && i !in Stale(x, window) :: v[i];
    forall i | i in v
      ensures Wire(i) in WireStale(Wire(x), window) <==> i in Stale(x, window)
    {
      OffsetOf(x, i);
    }
    forall k | k in w'
      ensures exists i :: i in v' && Wire(i) == k
    {
      var i :| i in v && Wire(i) == k;
      assert i in v';
    }
  }

  // ---- Whole observations ----

  /** A number within half the sequence space of everything held. */
  ghost predicate Near(v: Store<int>, x: int) {
    && (forall i :: i in v.data ==> -HALF < x - i < HALF)
    && (forall i :: i in v.parities ==> -HALF < x - i < HALF)
  }

  lemma WireShift(x: int, k: int)
    ensures Wire(Wire(x) + k) == Wire(x + k)
  {
    if k >= 0 {
      AddExact(x, k);
    } else {
      NewExact(x, -k);
    }
  }

  lemma BackNamed(x: int, off: nat)
    ensures WireBack(Wire(x), off) == Wire(x - off)
  {
    WireShift(x, 0 - off);
  }

  lemma BaseNamed(at: int, n: GroupSize)
    ensures WireBack(Wire(at), n - 1) == Wire(RowBase(at, n))
  {
    BackNamed(at, n - 1);
  }

  lemma KeysNamed(x: int, n: nat)
    ensures WireOf(WireKeys(Wire(x), n), Keys(x, n))
  {
    var ws, vs := WireKeys(Wire(x), n), Keys(x, n);
    forall i | 0 <= i < n
      ensures ws[i] == Wire(vs[i])
    {
      WireShift(x, i);
    }
  }

  lemma EvictNamed(w: Store<SeqNumber>, v: Store<int>, x: int, window: int)
    requires NamedStore(w, v) && Near(v, x)
    ensures NamedStore(Evicted(w, WireStale(Wire(x), window)), Evicted(v, Stale(x, window)))
  {
    EvictMap(w.data, v.data, x, window);
    EvictMap(w.parities, v.parities, x, window);
  }

  /** What the receiver does on one arrival. */
  ghost function WireObserve(w: Store<SeqNumber>, o: Observation, n: GroupSize, size: nat): Store<SeqNumber> {
    match o
    case DataSeen(at, d) =>
      AfterData(w, Wire(at), d, WireGroups(Wire(at), n), size, WireStale(Wire(at), Window(n)))
    case ParitySeen(at, p) =>
      var base := WireBack(Wire(at), n - 1);
      AfterParity(w, base, p, WireKeys(base, n), size, WireStale(Wire(at), Window(n)))
  }

  function WireRecovered(w: Store<SeqNumber>, o: Observation, n: GroupSize, size: nat): seq<Recovery<SeqNumber>> {
    match o
    case DataSeen(at, d) => RecoveredAll(WithData(w, Wire(at), d), WireGroups(Wire(at), n), size)
    case ParitySeen(at, p) =>
      var base := WireBack(Wire(at), n - 1);
      RecoveredByParity(w, base, p, WireKeys(base, n), size)
  }

  /** Everything around a number is in one stretch of the sequence space, half of it on each side. */
  lemma NearWithin(v: Store<int>, x: int)
    requires Near(v, x)
    ensures StoreWithin(v, x - HALF)
  {
  }

  lemma StretchNear(v: Store<int>, x: int, n: nat, was: Store<int>)
    requires Near(was, x) && n < HALF
    requires forall i :: i in v.data ==> i in was.data || x - n < i < x + n
    requires forall i :: i in v.parities ==> i in was.parities || x - n < i < x + n
    ensures Near(v, x)
  {
  }

  lemma {:induction false} TriedNear(v: Store<int>, gs: seq<seq<int>>, x: int, n: GroupSize, size: nat)
    requires AreGroups(gs, n) && n < HALF && Near(v, x)
    requires forall k :: 0 <= k < |gs| ==> x - n < gs[k][0] <= x
    ensures Near(TryAll(v, gs, size), x)
  {
    if gs != [] {
      var front, last := gs[..|gs| - 1], gs[|gs| - 1];
      TriedNear(v, front, x, n, size);
      GroupNear(TryAll(v, front, size), last[0], x, n, size);
    }
  }

  /** Trying a group around a number only adds keys around it. */
  lemma GroupNear(v: Store<int>, base: int, x: int, n: GroupSize, size: nat)
    requires Near(v, x) && n < HALF && x - n < base <= x
    ensures Near(TryGroup(v, Keys(base, n), size), x)
  {
    AbsentMembers(v.data, base, n);
    var r := GroupRecovery(v, Keys(base, n), size);
    if r.Some? {
      assert r.value.key in Absent(v.data, Keys(base, n));
    }
    StretchNear(TryGroup(v, Keys(base, n), size), x, n, v);
  }

  lemma GroupsWired(at: int, n: GroupSize)
    requires n < HALF
    ensures |WireGroups(Wire(at), n)| == n
    ensures forall k :: 0 <= k < n ==> WireOf(WireGroups(Wire(at), n)[k], Groups(at, n)[k])
    ensures forall k, j :: 0 <= k < n && 0 <= j < |Groups(at, n)[k]| ==> Within(Groups(at, n)[k][j], at - HALF)
    ensures AreGroups(Groups(at, n), n)
    ensures forall k :: 0 <= k < n ==> at - n < Groups(at, n)[k][0] <= at
  {
    forall k | 0 <= k < n
      ensures WireOf(WireGroups(Wire(at), n)[k], Groups(at, n)[k])
    {
      BackNamed(at, k);
      KeysNamed(at - k, n);
    }
  }

  lemma DataTried(w: Store<SeqNumber>, v: Store<int>, at: int, d: FecData, n: GroupSize, size: nat)
    requires NamedStore(w, v) && Near(v, at) && n < HALF
    ensures var w1, v1 := WithData(w, Wire(at), d), WithData(v, at, d);
            var wgs, gs := WireGroups(Wire(at), n), Groups(at, n);
            && NamedStore(TryAll(w1, wgs, size), TryAll(v1, gs, size)) && Near(TryAll(v1, gs, size), at)
            && SameRecoveries(RecoveredAll(w1, wgs, size), RecoveredAll(v1, gs, size))
  {
    NearWithin(v, at);
    InsertNamed(w.data, v.data, at - HALF, at, d);
    var w1, v1 := WithData(w, Wire(at), d), WithData(v, at, d);
    GroupsWired(at, n);
    GroupsNamed(w1, v1, WireGroups(Wire(at), n), Groups(at, n), at - HALF, size);
    TriedNear(v1, Groups(at, n), at, n, size);
  }

  lemma DataRefines(w: Store<SeqNumber>, v: Store<int>, at: int, d: FecData, n: GroupSize, size: nat)
    requires NamedStore(w, v) && Near(v, at) && n < HALF
    ensures NamedStore(WireObserve(w, DataSeen(at, d), n, size), Observe(v, DataSeen(at, d), n, size))
    ensures SameRecoveries(WireRecovered(w, DataSeen(at, d), n, size), Recovered(v, DataSeen(at, d), n, size))
  {
    DataTried(w, v, at, d, n, size);
    EvictNamed(TryAll(WithData(w, Wire(at), d), WireGroups(Wire(at), n), size),
      TryAll(WithData(v, at, d), Groups(at, n), size), at, Window(n));
  }

  lemma ParityTried(w: Store<SeqNumber>, v: Store<int>, at: int, base: int, p: FecParity, n: GroupSize, size: nat)
    requires NamedStore(w, v) && Near(v, at) && n < HALF && base == RowBase(at, n)
    ensures var ws, vs := WireKeys(Wire(base), n), Keys(base, n);
            var w1, v1 := WithParity(w, Wire(base), p), WithParity(v, base, p);
            && NamedStore(TryGroup(w1, ws, size), TryGroup(v1, vs, size)) && Near(TryGroup(v1, vs, size), at)
            && SameRecovery(GroupRecovery(w1, ws, size), GroupRecovery(v1, vs, size))
  {
    var ws, vs := WireKeys(Wire(base), n), Keys(base, n);
    NearWithin(v, at);
    KeysNamed(base, n);
    InsertNamed(w.parities, v.parities, at - HALF, base, p);
    var w1, v1 := WithParity(w, Wire(base), p), WithParity(v, base, p);
    GroupNamed(w1, v1, ws, vs, at - HALF, size);
    GroupNear(v1, base, at, n, size);
  }

  lemma ParityRefines(w: Store<SeqNumber>, v: Store<int>, at: int, p: FecParity, n: GroupSize, size: nat)
    requires NamedStore(w, v) && Near(v, at) && n < HALF
    ensures NamedStore(WireObserve(w, ParitySeen(at, p), n, size), Observe(v, ParitySeen(at, p), n, size))
    ensures SameRecoveries(WireRecovered(w, ParitySeen(at, p), n, size), Recovered(v, ParitySeen(at, p), n, size))
  {
    var base := RowBase(at, n);
    BaseNamed(at, n);
    ParityTried(w, v, at, base, p, n, size);
    var w2, v2 := TryGroup(WithParity(w, Wire(base), p), WireKeys(Wire(base), n), size),
      TryGroup(WithParity(v, base, p), Keys(base, n), size);
    EvictNamed(w2, v2, at, Window(n));
    assert WireObserve(w, ParitySeen(at, p), n, size) == Evicted(w2, WireStale(Wire(at), Window(n)));
    assert Observe(v, ParitySeen(at, p), n, size) == Evicted(v2, Stale(at, Window(n)));
  }

  ghost function WireAfter(os: seq<Observation>, n: GroupSize, size: nat): Store<SeqNumber> {
    if os == [] then Store(map[], map[])
    else WireObserve(WireAfter(os[..|os| - 1], n, size), os[|os| - 1], n, size)
  }

  ghost function WireAllRecovered(os: seq<Observation>, n: GroupSize, size: nat): seq<Recovery<SeqNumber>> {
    if os == [] then []
    else
      WireAllRecovered(os[..|os| - 1], n, size)
      + WireRecovered(WireAfter(os[..|os| - 1], n, size), os[|os| - 1], n, size)
  }

  ghost predicate NearRun(os: seq<Observation>, n: GroupSize, size: nat) {
    os != [] ==> NearRun(os[..|os| - 1], n, size) && Near(After(os[..|os| - 1], n, size), os[|os| - 1].at)
  }

  /**
   Over a whole stream, of any length: as long as each arrival is within half the sequence space of the history still
   held, the receiver holds and rebuilds exactly what the index-keyed model does, under the packets' wire numbers.
   */
  lemma {:induction false} RunRefines(os: seq<Observation>, n: GroupSize, size: nat)
    requires NearRun(os, n, size) && n < HALF
    ensures NamedStore(WireAfter(os, n, size), After(os, n, size))
    ensures SameRecoveries(WireAllRecovered(os, n, size), AllRecovered(os, n, size))
  {
    if os != [] {
      var front := os[..|os| - 1];
      RunRefines(front, n, size);
      match os[|os| - 1]
      case DataSeen(at, d) => DataRefines(WireAfter(front, n, size), After(front, n, size), at, d, n, size);
      case ParitySeen(at, p) => ParityRefines(WireAfter(front, n, size), After(front, n, size), at, p, n, size);
    }
  }

  // ---- Exactly one recovery, on the wire ----

  ghost predicate KeysAround(rs: seq<Recovery<int>>, x: int, n: nat) {
    forall k :: 0 <= k < |rs| ==> x - n < rs[k].key < x + n
  }

  lemma GroupKeys(v: Store<int>, base: int, n: GroupSize, size: nat)
    ensures var r := GroupRecovery(v, Keys(base, n), size); r.Some? ==> base <= r.value.key < base + n
  {
    AbsentMembers(v.data, base, n);
    if GroupRecovery(v, Keys(base, n), size).Some? {
      assert Absent(v.data, Keys(base, n))[0] in Absent(v.data, Keys(base, n));
    }
  }

  lemma {:induction false} TriedKeys(v: Store<int>, gs: seq<seq<int>>, x: int, n: GroupSize, size: nat)
    requires AreGroups(gs, n) && forall k :: 0 <= k < |gs| ==> x - n < gs[k][0] <= x
    ensures KeysAround(RecoveredAll(v, gs, size), x, n)
  {
    if gs != [] {
      var front, last := gs[..|gs| - 1], gs[|gs| - 1];
      TriedKeys(v, front, x, n, size);
      GroupKeys(TryAll(v, front, size), last[0], n, size);
    }
  }

  /** An observation only rebuilds packets less than a group away from it. */
  lemma ObservedKeys(v: Store<int>, o: Observation, n: GroupSize, size: nat)
    ensures KeysAround(Recovered(v, o, n, size), o.at, n)
  {
    match o
    case DataSeen(at, d) => TriedKeys(WithData(v, at, d), Groups(at, n), at, n, size);
    case ParitySeen(at, p) => GroupKeys(WithParity(v, RowBase(at, n), p), RowBase(at, n), n, size);
  }

  /** Every observation is so close to an index that no rebuilt packet can share its number with another. */
  ghost predicate Unambiguous(os: seq<Observation>, i: int, n: nat) {
    forall k :: 0 <= k < |os| ==> -COUNT + n <= os[k].at - i <= COUNT - n
  }

  function WireCountOf(rs: seq<Recovery<SeqNumber>>, key: SeqNumber): nat {
    if rs == [] then 0 else WireCountOf(rs[..|rs| - 1], key) + (if rs[|rs| - 1].key == key then 1 else 0)
  }

  lemma {:induction false} SameCount(ws: seq<Recovery<SeqNumber>>, vs: seq<Recovery<int>>, i: int)
    requires SameRecoveries(ws, vs) && forall k :: 0 <= k < |vs| ==> -COUNT < vs[k].key - i < COUNT
    ensures WireCountOf(ws, Wire(i)) == CountOf(vs, i)
  {
    if vs != [] {
      var n := |vs| - 1;
      SameCount(ws[..n], vs[..n], i);
      if ws[n].key == Wire(i) {
        WireInjective(vs[n].key, i);
      }
    }
  }

  lemma {:induction false} RunKeys(os: seq<Observation>, i: int, n: GroupSize, size: nat)
    requires Unambiguous(os, i, n)
    ensures forall k :: 0 <= k < |AllRecovered(os, n, size)| ==> -COUNT < AllRecovered(os, n, size)[k].key - i < COUNT
  {
    if os != [] {
      var front, o := os[..|os| - 1], os[|os| - 1];
      RunKeys(front, i, n, size);
      ObservedKeys(After(front, n, size), o, n, size);
    }
  }

  /** Whatever is rebuilt under a packet's number is that packet. */
  ghost predicate OnlyGenuine(ws: seq<Recovery<SeqNumber>>, stream: int -> FecData, i: int) {
    forall k :: 0 <= k < |ws| && ws[k].key == Wire(i) ==> ws[k].packet == stream(i)
  }

  lemma NamesGenuine(ws: seq<Recovery<SeqNumber>>, vs: seq<Recovery<int>>, stream: int -> FecData, i: int)
    requires SameRecoveries(ws, vs) && AllFromStream(vs, stream)
    requires forall k :: 0 <= k < |vs| ==> -COUNT < vs[k].key - i < COUNT
    ensures OnlyGenuine(ws, stream, i)
  {
    forall k | 0 <= k < |ws| && ws[k].key == Wire(i) ensures ws[k].packet == stream(i) {
      WireInjective(vs[k].key, i);
    }
  }

  /**
   The receiver itself, on 31-bit numbers: fed what was sent, and parities as the encoder makes them, it rebuilds under
   the number of a packet that never arrives exactly one packet, that one, if its parity and all other members of its
   group are seen inside the window, in any order and with repetitions; and otherwise none. What arrives of other groups
   afterwards changes nothing about it.
   */
  lemma ReceiverRecoversOnce(os: seq<Observation>, more: seq<Observation>, stream: int -> FecData, bases: iset<int>, l: Loss)
    requires Disjoint(bases, l.n) && l.base in bases && InGroup(l, l.missing)
    requires Watched(os, bases, l) && Elsewhere(more, bases, l)
    requires AllGenuine(os + more, stream, bases, l.n, l.size) && AllCovered(stream, l.size)
    requires NearRun(os + more, l.n, l.size) && l.n < HALF && Unambiguous(os + more, l.missing, l.n)
    ensures WireCountOf(WireAllRecovered(os + more, l.n, l.size), Wire(l.missing)) == if Complete(os, l) then 1 else 0
    ensures OnlyGenuine(WireAllRecovered(os + more, l.n, l.size), stream, l.missing)
  {
    var all := os + more;
    RunRefines(all, l.n, l.size);
    RunKeys(all, l.missing, l.n, l.size);
    RecoveredExactlyOnce(os, more, bases, l);
    RecoveriesAreGenuine(all, stream, bases, l.n, l.size);
    SameCount(WireAllRecovered(all, l.n, l.size), AllRecovered(all, l.n, l.size), l.missing);
    NamesGenuine(WireAllRecovered(all, l.n, l.size), AllRecovered(all, l.n, l.size), stream, l.missing);
  }
}
