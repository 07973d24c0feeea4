/**
 What row FEC recovers over whole runs: every rebuilt packet is the one that was lost, and a group missing one member
 is rebuilt exactly once, whatever the order of arrival. Packets are named by their true indices here; `Named`
 connects this to the 31-bit keys of the receiver.
 */
module FecRuns {
  import opened Fec
  import opened FecReceivers

  function Keys(base: int, n: nat): (r: seq<int>)
    ensures |r| == n && (forall i :: 0 <= i < n ==> r[i] == base + i)
  {
    seq(n, i requires 0 <= i < n => base + i)
  }

  function Groups(at: int, n: nat): (r: seq<seq<int>>)
    ensures |r| == n && (forall off :: 0 <= off < n ==> r[off] == Keys(at - off, n))
  {
    seq(n, off requires 0 <= off < n => Keys(at - off, n))
  }

  predicate IsStale(newest: int, window: int, i: int) {
    newest - i >= window
  }

  ghost function Stale(newest: int, window: int): iset<int> {
    iset i: int | IsStale(newest, window, i)
  }

  /** The base of the group whose last number is given. */
  function RowBase(last: int, n: nat): int {
    last - (n - 1)
  }

  /** A data packet, or a parity whose sequence number is its group's last. */
  datatype Observation = DataSeen(at: int, d: FecData) | ParitySeen(at: int, p: FecParity)

  ghost function Observe(v: Store<int>, o: Observation, n: GroupSize, size: nat): Store<int> {
    match o
    case DataSeen(at, d) => AfterData(v, at, d, Groups(at, n), size, Stale(at, Window(n)))
    case ParitySeen(at, p) => AfterParity(v, RowBase(at, n), p, Keys(RowBase(at, n), n), size, Stale(at, Window(n)))
  }

  function Recovered(v: Store<int>, o: Observation, n: GroupSize, size: nat): seq<Recovery<int>> {
    match o
    case DataSeen(at, d) => RecoveredAll(WithData(v, at, d), Groups(at, n), size)
    case ParitySeen(at, p) => RecoveredByParity(v, RowBase(at, n), p, Keys(RowBase(at, n), n), size)
  }

  ghost function After(os: seq<Observation>, n: GroupSize, size: nat): Store<int> {
    if os == [] then Store(map[], map[])
    else Observe(After(os[..|os| - 1], n, size), os[|os| - 1], n, size)
  }

  ghost function AllRecovered(os: seq<Observation>, n: GroupSize, size: nat): seq<Recovery<int>> {
    if os == [] then []
    else AllRecovered(os[..|os| - 1], n, size) + Recovered(After(os[..|os| - 1], n, size), os[|os| - 1], n, size)
  }

  // ---- What the sender sent ----

  function Members(stream: int -> FecData, base: int, n: nat): (r: seq<FecData>)
    ensures |r| == n
  {
    seq(n, i => stream(base + i))
  }

  /** What arrives is what was sent: data unaltered, a parity the XOR of the group it ends. */
  ghost predicate Genuine(o: Observation, stream: int -> FecData, bases: iset<int>, n: GroupSize, size: nat) {
    match o
    case DataSeen(at, d) => d == stream(at)
    case ParitySeen(at, p) => RowBase(at, n) in bases && p == ParityOf(size, Members(stream, RowBase(at, n), n))
  }

  ghost predicate AllGenuine(os: seq<Observation>, stream: int -> FecData, bases: iset<int>, n: GroupSize, size: nat) {
    forall k :: 0 <= k < |os| ==> Genuine(os[k], stream, bases, n, size)
  }

  ghost predicate AllCovered(stream: int -> FecData, size: nat) {
    forall i :: Covered(size, stream(i))
  }

  ghost predicate Sound(v: Store<int>, stream: int -> FecData, bases: iset<int>, n: GroupSize, size: nat) {
    && (forall i :: i in v.data ==> v.data[i] == stream(i))
    && (forall b :: b in v.parities ==> b in bases && v.parities[b] == ParityOf(size, Members(stream, b, n)))
  }

  // ---- A group with one member missing ----

  lemma {:induction false} NoneAbsent(data: map<int, FecData>, stream: int -> FecData, base: int, n: nat)
    requires forall i :: i in data ==> data[i] == stream(i)
    requires Absent(data, Keys(base, n)) == []
    ensures Present(data, Keys(base, n)) == Members(stream, base, n)
    ensures forall i :: base <= i < base + n ==> i in data
  {
    if n > 0 {
      assert Keys(base, n)[..n - 1] == Keys(base, n - 1);
      NoneAbsent(data, stream, base, n - 1);
      assert Members(stream, base, n) == Members(stream, base, n - 1) + [stream(base + n - 1)];
    }
  }

  /** If one member is absent, the ones present are those before it followed by those after it. */
  lemma {:induction false} OneAbsent(data: map<int, FecData>, stream: int -> FecData, base: int, n: nat) returns (m: int)
    requires forall i :: i in data ==> data[i] == stream(i)
    requires n > 0 && |Absent(data, Keys(base, n))| == 1
    ensures base <= m < base + n && Absent(data, Keys(base, n)) == [m] && m !in data
    ensures Present(data, Keys(base, n)) == Members(stream, base, m - base) + Members(stream, m + 1, base + n - m - 1)
  {
    LastMember(data, base, n);
    var last := base + n - 1;
    if last in data {
      m := OneAbsent(data, stream, base, n - 1);
      MembersNext(stream, m + 1, base + n - m - 2, last);
    } else {
      m := last;
      NoneAbsent(data, stream, base, n - 1);
      assert Members(stream, m + 1, 0) == [];
    }
  }

  lemma LastMember(data: map<int, FecData>, base: int, n: nat)
    requires n > 0
    ensures var last := base + n - 1;
            && Present(data, Keys(base, n)) == Present(data, Keys(base, n - 1)) + (if last in data then [data[last]] else [])
            && Absent(data, Keys(base, n)) == Absent(data, Keys(base, n - 1)) + (if last in data then [] else [last])
  {
    assert Keys(base, n)[..n - 1] == Keys(base, n - 1);
  }

  lemma MembersNext(stream: int -> FecData, base: int, n: nat, last: int)
    requires last == base + n
    ensures Members(stream, base, n + 1) == Members(stream, base, n) + [stream(last)]
  {
  }

  lemma GroupAround(stream: int -> FecData, base: int, n: nat, m: int)
    requires base <= m < base + n
    ensures Members(stream, base, n)
            == Members(stream, base, m - base) + [stream(m)] + Members(stream, m + 1, base + n - m - 1)
  {
  }

  /** What a group yields is the packet that was lost. */
  lemma GroupSound(v: Store<int>, stream: int -> FecData, bases: iset<int>, base: int, n: GroupSize, size: nat)
    requires Sound(v, stream, bases, n, size) && AllCovered(stream, size)
    ensures var r := GroupRecovery(v, Keys(base, n), size);
            r.Some? ==> r.value.packet == stream(r.value.key) && base <= r.value.key < base + n && r.value.key !in v.data
    ensures Sound(TryGroup(v, Keys(base, n), size), stream, bases, n, size)
  {
    if GroupRecovery(v, Keys(base, n), size).Some? {
      var m := OneAbsent(v.data, stream, base, n);
      GroupAround(stream, base, n, m);
      RecoveryExact(size, Members(stream, base, m - base), stream(m), Members(stream, m + 1, base + n - m - 1));
      assert Covered(size, stream(m));
    }
  }

  ghost predicate AllFromStream(rs: seq<Recovery<int>>, stream: int -> FecData) {
    forall k :: 0 <= k < |rs| ==> rs[k].packet == stream(rs[k].key)
  }

  ghost predicate AreGroups(groups: seq<seq<int>>, n: GroupSize) {
    forall k :: 0 <= k < |groups| ==> |groups[k]| == n && groups[k] == Keys(groups[k][0], n)
  }

  lemma {:induction false} AllSound(v: Store<int>, stream: int -> FecData, bases: iset<int>, groups: seq<seq<int>>, n: GroupSize, size: nat)
    requires Sound(v, stream, bases, n, size) && AllCovered(stream, size) && AreGroups(groups, n)
    ensures Sound(TryAll(v, groups, size), stream, bases, n, size)
    ensures AllFromStream(RecoveredAll(v, groups, size), stream)
  {
    if groups != [] {
      var front, last := groups[..|groups| - 1], groups[|groups| - 1];
      AllSound(v, stream, bases, front, n, size);
      GroupSound(TryAll(v, front, size), stream, bases, last[0], n, size);
    }
  }

  lemma EvictedSound(v: Store<int>, gone: iset<int>, stream: int -> FecData, bases: iset<int>, n: GroupSize, size: nat)
    requires Sound(v, stream, bases, n, size)
    ensures Sound(Evicted(v, gone), stream, bases, n, size)
  {
  }

  lemma DataSound(v: Store<int>, at: int, stream: int -> FecData, bases: iset<int>, n: GroupSize, size: nat)
    requires Sound(v, stream, bases, n, size) && AllCovered(stream, size)
    ensures Sound(Observe(v, DataSeen(at, stream(at)), n, size), stream, bases, n, size)
    ensures AllFromStream(Recovered(v, DataSeen(at, stream(at)), n, size), stream)
  {
    var s := WithData(v, at, stream(at));
    AllSound(s, stream, bases, Groups(at, n), n, size);
    EvictedSound(TryAll(s, Groups(at, n), size), Stale(at, Window(n)), stream, bases, n, size);
  }

  lemma ParityGroupSound(v: Store<int>, base: int, p: FecParity, stream: int -> FecData, bases: iset<int>, n: GroupSize, size: nat)
    requires Sound(v, stream, bases, n, size) && AllCovered(stream, size)
    requires base in bases && p == ParityOf(size, Members(stream, base, n))
    ensures Sound(TryGroup(WithParity(v, base, p), Keys(base, n), size), stream, bases, n, size)
    ensures AllFromStream(RecoveredByParity(v, base, p, Keys(base, n), size), stream)
  {
    GroupSound(WithParity(v, base, p), stream, bases, base, n, size);
  }

  lemma ParitySound(v: Store<int>, at: int, p: FecParity, stream: int -> FecData, bases: iset<int>, n: GroupSize, size: nat)
    requires Sound(v, stream, bases, n, size) && AllCovered(stream, size)
    requires Genuine(ParitySeen(at, p), stream, bases, n, size)
    ensures Sound(Observe(v, ParitySeen(at, p), n, size), stream, bases, n, size)
    ensures AllFromStream(Recovered(v, ParitySeen(at, p), n, size), stream)
  {
    var base := RowBase(at, n);
    ParityGroupSound(v, base, p, stream, bases, n, size);
    var v' := TryGroup(WithParity(v, base, p), Keys(base, n), size);
    EvictedSound(v', Stale(at, Window(n)), stream, bases, n, size);
    assert Observe(v, ParitySeen(at, p), n, size) == Evicted(v', Stale(at, Window(n)));
    assert Recovered(v, ParitySeen(at, p), n, size) == RecoveredByParity(v, base, p, Keys(base, n), size);
  }

  /**
   Whatever arrives, in whatever order, duplicated or lost: every packet FEC ever rebuilds equals, in every clipped
   field, the packet the sender sent under that number.
   */
  lemma {:induction false} RecoveriesAreGenuine(os: seq<Observation>, stream: int -> FecData, bases: iset<int>, n: GroupSize, size: nat)
    requires AllGenuine(os, stream, bases, n, size) && AllCovered(stream, size)
    ensures Sound(After(os, n, size), stream, bases, n, size)
    ensures AllFromStream(AllRecovered(os, n, size), stream)
  {
    if os != [] {
      var front := os[..|os| - 1];
      RecoveriesAreGenuine(front, stream, bases, n, size);
      match os[|os| - 1]
      case DataSeen(at, _) => DataSound(After(front, n, size), at, stream, bases, n, size);
      case ParitySeen(at, p) => ParitySound(After(front, n, size), at, p, stream, bases, n, size);
    }
  }

  // ---- Exactly one recovery ----

  /** Groups do not overlap. */
  ghost predicate Disjoint(bases: iset<int>, n: GroupSize) {
    forall b, c :: b in bases && c in bases && b < c ==> b + n <= c
  }

  /** Consecutive groups of `n` from the first packet on. */
  ghost function Rows(first: int, n: GroupSize): iset<int> {
    iset g: nat | true :: first + g * n
  }

  lemma {:induction false} TimesMonotone(g: nat, h: nat, n: nat)
    requires g <= h
    ensures g * n <= h * n
  {
    if g < h {
      TimesMonotone(g, h - 1, n);
      assert h * n == (h - 1) * n + n;
    }
  }

  lemma RowsApart(g: nat, h: nat, n: nat)
    requires g * n < h * n
    ensures g * n + n <= h * n
  {
    if h <= g {
      TimesMonotone(h, g, n);
    } else {
      TimesMonotone(g + 1, h, n);
      assert (g + 1) * n == g * n + n;
    }
  }

  lemma RowsDisjoint(first: int, n: GroupSize)
    ensures Disjoint(Rows(first, n), n)
  {
    forall b, c | b in Rows(first, n) && c in Rows(first, n) && b < c
      ensures b + n <= c
    {
      var g: nat :| b == first + g * n;
      var h: nat :| c == first + h * n;
      RowsApart(g, h, n);
    }
  }

  /** What the encoder emits after whole groups of the stream is a genuine parity of the last of them. */
  lemma EncoderIsGenuine(stream: int -> FecData, first: int, fed: seq<FecData>, groups: nat, n: GroupSize, size: nat)
    requires forall i :: 0 <= i < |fed| ==> fed[i] == stream(first + i)
    requires |fed| == groups * n && groups > 0 && n <= |fed|
    ensures Genuine(ParitySeen(first + |fed| - 1, ParityOf(size, fed[|fed| - n..])), stream, Rows(first, n), n, size)
  {
    var base := RowBase(first + |fed| - 1, n);
    assert fed[|fed| - n..] == Members(stream, base, n);
    var g: nat := groups - 1;
    assert base == first + g * n;
  }

  /** The parities held belong to groups. */
  ghost predicate Based(v: Store<int>, bases: iset<int>) {
    forall b :: b in v.parities ==> b in bases
  }

  /** A group and the member of it that never arrives. */
  datatype Loss = Loss(base: int, missing: int, n: GroupSize, size: nat)

  ghost predicate InGroup(l: Loss, i: int) {
    l.base <= i < l.base + l.n
  }

  ghost predicate OthersHeld(v: Store<int>, l: Loss) {
    forall i :: InGroup(l, i) && i != l.missing ==> i in v.data
  }

  /** The group can be rebuilt now. */
  ghost predicate Ripe(v: Store<int>, l: Loss) {
    l.base in v.parities && OthersHeld(v, l) && l.missing !in v.data
  }

  /** Nothing about the group differs between two stores. */
  ghost predicate Agree(v: Store<int>, v': Store<int>, l: Loss) {
    && (l.base in v.parities <==> l.base in v'.parities)
    && (forall i :: InGroup(l, i) ==> (i in v.data <==> i in v'.data))
  }

  function CountOf(rs: seq<Recovery<int>>, key: int): nat {
    if rs == [] then 0 else CountOf(rs[..|rs| - 1], key) + (if rs[|rs| - 1].key == key then 1 else 0)
  }

  lemma {:induction false} CountAppend(rs: seq<Recovery<int>>, qs: seq<Recovery<int>>, key: int)
    ensures CountOf(rs + qs, key) == CountOf(rs, key) + CountOf(qs, key)
  {
    if qs == [] {
      assert rs + qs == rs;
    } else {
      assert (rs + qs)[..|rs + qs| - 1] == rs + qs[..|qs| - 1];
      CountAppend(rs, qs[..|qs| - 1], key);
    }
  }

  lemma {:induction false} AbsentMembers(data: map<int, FecData>, base: int, n: nat)
    ensures forall i :: i in Absent(data, Keys(base, n)) <==> base <= i < base + n && i !in data
    ensures |Present(data, Keys(base, n))| + |Absent(data, Keys(base, n))| == n
  {
    if n > 0 {
      assert Keys(base, n)[..n - 1] == Keys(base, n - 1);
      AbsentMembers(data, base, n - 1);
    }
  }

  lemma {:induction false} AbsentOnly(data: map<int, FecData>, base: int, n: nat, m: int)
    requires m !in data && (forall i :: base <= i < base + n && i != m ==> i in data)
    ensures Absent(data, Keys(base, n)) == if base <= m < base + n then [m] else []
  {
    if n > 0 {
      assert Keys(base, n)[..n - 1] == Keys(base, n - 1);
      AbsentOnly(data, base, n - 1, m);
    }
  }

  /** If a single member is out, it is the lost one. */
  lemma OneOut(v: Store<int>, l: Loss)
    requires InGroup(l, l.missing) && |Absent(v.data, Keys(l.base, l.n))| == 1
    requires l.missing in v.data ==> OthersHeld(v, l)
    ensures l.missing !in v.data && OthersHeld(v, l)
  {
    var out := Absent(v.data, Keys(l.base, l.n));
    AbsentMembers(v.data, l.base, l.n);
    var only := out[0];
    assert only in out;
    forall i | InGroup(l, i) && i != l.missing
      ensures i in v.data
    {
      assert l.missing in out ==> (i in out ==> i == only == l.missing);
    }
  }

  /** The lost member's own group: rebuilt exactly when ripe. */
  lemma OwnGroup(v: Store<int>, l: Loss)
    requires InGroup(l, l.missing)
    requires l.missing in v.data ==> OthersHeld(v, l)
    ensures var r := GroupRecovery(v, Keys(l.base, l.n), l.size);
            if Ripe(v, l) then r.Some? && r.value.key == l.missing else r.None?
  {
    AbsentMembers(v.data, l.base, l.n);
    if Ripe(v, l) {
      AbsentOnly(v.data, l.base, l.n, l.missing);
    }
    if |Absent(v.data, Keys(l.base, l.n))| == 1 {
      OneOut(v, l);
    }
  }

  /** Any other group leaves it alone. */
  lemma OtherGroup(v: Store<int>, bases: iset<int>, base: int, l: Loss)
    requires Based(v, bases) && Disjoint(bases, l.n) && l.base in bases && base != l.base
    ensures var r := GroupRecovery(v, Keys(base, l.n), l.size);
            r.Some? ==> !InGroup(l, r.value.key)
    ensures Agree(v, TryGroup(v, Keys(base, l.n), l.size), l)
  {
    AbsentMembers(v.data, base, l.n);
    if GroupRecovery(v, Keys(base, l.n), l.size).Some? {
      assert Absent(v.data, Keys(base, l.n))[0] in Absent(v.data, Keys(base, l.n));
      assert base in bases;
    }
  }

  /** The lost member is either still out, or back with its whole group. */
  ghost predicate Settled(v: Store<int>, l: Loss) {
    l.missing in v.data ==> OthersHeld(v, l)
  }

  ghost predicate Tried(groups: seq<seq<int>>, l: Loss) {
    exists k :: 0 <= k < |groups| && groups[k] == Keys(l.base, l.n)
  }

  /** What trying some groups does to the lost member's: rebuilt once if ripe and tried, else nothing. */
  ghost predicate Outcome(v: Store<int>, v': Store<int>, rs: seq<Recovery<int>>, tried: bool, l: Loss) {
    if Ripe(v, l) && tried then CountOf(rs, l.missing) == 1 && l.missing in v'.data && OthersHeld(v', l)
    else CountOf(rs, l.missing) == 0 && Agree(v, v', l)
  }

  lemma OneGroup(v: Store<int>, bases: iset<int>, base: int, l: Loss)
    requires Based(v, bases) && Disjoint(bases, l.n) && l.base in bases && InGroup(l, l.missing) && Settled(v, l)
    ensures var v' := TryGroup(v, Keys(base, l.n), l.size);
            && Based(v', bases) && Settled(v', l)
            && Outcome(v, v', Listed(GroupRecovery(v, Keys(base, l.n), l.size)), base == l.base, l)
  {
    var r := GroupRecovery(v, Keys(base, l.n), l.size);
    if base == l.base {
      OwnGroup(v, l);
    } else {
      OtherGroup(v, bases, base, l);
    }
    if r.Some? {
      assert Listed(r)[..0] == [];
    }
  }

  lemma OutcomeChain(v: Store<int>, u: Store<int>, w: Store<int>, rs: seq<Recovery<int>>,
    qs: seq<Recovery<int>>, first: bool, then': bool, l: Loss)
    requires Settled(u, l) && Outcome(v, u, rs, first, l) && Outcome(u, w, qs, then', l)
    requires InGroup(l, l.missing)
    ensures Outcome(v, w, rs + qs, first || then', l)
  {
    CountAppend(rs, qs, l.missing);
    assert Agree(v, u, l) ==> (OthersHeld(v, l) <==> OthersHeld(u, l));
  }

  lemma TriedNext(groups: seq<seq<int>>, l: Loss)
    requires groups != [] && AreGroups(groups, l.n)
    ensures Tried(groups, l) <==> Tried(groups[..|groups| - 1], l) || groups[|groups| - 1][0] == l.base
  {
    var front, last := groups[..|groups| - 1], groups[|groups| - 1];
    assert last == Keys(last[0], l.n);
    if Tried(front, l) {
      var k :| 0 <= k < |front| && front[k] == Keys(l.base, l.n);
      assert groups[k] == Keys(l.base, l.n);
    }
  }

  lemma {:induction false} GroupsTried(v: Store<int>, bases: iset<int>, groups: seq<seq<int>>, l: Loss)
    requires Based(v, bases) && Disjoint(bases, l.n) && l.base in bases && InGroup(l, l.missing) && Settled(v, l)
    requires AreGroups(groups, l.n)
    ensures var v' := TryAll(v, groups, l.size);
            && Based(v', bases) && Settled(v', l)
            && Outcome(v, v', RecoveredAll(v, groups, l.size), Tried(groups, l), l)
  {
    if groups != [] {
      var front, last := groups[..|groups| - 1], groups[|groups| - 1];
      GroupsTried(v, bases, front, l);
      var u := TryAll(v, front, l.size);
      OneGroup(u, bases, last[0], l);
      OutcomeChain(v, u, TryGroup(u, last, l.size), RecoveredAll(v, front, l.size),
        Listed(GroupRecovery(u, last, l.size)), Tried(front, l), last[0] == l.base, l);
      TriedNext(groups, l);
    }
  }

  ghost predicate SeenData(os: seq<Observation>, i: int) {
    exists k :: 0 <= k < |os| && os[k].DataSeen? && os[k].at == i
  }

  ghost predicate SeenParity(os: seq<Observation>, l: Loss) {
    exists k :: 0 <= k < |os| && os[k].ParitySeen? && os[k].at == l.base + l.n - 1
  }

  /** The parity and every other member have arrived. */
  ghost predicate Complete(os: seq<Observation>, l: Loss) {
    SeenParity(os, l) && (forall i :: InGroup(l, i) && i != l.missing ==> SeenData(os, i))
  }

  /** The group is inside the history window at every observation, and the lost packet never arrives. */
  ghost predicate Watched(os: seq<Observation>, bases: iset<int>, l: Loss) {
    && (forall k :: 0 <= k < |os| ==> os[k].at - l.base < Window(l.n))
    && (forall k :: 0 <= k < |os| && os[k].DataSeen? ==> os[k].at != l.missing)
    && (forall k :: 0 <= k < |os| && os[k].ParitySeen? ==> RowBase(os[k].at, l.n) in bases)
  }

  /** What the store and the recoveries so far say about the group. */
  ghost predicate Tracks(v: Store<int>, os: seq<Observation>, count: nat, l: Loss) {
    && (forall i :: InGroup(l, i) && i != l.missing ==> (i in v.data <==> SeenData(os, i)))
    && (l.missing in v.data <==> Complete(os, l))
    && (l.base in v.parities ==> SeenParity(os, l))
    && (SeenParity(os, l) && !Complete(os, l) ==> l.base in v.parities)
    && count == (if Complete(os, l) then 1 else 0)
  }

  lemma SeenNext(os: seq<Observation>, o: Observation, l: Loss)
    ensures forall i :: SeenData(os + [o], i) <==> SeenData(os, i) || (o.DataSeen? && o.at == i)
    ensures SeenParity(os + [o], l) <==> SeenParity(os, l) || (o.ParitySeen? && o.at == l.base + l.n - 1)
  {
    var os' := os + [o];
    assert forall k :: 0 <= k < |os| ==> os'[k] == os[k];
    assert os'[|os|] == o;
    forall i
      ensures SeenData(os', i) <==> SeenData(os, i) || (o.DataSeen? && o.at == i)
    {
      if SeenData(os, i) {
        var k :| 0 <= k < |os| && os[k].DataSeen? && os[k].at == i;
        assert os'[k].DataSeen? && os'[k].at == i;
      }
    }
    if SeenParity(os, l) {
      var k :| 0 <= k < |os| && os[k].ParitySeen? && os[k].at == l.base + l.n - 1;
      assert os'[k].ParitySeen?;
    }
  }

  /** The store with the new arrival, before any group is tried. */
  ghost predicate Arrived(v: Store<int>, os: seq<Observation>, o: Observation, count: nat, l: Loss) {
    && (forall i :: InGroup(l, i) && i != l.missing ==> (i in v.data <==> SeenData(os + [o], i)))
    && (l.missing in v.data <==> Complete(os, l))
    && (l.base in v.parities ==> SeenParity(os + [o], l))
    && (SeenParity(os + [o], l) && !Complete(os, l) ==> l.base in v.parities)
    && count == (if Complete(os, l) then 1 else 0)
  }

  lemma CompleteStays(os: seq<Observation>, o: Observation, l: Loss)
    requires Complete(os, l)
    ensures Complete(os + [o], l)
  {
    SeenNext(os, o, l);
  }

  lemma ArrivedSettled(v: Store<int>, os: seq<Observation>, o: Observation, count: nat, l: Loss)
    requires Arrived(v, os, o, count, l)
    ensures Settled(v, l)
  {
    if Complete(os, l) {
      CompleteStays(os, o, l);
    }
  }

  /** Trying the right groups brings the books up to date. */
  lemma TryTracks(v: Store<int>, v': Store<int>, rs: seq<Recovery<int>>, tried: bool,
    os: seq<Observation>, o: Observation, count: nat, l: Loss)
    requires Arrived(v, os, o, count, l) && Outcome(v, v', rs, tried, l)
    requires InGroup(l, l.missing) && (Ripe(v, l) ==> tried)
    ensures Tracks(v', os + [o], count + CountOf(rs, l.missing), l)
  {
    if Complete(os, l) {
      CompleteStays(os, o, l);
    } else {
      assert Ripe(v, l) <==> Complete(os + [o], l);
    }
  }

  lemma EvictTracks(v: Store<int>, at: int, os: seq<Observation>, count: nat, l: Loss)
    requires Tracks(v, os, count, l) && at - l.base < Window(l.n) && InGroup(l, l.missing)
    ensures Tracks(Evicted(v, Stale(at, Window(l.n))), os, count, l)
  {
    var v' := Evicted(v, Stale(at, Window(l.n)));
    assert InGroup(l, l.base);
    assert forall i :: InGroup(l, i) ==> !IsStale(at, Window(l.n), i);
    assert Agree(v, v', l);
  }

  lemma DataTracks(v: Store<int>, os: seq<Observation>, at: int, d: FecData, count: nat, bases: iset<int>, l: Loss)
    requires Tracks(v, os, count, l) && Based(v, bases) && Disjoint(bases, l.n) && l.base in bases && InGroup(l, l.missing)
    requires at - l.base < Window(l.n) && at != l.missing
    ensures var o := DataSeen(at, d);
            && Based(Observe(v, o, l.n, l.size), bases)
            && Tracks(Observe(v, o, l.n, l.size), os + [o], count + CountOf(Recovered(v, o, l.n, l.size), l.missing), l)
  {
    var o := DataSeen(at, d);
    var s := WithData(v, at, d);
    var groups := Groups(at, l.n);
    SeenNext(os, o, l);
    ArrivedSettled(s, os, o, count, l);
    GroupsTried(s, bases, groups, l);
    if InGroup(l, at) {
      assert groups[at - l.base] == Keys(l.base, l.n);
    }
    TryTracks(s, TryAll(s, groups, l.size), RecoveredAll(s, groups, l.size), Tried(groups, l), os, o, count, l);
    EvictTracks(TryAll(s, groups, l.size), at, os + [o], count + CountOf(RecoveredAll(s, groups, l.size), l.missing), l);
  }

  lemma ParityTracks(v: Store<int>, os: seq<Observation>, at: int, p: FecParity, count: nat, bases: iset<int>, l: Loss)
    requires Tracks(v, os, count, l) && Based(v, bases) && Disjoint(bases, l.n) && l.base in bases && InGroup(l, l.missing)
    requires at - l.base < Window(l.n) && RowBase(at, l.n) in bases
    ensures var o := ParitySeen(at, p);
            && Based(Observe(v, o, l.n, l.size), bases)
            && Tracks(Observe(v, o, l.n, l.size), os + [o], count + CountOf(Recovered(v, o, l.n, l.size), l.missing), l)
  {
    var o := ParitySeen(at, p);
    var base := RowBase(at, l.n);
    var s := WithParity(v, base, p);
    SeenNext(os, o, l);
    ArrivedSettled(s, os, o, count, l);
    OneGroup(s, bases, base, l);
    var rs := Listed(GroupRecovery(s, Keys(base, l.n), l.size));
    TryTracks(s, TryGroup(s, Keys(base, l.n), l.size), rs, base == l.base, os, o, count, l);
    EvictTracks(TryGroup(s, Keys(base, l.n), l.size), at, os + [o], count + CountOf(rs, l.missing), l);
  }

  lemma ObserveTracks(v: Store<int>, os: seq<Observation>, o: Observation, rs: seq<Recovery<int>>, bases: iset<int>, l: Loss)
    requires Tracks(v, os, CountOf(rs, l.missing), l) && Based(v, bases)
    requires Disjoint(bases, l.n) && l.base in bases && InGroup(l, l.missing) && Watched([o], bases, l)
    ensures Based(Observe(v, o, l.n, l.size), bases)
    ensures Tracks(Observe(v, o, l.n, l.size), os + [o], CountOf(rs + Recovered(v, o, l.n, l.size), l.missing), l)
  {
    CountAppend(rs, Recovered(v, o, l.n, l.size), l.missing);
    assert [o][0] == o;
    match o
    case DataSeen(at, d) => DataTracks(v, os, at, d, CountOf(rs, l.missing), bases, l);
    case ParitySeen(at, p) => ParityTracks(v, os, at, p, CountOf(rs, l.missing), bases, l);
  }

  lemma StartTracks(l: Loss)
    requires InGroup(l, l.missing)
    ensures Tracks(Store(map[], map[]), [], 0, l)
  {
  }

  lemma SplitLast<T>(s: seq<T>)
    requires s != []
    ensures s == s[..|s| - 1] + [s[|s| - 1]]
  {
  }

  lemma WatchedSplit(os: seq<Observation>, bases: iset<int>, l: Loss)
    requires os != [] && Watched(os, bases, l)
    ensures Watched(os[..|os| - 1], bases, l) && Watched([os[|os| - 1]], bases, l)
  {
  }

  lemma {:induction false} RunTracks(os: seq<Observation>, bases: iset<int>, l: Loss)
    requires Disjoint(bases, l.n) && l.base in bases && InGroup(l, l.missing) && Watched(os, bases, l)
    ensures Based(After(os, l.n, l.size), bases)
    ensures Tracks(After(os, l.n, l.size), os, CountOf(AllRecovered(os, l.n, l.size), l.missing), l)
  {
    if os != [] {
      var front, o := os[..|os| - 1], os[|os| - 1];
      WatchedSplit(os, bases, l);
      RunTracks(front, bases, l);
      SplitLast(os);
      var v, rs := After(front, l.n, l.size), AllRecovered(front, l.n, l.size);
      ObserveTracks(v, front, o, rs, bases, l);
      assert After(os, l.n, l.size) == Observe(v, o, l.n, l.size);
      assert AllRecovered(os, l.n, l.size) == rs + Recovered(v, o, l.n, l.size);
    } else {
      StartTracks(l);
    }
  }

  // ---- After the group has left the window ----

  /** Observations that concern other groups only. */
  ghost predicate Elsewhere(os: seq<Observation>, bases: iset<int>, l: Loss) {
    && (forall k :: 0 <= k < |os| && os[k].DataSeen? ==> !InGroup(l, os[k].at))
    && (forall k :: 0 <= k < |os| && os[k].ParitySeen? ==>
          RowBase(os[k].at, l.n) in bases && RowBase(os[k].at, l.n) != l.base)
  }

  ghost predicate NotOf(rs: seq<Recovery<int>>, l: Loss) {
    forall k :: 0 <= k < |rs| ==> !InGroup(l, rs[k].key)
  }

  lemma {:induction false} NoneCounted(rs: seq<Recovery<int>>, l: Loss)
    requires NotOf(rs, l) && InGroup(l, l.missing)
    ensures CountOf(rs, l.missing) == 0
  {
    if rs != [] {
      NoneCounted(rs[..|rs| - 1], l);
    }
  }

  lemma {:induction false} GroupsElsewhere(v: Store<int>, bases: iset<int>, groups: seq<seq<int>>, l: Loss)
    requires Based(v, bases) && Disjoint(bases, l.n) && l.base in bases && AreGroups(groups, l.n)
    requires forall k :: 0 <= k < |groups| ==> groups[k][0] != l.base
    ensures Based(TryAll(v, groups, l.size), bases) && NotOf(RecoveredAll(v, groups, l.size), l)
  {
    if groups != [] {
      var front, last := groups[..|groups| - 1], groups[|groups| - 1];
      GroupsElsewhere(v, bases, front, l);
      OtherGroup(TryAll(v, front, l.size), bases, last[0], l);
    }
  }

  /** An observation that concerns another group rebuilds nothing of this one. */
  lemma ObserveElsewhere(v: Store<int>, o: Observation, bases: iset<int>, l: Loss)
    requires Based(v, bases) && Disjoint(bases, l.n) && l.base in bases && Elsewhere([o], bases, l)
    ensures Based(Observe(v, o, l.n, l.size), bases) && NotOf(Recovered(v, o, l.n, l.size), l)
  {
    assert [o][0] == o;
    match o
    case DataSeen(at, d) => GroupsElsewhere(WithData(v, at, d), bases, Groups(at, l.n), l);
    case ParitySeen(at, p) =>
      var base := RowBase(at, l.n);
      OtherGroup(WithParity(v, base, p), bases, base, l);
  }

  lemma ElsewhereSplit(os: seq<Observation>, bases: iset<int>, l: Loss)
    requires os != [] && Elsewhere(os, bases, l)
    ensures Elsewhere(os[..|os| - 1], bases, l) && Elsewhere([os[|os| - 1]], bases, l)
  {
  }

  lemma {:induction false} CountStays(os: seq<Observation>, more: seq<Observation>, bases: iset<int>, l: Loss)
    requires Disjoint(bases, l.n) && l.base in bases && InGroup(l, l.missing)
    requires Based(After(os, l.n, l.size), bases) && Elsewhere(more, bases, l)
    ensures Based(After(os + more, l.n, l.size), bases)
    ensures CountOf(AllRecovered(os + more, l.n, l.size), l.missing) == CountOf(AllRecovered(os, l.n, l.size), l.missing)
  {
    if more == [] {
      assert os + more == os;
    } else {
      var front, o := more[..|more| - 1], more[|more| - 1];
      ElsewhereSplit(more, bases, l);
      ConcatLast(os, more);
      CountStays(os, front, bases, l);
      CountStep(os + front, o, bases, l);
    }
  }

  lemma ConcatLast<T>(a: seq<T>, b: seq<T>)
    requires b != []
    ensures a + b == a + b[..|b| - 1] + [b[|b| - 1]]
  {
  }

  lemma CountStep(os: seq<Observation>, o: Observation, bases: iset<int>, l: Loss)
    requires Disjoint(bases, l.n) && l.base in bases && InGroup(l, l.missing)
    requires Based(After(os, l.n, l.size), bases) && Elsewhere([o], bases, l)
    ensures Based(After(os + [o], l.n, l.size), bases)
    ensures CountOf(AllRecovered(os + [o], l.n, l.size), l.missing) == CountOf(AllRecovered(os, l.n, l.size), l.missing)
  {
    var v, rs := After(os, l.n, l.size), AllRecovered(os, l.n, l.size);
    RunSnoc(os, o, l.n, l.size);
    ObserveElsewhere(v, o, bases, l);
    NoneCounted(Recovered(v, o, l.n, l.size), l);
    CountAppend(rs, Recovered(v, o, l.n, l.size), l.missing);
  }

  lemma RunSnoc(os: seq<Observation>, o: Observation, n: GroupSize, size: nat)
    ensures After(os + [o], n, size) == Observe(After(os, n, size), o, n, size)
    ensures AllRecovered(os + [o], n, size) == AllRecovered(os, n, size) + Recovered(After(os, n, size), o, n, size)
  {
    assert (os + [o])[..|os|] == os;
  }

  /**
   A packet that never arrives is rebuilt exactly once if its group's parity and every other member are seen, in any
   order and with any repetitions, while the group is inside the history window; and not at all otherwise. However long
   the stream goes on with other groups, it stays at that.
   */
  lemma RecoveredExactlyOnce(os: seq<Observation>, more: seq<Observation>, bases: iset<int>, l: Loss)
    requires Disjoint(bases, l.n) && l.base in bases && InGroup(l, l.missing)
    requires Watched(os, bases, l) && Elsewhere(more, bases, l)
    ensures CountOf(AllRecovered(os + more, l.n, l.size), l.missing) == if Complete(os, l) then 1 else 0
  {
    RunTracks(os, bases, l);
    CountStays(os, more, bases, l);
  }
}
