/**
 Fragmentation of application messages into packet payloads and their reassembly at the far end
 (connection.rs: `fragment_message`, `Reassembler`), and the proof that the second undoes the first under loss.
 */
module Reassembly {
  import opened Options
  import opened SeqNumbers
  import opened Packets

  datatype Fragment = Fragment(payload: Bytes, position: Position, message: MsgNumber)

  /** A packet the receiver hands on, with its true index. */
  datatype Delivery = Delivery(i: int, packet: DataPacket)

  function Concat(payloads: seq<Bytes>): Bytes {
    if payloads == [] then [] else Concat(payloads[..|payloads| - 1]) + payloads[|payloads| - 1]
  }

  function Payloads(fragments: seq<Fragment>): (r: seq<Bytes>)
    ensures |r| == |fragments|
  {
    seq(|fragments|, k requires 0 <= k < |fragments| => fragments[k].payload)
  }

  /** The position field of fragment `k` of `n`. */
  function PositionOf(k: nat, n: nat): Position {
    if n == 1 then Single else if k == 0 then First else if k == n - 1 then Last else Middle
  }

  /** `fragments` is `payload` cut into pieces of at most `max` bytes, in order, with the positions that say so. */
  ghost predicate IsFragmentation(payload: Bytes, max: nat, fragments: seq<Fragment>) {
    && |fragments| > 0
    && Concat(Payloads(fragments)) == payload
    && (forall k :: 0 <= k < |fragments| ==> |fragments[k].payload| <= max)
    && Positioned(fragments)
  }

  ghost predicate Positioned(fragments: seq<Fragment>) {
    forall k :: 0 <= k < |fragments| ==> fragments[k].position == PositionOf(k, |fragments|)
  }

  /** The largest payload one packet carries: the MTU less headers and, for AES-GCM, the tag. */
  function MaxPayload(mtu: nat, aead: bool): (n: nat)
    ensures n >= 1
  {
    var overhead := 44 + if aead then 16 else 0;
    if mtu <= overhead then 1 else mtu - overhead
  }

  lemma PayloadsSnoc(fragments: seq<Fragment>, f: Fragment)
    ensures Payloads(fragments + [f]) == Payloads(fragments) + [f.payload]
    ensures Concat(Payloads(fragments + [f])) == Concat(Payloads(fragments)) + f.payload
  {
    var longer := Payloads(fragments) + [f.payload];
    assert Payloads(fragments + [f]) == longer;
    assert longer[..|longer| - 1] == Payloads(fragments);
  }

  /** The fragments of the first `offset` bytes: full-sized, positioned, the last one marked once nothing is left. */
  ghost predicate Cut(payload: Bytes, max: nat, message: MsgNumber, fragments: seq<Fragment>, offset: nat) {
    && offset <= |payload| && Concat(Payloads(fragments)) == payload[..offset]
    && (forall k :: 0 <= k < |fragments| ==> fragments[k].message == message)
    && (forall k :: 0 <= k < |fragments| ==> |fragments[k].payload| <= max)
    && (offset < |payload| ==> forall k :: 0 <= k < |fragments| ==> |fragments[k].payload| == max)
    && (forall k :: 0 <= k < |fragments| - 1 ==> |fragments[k].payload| == max)
    && (|fragments| == 0 <==> offset == 0)
    && (offset == |payload| ==> |fragments| >= 2)
    && (forall k :: 0 <= k < |fragments| ==>
          fragments[k].position == CutPosition(k, |fragments|, offset == |payload|))
  }

  function CutPosition(k: nat, n: nat, done: bool): Position {
    if k == 0 then First else if k == n - 1 && done then Last else Middle
  }

  function CutEnd(payload: Bytes, max: nat, offset: nat): nat {
    if offset + max < |payload| then offset + max else |payload|
  }

  lemma CutNext(payload: Bytes, max: nat, message: MsgNumber, fragments: seq<Fragment>, offset: nat, position: Position)
    requires max >= 1 && max < |payload| && offset < |payload| && Cut(payload, max, message, fragments, offset)
    requires position == if offset == 0 then First else if CutEnd(payload, max, offset) == |payload| then Last else Middle
    ensures var end := CutEnd(payload, max, offset);
            offset <= end && Cut(payload, max, message, fragments + [Fragment(payload[offset..end], position, message)], end)
  {
    var end := CutEnd(payload, max, offset);
    var fragment := Fragment(payload[offset..end], position, message);
    PayloadsSnoc(fragments, fragment);
    assert payload[..offset] + payload[offset..end] == payload[..end];
    var longer := fragments + [fragment];
    assert longer[|fragments|] == fragment && forall k :: 0 <= k < |fragments| ==> longer[k] == fragments[k];
  }

  lemma CutWhole(payload: Bytes, max: nat, message: MsgNumber, fragments: seq<Fragment>)
    requires Cut(payload, max, message, fragments, |payload|) && max < |payload|
    ensures IsFragmentation(payload, max, fragments)
  {
    assert payload[..|payload|] == payload;
  }

  method FragmentMessage(payload: Bytes, max: nat, message: MsgNumber) returns (fragments: seq<Fragment>)
    requires max >= 1
    ensures IsFragmentation(payload, max, fragments)
    ensures forall k :: 0 <= k < |fragments| ==> fragments[k].message == message
    ensures |fragments| == 1 <==> |payload| <= max
    ensures forall k :: 0 <= k < |fragments| - 1 ==> |fragments[k].payload| == max
  {
    fragments := [];
    if |payload| <= max {
      PayloadsSnoc([], Fragment(payload, Single, message));
      fragments := [] + [Fragment(payload, Single, message)];
      return;
    }
    var offset := 0;
    while offset < |payload|
      invariant Cut(payload, max, message, fragments, offset)
      decreases |payload| - offset
    {
      var end := if offset + max < |payload| then offset + max else |payload|;
      var position := if offset == 0 then First else if end == |payload| then Last else Middle;
      CutNext(payload, max, message, fragments, offset, position);
      fragments := fragments + [Fragment(payload[offset..end], position, message)];
      offset := end;
    }
    CutWhole(payload, max, message, fragments);
  }

  // ---- Reassembly ----

  /** A message in progress: its fragments so far and the number the next one must carry. */
  datatype Partial = Partial(fragments: seq<Bytes>, next: Option<SeqNumber>)

  const EMPTY: Partial := Partial([], None)

  /** What one in-order packet does to the message in progress, and the message it completes. */
  function Pushed(s: Partial, p: DataPacket): (Partial, Option<Bytes>) {
    match p.position
    case Single => (EMPTY, Some(p.payload))
    case First => (Partial([p.payload], Some(Next(p.number))), None)
    case _ =>
      if s.next != Some(p.number) then (EMPTY, None)
      else if p.position == Last then (EMPTY, Some(Concat(s.fragments + [p.payload])))
      else (Partial(s.fragments + [p.payload], Some(Next(p.number))), None)
  }

  class Reassembler {
    var fragments: seq<Bytes>
    var next: Option<SeqNumber>

    ghost function State(): Partial
      reads this
    {
      Partial(fragments, next)
    }

    constructor ()
      ensures State() == EMPTY
    {
      fragments, next := [], None;
    }

    method Push(packet: DataPacket) returns (message: Option<Bytes>)
      modifies this
      ensures (State(), message) == Pushed(old(State()), packet)
    {
      message := None;
      if packet.position == Single {
        Reset();
        message := Some(packet.payload);
      } else if packet.position == First {
        fragments := [packet.payload];
        next := Some(Next(packet.number));
      } else if next != Some(packet.number) {
        Reset();
      } else {
        fragments := fragments + [packet.payload];
        next := Some(Next(packet.number));
        if packet.position == Last {
          var whole := Join(fragments);
          message := Some(whole);
          Reset();
        }
      }
    }

    method Reset()
      modifies this
      ensures State() == EMPTY
    {
      fragments, next := [], None;
    }
  }

  method Join(payloads: seq<Bytes>) returns (whole: Bytes)
    ensures whole == Concat(payloads)
  {
    whole := [];
    for k := 0 to |payloads|
      invariant whole == Concat(payloads[..k])
    {
      assert payloads[..k + 1][..k] == payloads[..k];
      whole := whole + payloads[k];
    }
    assert payloads[..|payloads|] == payloads;
  }

  /** The reassembler state and the messages output after a sequence of deliveries. */
  function Feed(s: Partial, ds: seq<Delivery>): (Partial, seq<Bytes>) {
    if ds == [] then (s, [])
    else
      var before := Feed(s, ds[..|ds| - 1]);
      var after := Pushed(before.0, ds[|ds| - 1].packet);
      (after.0, before.1 + if after.1.Some? then [after.1.value] else [])
  }

  lemma {:induction false} FeedConcat(s: Partial, a: seq<Delivery>, b: seq<Delivery>)
    ensures Feed(s, a + b).0 == Feed(Feed(s, a).0, b).0
    ensures Feed(s, a + b).1 == Feed(s, a).1 + Feed(Feed(s, a).0, b).1
  {
    if b == [] {
      assert a + b == a;
    } else {
      FeedConcat(s, a, b[..|b| - 1]);
      assert (a + b)[..|a + b| - 1] == a + b[..|b| - 1];
    }
  }

  // ---- The stream and what survives of it ----

  function Flatten(messages: seq<seq<Fragment>>): seq<Fragment> {
    if messages == [] then [] else messages[0] + Flatten(messages[1..])
  }

  /** `d` carries fragment `d.i - start` of the stream. */
  ghost predicate Carries(d: Delivery, start: int, stream: seq<Fragment>) {
    && start <= d.i < start + |stream|
    && d.packet.number == Wire(d.i)
    && d.packet.position == stream[d.i - start].position
    && d.packet.payload == stream[d.i - start].payload
  }

  /** An in-order subsequence of the stream whose packet `k` has index `start + k`. */
  ghost predicate Subsequence(ds: seq<Delivery>, start: int, stream: seq<Fragment>) {
    && (forall k :: 0 <= k < |ds| ==> Carries(ds[k], start, stream))
    && (forall k, l :: 0 <= k < l < |ds| ==> ds[k].i < ds[l].i)
  }

  /** Fewer than 2^31 packets are missing between neighbours. */
  ghost predicate SmallGaps(ds: seq<Delivery>) {
    forall k, l :: 0 <= k < l == k + 1 < |ds| ==> ds[l].i - ds[k].i <= COUNT
  }

  ghost predicate Survived(ds: seq<Delivery>, i: int) {
    exists k :: 0 <= k < |ds| && ds[k].i == i
  }

  ghost predicate AllSurvived(ds: seq<Delivery>, start: int, n: nat) {
    forall i :: start <= i < start + n ==> Survived(ds, i)
  }

  /** The messages all of whose fragments survived, in order. */
  ghost function Survivors(ds: seq<Delivery>, start: int, messages: seq<seq<Fragment>>): seq<Bytes>
    decreases |messages|
  {
    if messages == [] then []
    else
      var n := |messages[0]|;
      (if AllSurvived(ds, start, n) then [Concat(Payloads(messages[0]))] else [])
      + Survivors(ds, start + n, messages[1..])
  }

  /** Deliveries at the consecutive indices from `start`. */
  ghost predicate Intact(ds: seq<Delivery>, start: int) {
    forall k :: 0 <= k < |ds| ==> ds[k].i == start + k
  }

  /** No delivery from `ds` can continue the message in progress, last extended at index `j` before `start`. */
  ghost predicate Stale(s: Partial, j: int, start: int, ds: seq<Delivery>) {
    s.next.Some? ==> s.next.value == Wire(j + 1) && j < start && (ds != [] ==> ds[0].i - j <= COUNT)
  }

  /** The first `n` fragments of a message in progress. */
  ghost function Progress(fragments: seq<Fragment>, start: int, n: nat): Partial
    requires n <= |fragments|
  {
    Partial(Payloads(fragments)[..n], Some(Wire(start + n)))
  }

  /** The state and output after the surviving fragments `ds` of one message, given any stale state. */
  ghost function AfterMessage(fragments: seq<Fragment>, start: int, ds: seq<Delivery>): (Partial, seq<Bytes>)
    requires |ds| <= |fragments|
  {
    if !Intact(ds, start) then (EMPTY, [])
    else if |ds| == |fragments| then (EMPTY, [Concat(Payloads(fragments))])
    else (Progress(fragments, start, |ds|), [])
  }

  lemma IncreasingBound(ds: seq<Delivery>, start: int, stream: seq<Fragment>)
    requires Subsequence(ds, start, stream)
    ensures |ds| <= |stream|
    ensures forall k :: 0 <= k < |ds| ==> start + k <= ds[k].i <= start + |stream| - |ds| + k
  {
    forall k | 0 <= k < |ds| ensures start + k <= ds[k].i {
      LowerBound(ds, start, k);
    }
    forall k | 0 <= k < |ds| ensures ds[k].i <= start + |stream| - |ds| + k {
      UpperBound(ds, start + |stream|, k);
    }
    if ds != [] {
      assert start + |ds| - 1 <= ds[|ds| - 1].i;
    }
  }

  lemma {:induction false} LowerBound(ds: seq<Delivery>, start: int, k: nat)
    requires k < |ds| && ds[0].i >= start
    requires forall a, b :: 0 <= a < b < |ds| ==> ds[a].i < ds[b].i
    ensures start + k <= ds[k].i
  {
    if k > 0 {
      LowerBound(ds, start, k - 1);
    }
  }

  lemma {:induction false} UpperBound(ds: seq<Delivery>, end: int, k: nat)
    requires k < |ds| && ds[|ds| - 1].i < end
    requires forall a, b :: 0 <= a < b < |ds| ==> ds[a].i < ds[b].i
    ensures ds[k].i <= end - |ds| + k
    decreases |ds| - k
  {
    if k < |ds| - 1 {
      UpperBound(ds, end, k + 1);
    }
  }

  /** A fragment that does not follow the last accepted one carries a different number, so it voids the partial. */
  lemma NotNext(j: int, i: int)
    requires j + 1 < i <= j + COUNT
    ensures Wire(j + 1) != Wire(i)
  {
    if Wire(j + 1) == Wire(i) {
      WireInjective(j + 1, i);
    }
  }

  /** Feeding the first surviving fragment of a message. */
  lemma FeedFirst(s: Partial, j: int, fragments: seq<Fragment>, start: int, d: Delivery)
    requires Positioned(fragments) && Carries(d, start, fragments)
    requires Stale(s, j, start, [d])
    ensures Feed(s, [d]) == AfterMessage(fragments, start, [d])
  {
    assert [d][..0] == [];
    var pushed := Pushed(s, d.packet);
    assert Feed(s, [d]).1 == if pushed.1.Some? then [pushed.1.value] else [];
    if d.i == start {
      NextExact(start);
      assert Payloads(fragments)[..1] == [d.packet.payload];
      if |fragments| == 1 {
        assert Payloads(fragments) == [] + [d.packet.payload];
        assert Concat(Payloads(fragments)) == Concat([]) + d.packet.payload == d.packet.payload;
      }
    } else {
      assert !Intact([d], start) by { assert [d][0].i != start + 0; }
      if s.next.Some? {
        NotNext(j, d.i);
      }
    }
  }

  /** The next fragment of a message in progress extends it, or completes it. */
  lemma PushNext(fragments: seq<Fragment>, start: int, n: nat, p: DataPacket)
    requires Positioned(fragments) && 1 <= n < |fragments| && p.number == Wire(start + n)
    requires p.position == fragments[n].position && p.payload == fragments[n].payload
    ensures Pushed(Progress(fragments, start, n), p)
            == if n + 1 == |fragments| then (EMPTY, Some(Concat(Payloads(fragments)))) else (Progress(fragments, start, n + 1), None)
  {
    assert Payloads(fragments)[..n] + [p.payload] == Payloads(fragments)[..n + 1];
    assert n + 1 == |fragments| ==> Payloads(fragments)[..n + 1] == Payloads(fragments);
    NextExact(start + n);
    assert start + n + 1 == start + (n + 1);
  }

  /** Any later fragment that is not the next one voids it. */
  lemma PushOther(s: Partial, p: DataPacket)
    requires p.position == Middle || p.position == Last
    requires s.next != Some(p.number)
    ensures Pushed(s, p) == (EMPTY, None)
  {
  }

  lemma IntactNext(ds: seq<Delivery>, start: int, d: Delivery)
    ensures Intact(ds + [d], start) <==> Intact(ds, start) && d.i == start + |ds|
  {
    var longer := ds + [d];
    assert longer[|ds|] == d && forall k :: 0 <= k < |ds| ==> longer[k] == ds[k];
    if Intact(longer, start) {
      forall k | 0 <= k < |ds| ensures ds[k].i == start + k {
        assert longer[k].i == start + k;
      }
    }
  }

  /** A further surviving fragment is not the first of its message. */
  lemma LaterFragment(fragments: seq<Fragment>, start: int, ds: seq<Delivery>, d: Delivery)
    requires Positioned(fragments) && ds != [] && Subsequence(ds + [d], start, fragments)
    ensures Carries(d, start, fragments) && start + |ds| <= d.i
    ensures d.packet.position == Middle || d.packet.position == Last
  {
    var longer := ds + [d];
    assert longer[|ds|] == d;
    assert Carries(longer[|ds|], start, fragments) && Carries(longer[0], start, fragments);
    LowerBound(longer, start, |ds|);
  }

  /** Feeding one more surviving fragment of the same message. */
  lemma FeedMore(fragments: seq<Fragment>, start: int, ds: seq<Delivery>, d: Delivery)
    requires Positioned(fragments) && ds != []
    requires Subsequence(ds + [d], start, fragments) && |ds + [d]| <= |fragments|
    requires d.i - ds[|ds| - 1].i <= COUNT
    ensures
      var before, after := AfterMessage(fragments, start, ds), AfterMessage(fragments, start, ds + [d]);
      var pushed := Pushed(before.0, d.packet);
      after.0 == pushed.0 && after.1 == before.1 + if pushed.1.Some? then [pushed.1.value] else []
  {
    LaterFragment(fragments, start, ds, d);
    IntactNext(ds, start, d);
    if Intact(ds, start) && d.i == start + |ds| {
      PushNext(fragments, start, |ds|, d.packet);
    } else if Intact(ds, start) {
      assert ds[|ds| - 1].i == start + |ds| - 1;
      NotNext(start + |ds| - 1, d.i);
      PushOther(Progress(fragments, start, |ds|), d.packet);
    } else {
      PushOther(EMPTY, d.packet);
    }
  }

  /** One message: whatever subsequence of its fragments arrives, it is output exactly when all of them did. */
  lemma {:induction false} FeedMessage(s: Partial, j: int, fragments: seq<Fragment>, start: int, ds: seq<Delivery>)
    requires Positioned(fragments) && ds != []
    requires Subsequence(ds, start, fragments) && SmallGaps(ds)
    requires Stale(s, j, start, ds)
    ensures |ds| <= |fragments|
    ensures Feed(s, ds) == AfterMessage(fragments, start, ds)
  {
    IncreasingBound(ds, start, fragments);
    if |ds| == 1 {
      assert ds == [ds[0]];
      assert Carries(ds[0], start, fragments);
      FeedFirst(s, j, fragments, start, ds[0]);
    } else {
      var front, d := ds[..|ds| - 1], ds[|ds| - 1];
      FrontSurvives(s, j, fragments, start, ds);
      FeedMessage(s, j, fragments, start, front);
      FeedMore(fragments, start, front, d);
      FeedLast(s, ds);
    }
  }

  lemma FrontSurvives(s: Partial, j: int, fragments: seq<Fragment>, start: int, ds: seq<Delivery>)
    requires |ds| > 1 && Subsequence(ds, start, fragments) && SmallGaps(ds) && Stale(s, j, start, ds)
    ensures var front, d := ds[..|ds| - 1], ds[|ds| - 1];
            && ds == front + [d] && Subsequence(front, start, fragments) && SmallGaps(front) && Stale(s, j, start, front)
            && d.i - front[|front| - 1].i <= COUNT
  {
  }

  lemma FeedLast(s: Partial, ds: seq<Delivery>)
    requires ds != []
    ensures var before := Feed(s, ds[..|ds| - 1]);
            var after := Pushed(before.0, ds[|ds| - 1].packet);
            Feed(s, ds).0 == after.0 && Feed(s, ds).1 == before.1 + if after.1.Some? then [after.1.value] else []
  {
  }

  /** How many deliveries fall below index `end`. */
  ghost function CountBelow(ds: seq<Delivery>, end: int): (n: nat)
    ensures n <= |ds|
    ensures n < |ds| ==> ds[n].i >= end
    ensures forall k :: 0 <= k < n ==> ds[k].i < end
  {
    if ds == [] || ds[0].i >= end then 0
    else
      var n := CountBelow(ds[1..], end);
      assert forall k :: 0 < k < n + 1 ==> ds[k] == ds[1..][k - 1];
      n + 1
  }

  lemma SplitSubsequence(ds: seq<Delivery>, start: int, a: seq<Fragment>, b: seq<Fragment>, n: nat)
    requires Subsequence(ds, start, a + b) && n == CountBelow(ds, start + |a|)
    ensures Subsequence(ds[..n], start, a)
    ensures Subsequence(ds[n..], start + |a|, b)
  {
    forall k | 0 <= k < n ensures Carries(ds[..n][k], start, a) {
      assert Carries(ds[k], start, a + b);
    }
    forall k | 0 <= k < |ds[n..]| ensures Carries(ds[n..][k], start + |a|, b) {
      assert Carries(ds[n + k], start, a + b) && ds[n].i <= ds[n + k].i;
    }
  }

  /** The whole message survived exactly when as many deliveries fall in it as it has fragments. */
  lemma WholeIffCount(ds: seq<Delivery>, start: int, a: seq<Fragment>, b: seq<Fragment>, n: nat)
    requires Subsequence(ds, start, a + b) && n == CountBelow(ds, start + |a|)
    ensures n <= |a|
    ensures AllSurvived(ds, start, |a|) <==> n == |a|
  {
    SplitSubsequence(ds, start, a, b, n);
    IncreasingBound(ds[..n], start, a);
    if n == |a| {
      forall i | start <= i < start + |a| ensures Survived(ds, i) {
        assert ds[..n][i - start].i == i;
        assert ds[i - start].i == i;
      }
    } else if AllSurvived(ds, start, |a|) {
      Pigeonhole(ds, start, n, |a|);
    }
  }

  lemma {:induction false} Pigeonhole(ds: seq<Delivery>, start: int, n: nat, size: nat)
    requires n <= |ds| && n == CountBelow(ds, start + size)
    requires forall k, l :: 0 <= k < l < |ds| ==> ds[k].i < ds[l].i
    requires AllSurvived(ds, start, size)
    ensures n >= size
  {
    forall k | 0 <= k < size ensures k < n && ds[k].i <= start + k {
      AtMost(ds, start, size, k);
    }
    if size > 0 {
      assert size - 1 < n;
    }
  }

  lemma {:induction false} AtMost(ds: seq<Delivery>, start: int, size: nat, k: nat)
    requires k < size
    requires forall k, l :: 0 <= k < l < |ds| ==> ds[k].i < ds[l].i
    requires AllSurvived(ds, start, size)
    ensures k < |ds| && ds[k].i <= start + k
    ensures k < CountBelow(ds, start + size)
  {
    assert Survived(ds, start + k);
    var l :| 0 <= l < |ds| && ds[l].i == start + k;
    if k > 0 {
      AtMost(ds, start, size, k - 1);
    }
  }

  /** Survival of an index at or above a cut only depends on the deliveries above the cut. */
  lemma {:induction false} SurvivorsAbove(ds: seq<Delivery>, n: nat, start: int, messages: seq<seq<Fragment>>)
    requires n <= |ds| && forall k :: 0 <= k < n ==> ds[k].i < start
    ensures Survivors(ds, start, messages) == Survivors(ds[n..], start, messages)
    decreases |messages|
  {
    if messages != [] {
      forall i | start <= i ensures Survived(ds, i) <==> Survived(ds[n..], i) {
        if Survived(ds, i) {
          var k :| 0 <= k < |ds| && ds[k].i == i;
          assert ds[n..][k - n].i == i;
        }
        if Survived(ds[n..], i) {
          var k :| 0 <= k < |ds[n..]| && ds[n..][k].i == i;
          assert ds[n + k].i == i;
        }
      }
      SurvivorsAbove(ds, n, start + |messages[0]|, messages[1..]);
    }
  }

  /**
   Reassembly inverts fragmentation under loss: of any list of fragmented messages numbered consecutively, any
   in-order subsequence of the packets yields exactly the messages whose every fragment survived.
   */
  lemma {:induction false} ReassemblyExactFrom(
    s: Partial, j: int, ds: seq<Delivery>, start: int, messages: seq<seq<Fragment>>)
    requires forall m :: 0 <= m < |messages| ==> |messages[m]| > 0 && Positioned(messages[m])
    requires Subsequence(ds, start, Flatten(messages)) && SmallGaps(ds)
    requires Stale(s, j, start, ds)
    ensures Feed(s, ds).1 == Survivors(ds, start, messages)
    decreases |messages|
  {
    if messages == [] {
      IncreasingBound(ds, start, []);
    } else {
      var n, j' := FeedHead(s, j, ds, start, messages);
      ReassemblyExactFrom(Feed(s, ds[..n]).0, j', ds[n..], start + |messages[0]|, messages[1..]);
      Glue(s, ds, start, messages, n);
    }
  }

  lemma Glue(s: Partial, ds: seq<Delivery>, start: int, messages: seq<seq<Fragment>>, n: nat)
    requires n <= |ds| && messages != []
    requires
      var rest := Survivors(ds[n..], start + |messages[0]|, messages[1..]);
      && Feed(Feed(s, ds[..n]).0, ds[n..]).1 == rest
      && Survivors(ds, start, messages) == Feed(s, ds[..n]).1 + rest
    ensures Feed(s, ds).1 == Survivors(ds, start, messages)
  {
    assert ds == ds[..n] + ds[n..];
    FeedConcat(s, ds[..n], ds[n..]);
  }

  lemma SurvivorsHead(ds: seq<Delivery>, start: int, messages: seq<seq<Fragment>>, n: nat)
    requires messages != [] && Subsequence(ds, start, messages[0] + Flatten(messages[1..]))
    requires n == CountBelow(ds, start + |messages[0]|)
    ensures Survivors(ds, start, messages) ==
            (if n == |messages[0]| then [Concat(Payloads(messages[0]))] else [])
            + Survivors(ds[n..], start + |messages[0]|, messages[1..])
  {
    WholeIffCount(ds, start, messages[0], Flatten(messages[1..]), n);
    SurvivorsAbove(ds, n, start + |messages[0]|, messages[1..]);
  }

  /** The part of the run inside the first message outputs that message or nothing and leaves a stale state. */
  lemma FeedHead(s: Partial, j: int, ds: seq<Delivery>, start: int, messages: seq<seq<Fragment>>) returns (n: nat, j': int)
    requires messages != [] && |messages[0]| > 0 && Positioned(messages[0])
    requires Subsequence(ds, start, Flatten(messages)) && SmallGaps(ds)
    requires Stale(s, j, start, ds)
    ensures n <= |ds|
    ensures Subsequence(ds[n..], start + |messages[0]|, Flatten(messages[1..])) && SmallGaps(ds[n..])
    ensures Stale(Feed(s, ds[..n]).0, j', start + |messages[0]|, ds[n..])
    ensures Survivors(ds, start, messages) ==
            Feed(s, ds[..n]).1 + Survivors(ds[n..], start + |messages[0]|, messages[1..])
  {
    var head, rest := messages[0], Flatten(messages[1..]);
    n := CountBelow(ds, start + |head|);
    SplitSubsequence(ds, start, head, rest, n);
    WholeIffCount(ds, start, head, rest, n);
    SurvivorsHead(ds, start, messages, n);
    SmallGapsSuffix(ds, n);
    j' := FeedPart(s, j, head, start, ds, n);
  }

  lemma SmallGapsSuffix(ds: seq<Delivery>, n: nat)
    requires n <= |ds| && SmallGaps(ds)
    ensures SmallGaps(ds[n..])
  {
    forall k, l | 0 <= k < l == k + 1 < |ds[n..]| ensures ds[n..][l].i - ds[n..][k].i <= COUNT {
      assert ds[n..][l] == ds[n + l] && ds[n..][k] == ds[n + k];
    }
  }

  lemma FeedPart(s: Partial, j: int, head: seq<Fragment>, start: int, ds: seq<Delivery>, n: nat) returns (j': int)
    requires n <= |ds| && n <= |head| && |head| > 0 && Positioned(head)
    requires Subsequence(ds[..n], start, head) && SmallGaps(ds)
    requires n < |ds| ==> ds[n].i >= start + |head|
    requires Stale(s, j, start, ds)
    ensures Feed(s, ds[..n]).1 == if n == |head| then [Concat(Payloads(head))] else []
    ensures Stale(Feed(s, ds[..n]).0, j', start + |head|, ds[n..])
  {
    if n == 0 {
      j' := j;
      assert ds[..n] == [] && ds[n..] == ds;
    } else {
      j' := ds[n - 1].i;
      FeedMessage(s, j, head, start, ds[..n]);
      StaleAfter(head, start, ds, n);
    }
  }

  /** After the fragments of one message nothing of the next can continue it. */
  lemma StaleAfter(head: seq<Fragment>, start: int, ds: seq<Delivery>, n: nat)
    requires 0 < n <= |ds| && n <= |head| && Subsequence(ds[..n], start, head) && SmallGaps(ds)
    requires n < |ds| ==> ds[n].i >= start + |head|
    ensures Stale(AfterMessage(head, start, ds[..n]).0, ds[n - 1].i, start + |head|, ds[n..])
    ensures AfterMessage(head, start, ds[..n]).1 == if n == |head| then [Concat(Payloads(head))] else []
  {
    IntactLast(ds[..n], start, head);
    assert ds[..n][n - 1] == ds[n - 1] && Carries(ds[..n][n - 1], start, head);
  }

  /** As many in-order fragments as the message has are all of them. */
  lemma IntactLast(ds: seq<Delivery>, start: int, fragments: seq<Fragment>)
    requires Subsequence(ds, start, fragments) && 0 < |ds| <= |fragments|
    ensures |ds| == |fragments| ==> Intact(ds, start)
    ensures Intact(ds, start) ==> ds[|ds| - 1].i == start + |ds| - 1
  {
    IncreasingBound(ds, start, fragments);
  }

  /** As `ReassemblyExactFrom`, from a fresh reassembler and in terms of the messages themselves. */
  lemma ReassemblyExact(payloads: seq<Bytes>, max: nat, messages: seq<seq<Fragment>>, ds: seq<Delivery>, start: int)
    requires |messages| == |payloads|
    requires forall m :: 0 <= m < |messages| ==> IsFragmentation(payloads[m], max, messages[m])
    requires Subsequence(ds, start, Flatten(messages)) && SmallGaps(ds)
    ensures Feed(EMPTY, ds).1 == Survivors(ds, start, messages)
    ensures AllSurvived(ds, start, |Flatten(messages)|) ==> Feed(EMPTY, ds).1 == payloads
  {
    ReassemblyExactFrom(EMPTY, start, ds, start, messages);
    if AllSurvived(ds, start, |Flatten(messages)|) {
      AllSurvive(payloads, max, messages, ds, start);
    }
  }

  lemma {:induction false} AllSurvive(payloads: seq<Bytes>, max: nat, messages: seq<seq<Fragment>>, ds: seq<Delivery>, start: int)
    requires |messages| == |payloads|
    requires forall m :: 0 <= m < |messages| ==> IsFragmentation(payloads[m], max, messages[m])
    requires AllSurvived(ds, start, |Flatten(messages)|)
    ensures Survivors(ds, start, messages) == payloads
    decreases |messages|
  {
    if messages != [] {
      SurvivorsCons(ds, start, messages);
      SurvivedSplit(ds, start, |messages[0]|, |Flatten(messages[1..])|);
      AllSurvive(payloads[1..], max, messages[1..], ds, start + |messages[0]|);
      assert IsFragmentation(payloads[0], max, messages[0]);
    }
  }

  lemma SurvivorsCons(ds: seq<Delivery>, start: int, messages: seq<seq<Fragment>>)
    requires messages != []
    ensures var n := |messages[0]|;
            && |Flatten(messages)| == n + |Flatten(messages[1..])|
            && Survivors(ds, start, messages)
               == (if AllSurvived(ds, start, n) then [Concat(Payloads(messages[0]))] else []) + Survivors(ds, start + n, messages[1..])
  {
  }

  lemma SurvivedSplit(ds: seq<Delivery>, start: int, n: nat, more: nat)
    ensures AllSurvived(ds, start, n + more) <==> AllSurvived(ds, start, n) && AllSurvived(ds, start + n, more)
  {
    if AllSurvived(ds, start, n) && AllSurvived(ds, start + n, more) {
      forall i | start <= i < start + n + more ensures Survived(ds, i) {
        if i >= start + n {
          assert Survived(ds, i);
        }
      }
    }
  }
}
