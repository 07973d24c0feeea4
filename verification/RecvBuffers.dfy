/**
 The receiver's reassembly buffer (recv_buffer.rs): a deque of slots from a moving base, with a cached count of
 present slots. It is proved to be a map from true index to packet.
 */
module RecvBuffers {
  import opened Options
  import opened SeqNumbers
  import opened Timestamps
  import opened Packets

  type Slot = Option<DataPacket>

  /** What the buffer means: the next index the application expects and the packets held from there on. */
  datatype RecvView = RecvView(base: int, held: map<int, DataPacket>)

  ghost predicate WellFormed(v: RecvView) {
    forall i :: i in v.held ==> v.base <= i && v.held[i].number == Wire(i)
  }

  /** An inclusive range of true indices. */
  datatype Span = Span(lo: int, hi: int)

  // ---- Reference definitions over the view ----

  /** `i` is the earliest held packet. */
  ghost predicate IsFirst(v: RecvView, i: int) {
    i in v.held && forall j :: j in v.held ==> i <= j
  }

  /** `i` is the highest held packet. */
  ghost predicate IsHighest(v: RecvView, i: int) {
    i in v.held && forall j :: j in v.held ==> j <= i
  }

  /** `a` is the least absent index at or above the base. */
  ghost predicate IsAckPoint(v: RecvView, a: int) {
    v.base <= a && a !in v.held && forall i :: v.base <= i < a ==> i in v.held
  }

  ghost predicate Inserted(v: RecvView, i: int, p: DataPacket, stored: bool, v': RecvView) {
    && (stored <==> v.base <= i && i !in v.held)
    && v' == if stored then v.(held := v.held[i := p]) else v
  }

  /** The view after delivering its first packet `i`: everything before it is passed over. */
  ghost function Popped(v: RecvView, i: int): RecvView {
    RecvView(i + 1, v.held - {i})
  }

  /** The view after the sender announced it gave up `[first, last]`. */
  ghost function Dropped(v: RecvView, first: int, last: int): RecvView {
    if last < v.base || v.base < first then v
    else RecvView(last + 1, Above(v.held, last + 1))
  }

  ghost predicate Covers(spans: seq<Span>, i: int) {
    exists k :: 0 <= k < |spans| && spans[k].lo <= i <= spans[k].hi
  }

  /** Non-empty, ascending and separated by at least one index that is in no span. */
  ghost predicate Separated(spans: seq<Span>) {
    && (forall k :: 0 <= k < |spans| ==> spans[k].lo <= spans[k].hi)
    && (forall k, l :: 0 <= k < l < |spans| ==> spans[k].hi + 1 < spans[l].lo)
  }

  /** `spans` is the maximal-range list of exactly the absent indices from the base up to `limit`. */
  ghost predicate IsLossList(v: RecvView, limit: int, spans: seq<Span>) {
    && Separated(spans)
    && forall i {:trigger Covers(spans, i)} :: Covers(spans, i) <==> v.base <= i <= limit && i !in v.held
  }

  function WireRange(span: Span): LossRange {
    LossRange(Wire(span.lo), Wire(span.hi))
  }

  function WireRanges(spans: seq<Span>): (r: seq<LossRange>)
    ensures |r| == |spans|
    ensures forall k :: 0 <= k < |r| ==> r[k] == WireRange(spans[k])
  {
    seq(|spans|, k requires 0 <= k < |spans| => WireRange(spans[k]))
  }

  /** Ranges on the wire that name exactly the absent indices from the base up to `limit`. */
  ghost predicate Reports(ranges: seq<LossRange>, v: RecvView, limit: int) {
    exists spans :: IsLossList(v, limit, spans) && ranges == WireRanges(spans)
  }

  lemma WireSnoc(spans: seq<Span>, span: Span)
    ensures WireRanges(spans + [span]) == WireRanges(spans) + [WireRange(span)]
  {
  }

  // ---- Slots ----

  function Present(slots: seq<Slot>): (n: nat)
    ensures n <= |slots|
  {
    if slots == [] then 0
    else Present(slots[..|slots| - 1]) + if slots[|slots| - 1].Some? then 1 else 0
  }

  lemma {:induction false} PresentConcat(a: seq<Slot>, b: seq<Slot>)
    ensures Present(a + b) == Present(a) + Present(b)
  {
    if b == [] {
      assert a + b == a;
    } else {
      assert (a + b)[..|a + b| - 1] == a + b[..|b| - 1];
      PresentConcat(a, b[..|b| - 1]);
    }
  }

  lemma {:induction false} PresentNone(slots: seq<Slot>)
    requires forall k :: 0 <= k < |slots| ==> slots[k] == None
    ensures Present(slots) == 0
  {
    if slots != [] {
      PresentNone(slots[..|slots| - 1]);
    }
  }

  lemma {:induction false} PresentFull(slots: seq<Slot>)
    ensures Present(slots) == |slots| <==> forall k :: 0 <= k < |slots| ==> slots[k].Some?
  {
    if slots != [] {
      PresentFull(slots[..|slots| - 1]);
      assert forall k :: 0 <= k < |slots| - 1 ==> slots[k] == slots[..|slots| - 1][k];
    }
  }

  lemma PresentOne(slot: Slot)
    ensures Present([slot]) == if slot.Some? then 1 else 0
  {
    assert [slot][..0] == [];
  }

  lemma PresentSet(slots: seq<Slot>, k: nat, p: DataPacket)
    requires k < |slots| && slots[k] == None
    ensures Present(slots[k := Some(p)]) == Present(slots) + 1
  {
    assert slots == slots[..k] + ([None] + slots[k + 1..]);
    assert slots[k := Some(p)] == slots[..k] + ([Some(p)] + slots[k + 1..]);
    PresentConcat(slots[..k], [None] + slots[k + 1..]);
    PresentConcat(slots[..k], [Some(p)] + slots[k + 1..]);
    PresentConcat([None], slots[k + 1..]);
    PresentConcat([Some(p)], slots[k + 1..]);
    PresentOne(Some(p));
    PresentOne(None);
  }

  lemma PresentSplit(slots: seq<Slot>, k: nat)
    requires k <= |slots|
    ensures Present(slots) == Present(slots[..k]) + Present(slots[k..])
  {
    assert slots == slots[..k] + slots[k..];
    PresentConcat(slots[..k], slots[k..]);
  }

  /** Extends the deque with empty slots to at least `n`. */
  function Grow(slots: seq<Slot>, n: nat): (r: seq<Slot>)
    ensures |r| == if n <= |slots| then |slots| else n
    ensures r[..|slots|] == slots && forall k :: |slots| <= k < |r| ==> r[k].None?
    ensures Present(r) == Present(slots)
  {
    if n <= |slots| then slots
    else
      var fill := seq(n - |slots|, _ => None);
      PresentNone(fill);
      PresentConcat(slots, fill);
      slots + fill
  }

  /** The earliest present slot. */
  function FirstPresent(slots: seq<Slot>): (r: Option<nat>)
    ensures r.None? <==> forall k :: 0 <= k < |slots| ==> slots[k].None?
    ensures r.Some? ==> r.value < |slots| && slots[r.value].Some? && forall k :: 0 <= k < r.value ==> slots[k].None?
  {
    if slots == [] then None
    else if slots[0].Some? then Some(0)
    else match FirstPresent(slots[1..]) {
      case None => assert forall k :: 0 < k < |slots| ==> slots[k] == slots[1..][k - 1]; None
      case Some(n) => assert forall k :: 0 < k <= n ==> slots[k] == slots[1..][k - 1]; Some(n + 1)
    }
  }

  /** How many present slots lead the deque. */
  function Leading(slots: seq<Slot>): (n: nat)
    ensures n <= |slots|
    ensures forall k :: 0 <= k < n ==> slots[k].Some?
    ensures n < |slots| ==> slots[n].None?
  {
    if slots == [] || slots[0].None? then 0
    else
      var n := Leading(slots[1..]);
      assert forall k :: 0 < k < n + 1 ==> slots[k] == slots[1..][k - 1];
      n + 1
  }

  /** Slot of a true index. */
  ghost function At(index: int, slots: seq<Slot>, i: int): Slot {
    if index <= i < index + |slots| then slots[i - index] else None
  }

  /** The map a slot deque based at `index` stands for. */
  ghost function Contents(index: int, slots: seq<Slot>): (m: map<int, DataPacket>)
    ensures forall i :: i in m <==> At(index, slots, i).Some?
    ensures forall i :: i in m ==> m[i] == At(index, slots, i).value
  {
    map i {:trigger At(index, slots, i)} | index <= i < index + |slots| && At(index, slots, i).Some? :: At(index, slots, i).value
  }

  /** Every present slot carries the number of its own index. */
  ghost predicate Numbered(index: int, slots: seq<Slot>) {
    forall i :: At(index, slots, i).Some? ==> At(index, slots, i).value.number == Wire(i)
  }

  /** The representation invariant: storage ends at the highest packet received and the count is exact. */
  ghost predicate Consistent(index: int, slots: seq<Slot>, received: nat) {
    && |slots| <= HALF
    && received == Present(slots)
    && (slots != [] ==> slots[|slots| - 1].Some?)
    && Numbered(index, slots)
  }

  lemma SetSlot(index: int, slots: seq<Slot>, grown: seq<Slot>, k: nat, p: DataPacket)
    requires Numbered(index, slots) && p.number == Wire(index + k)
    requires |slots| <= |grown| && k < |grown| && grown[..|slots|] == slots
    requires forall j :: |slots| <= j < |grown| ==> grown[j].None?
    ensures Numbered(index, grown[k := Some(p)])
    ensures Contents(index, grown[k := Some(p)]) == Contents(index, slots)[index + k := p]
  {
    var done := grown[k := Some(p)];
    assert At(index, done, index + k) == Some(p);
    forall i | i != index + k ensures At(index, done, i) == At(index, slots, i) {
      if index <= i < index + |grown| {
        assert done[i - index] == grown[i - index];
      }
    }
  }

  lemma InsertSlot(index: int, slots: seq<Slot>, received: nat, k: nat, p: DataPacket)
    requires Consistent(index, slots, received)
    requires k < HALF && p.number == Wire(index + k)
    ensures Grow(slots, k + 1)[k].Some? <==> index + k in Contents(index, slots)
    ensures Grow(slots, k + 1)[k].None? ==>
              var done := Grow(slots, k + 1)[k := Some(p)];
              && Consistent(index, done, received + 1)
              && Contents(index, done) == Contents(index, slots)[index + k := p]
  {
    var grown := Grow(slots, k + 1);
    assert At(index, slots, index + k) == grown[k];
    if grown[k].None? {
      PresentSet(grown, k, p);
      SetSlot(index, slots, grown, k, p);
    }
  }

  /** Dropping a prefix of the deque keeps exactly the later part of the map. */
  lemma DropSlots(index: int, slots: seq<Slot>, received: nat, n: nat)
    requires Consistent(index, slots, received) && n <= |slots|
    ensures Consistent(index + n, slots[n..], Present(slots[n..]))
    ensures Contents(index + n, slots[n..]) == Above(Contents(index, slots), index + n)
    ensures received == Present(slots[..n]) + Present(slots[n..])
  {
    PresentSplit(slots, n);
    forall i ensures At(index + n, slots[n..], i) == if index + n <= i then At(index, slots, i) else None {
    }
  }

  /** The entries of a map at or above an index. */
  ghost function Above(m: map<int, DataPacket>, i: int): map<int, DataPacket> {
    map j | j in m && i <= j :: m[j]
  }

  lemma PopSlot(index: int, slots: seq<Slot>, received: nat, k: nat)
    requires Consistent(index, slots, received)
    requires k < |slots| && slots[k].Some? && forall j :: 0 <= j < k ==> slots[j].None?
    ensures IsFirst(RecvView(index, Contents(index, slots)), index + k)
    ensures Contents(index, slots)[index + k] == slots[k].value && slots[k].value.number == Wire(index + k)
    ensures received > 0 && Consistent(index + k + 1, slots[k + 1..], received - 1)
    ensures Contents(index + k + 1, slots[k + 1..]) == Contents(index, slots) - {index + k}
  {
    DropSlots(index, slots, received, k + 1);
    LeadingGap(slots, k);
    var m := Contents(index, slots);
    assert At(index, slots, index + k) == slots[k];
    forall i | i in m ensures index + k <= i {
      assert At(index, slots, i).Some?;
    }
    assert Above(m, index + k + 1) == m - {index + k};
  }

  lemma LeadingGap(slots: seq<Slot>, k: nat)
    requires k < |slots| && slots[k].Some? && forall j :: 0 <= j < k ==> slots[j].None?
    ensures Present(slots[..k + 1]) == 1
  {
    assert slots[..k + 1] == slots[..k] + [slots[k]];
    PresentConcat(slots[..k], [slots[k]]);
    PresentNone(slots[..k]);
    PresentOne(slots[k]);
  }

  lemma PopFront(slots: seq<Slot>)
    requires slots != []
    ensures Present(slots) == Present(slots[1..]) + if slots[0].Some? then 1 else 0
  {
    PresentSplit(slots, 1);
    PresentOne(slots[0]);
    assert slots[..1] == [slots[0]];
  }

  /** Moving the base past everything held leaves nothing. */
  lemma EmptySlots(index: int, slots: seq<Slot>, received: nat, base: int)
    requires Consistent(index, slots, received) && index + |slots| <= base
    ensures Consistent(base, [], 0)
    ensures Contents(base, []) == map[] == Above(Contents(index, slots), base)
  {
    assert forall i :: i in Contents(index, slots) ==> At(index, slots, i).Some?;
  }

  lemma EmptyMap(index: int, slots: seq<Slot>)
    ensures Contents(index, slots) == map[] <==> forall k :: 0 <= k < |slots| ==> slots[k].None?
  {
    if k :| 0 <= k < |slots| && slots[k].Some? {
      assert At(index, slots, index + k).Some?;
    }
  }

  /** The fields of a buffer stand for `v`. */
  ghost predicate Represents(v: RecvView, base: SeqNumber, slots: seq<Slot>, received: nat) {
    && base == Wire(v.base) && Consistent(v.base, slots, received)
    && v.held == Contents(v.base, slots)
  }

  lemma PopRepresents(v: RecvView, base: SeqNumber, slots: seq<Slot>, received: nat, k: nat)
    requires Represents(v, base, slots, received)
    requires k < |slots| && slots[k].Some? && forall j :: 0 <= j < k ==> slots[j].None?
    ensures IsFirst(v, v.base + k) && slots[k].value == v.held[v.base + k]
    ensures received > 0 && Represents(Popped(v, v.base + k), Next(slots[k].value.number), slots[k + 1..], received - 1)
  {
    PopSlot(v.base, slots, received, k);
    NextExact(v.base + k);
  }

  /** The number of slots a buffer with this view keeps. */
  ghost predicate IsStorage(v: RecvView, n: nat) {
    (v.held == map[] ==> n == 0) && forall h :: IsHighest(v, h) ==> n == h - v.base + 1
  }

  lemma DropRepresents(v: RecvView, base: SeqNumber, slots: seq<Slot>, received: nat, advance: nat)
    requires Represents(v, base, slots, received)
    ensures var rest := slots[if advance <= |slots| then advance else |slots|..];
            var to := v.base + advance;
            Represents(RecvView(to, Above(v.held, to)), Wire(to), rest, Present(rest))
  {
    var to := v.base + advance;
    if advance <= |slots| {
      DropSlots(v.base, slots, received, advance);
      assert Contents(to, slots[advance..]) == Above(v.held, to);
    } else {
      EmptySlots(v.base, slots, received, to);
      assert slots[|slots|..] == [];
    }
  }

  /** How far a drop range moves the base: not at all if it ends before the base or starts after it. */
  method AdvanceFor(base: SeqNumber, first: SeqNumber, last: SeqNumber, ghost index: int) returns (advance: nat)
    requires base == Wire(index)
    ensures advance == if Resolve(index, last) < index || index < Resolve(index, first) then 0
                       else Resolve(index, last) + 1 - index
    ensures advance > 0 ==> Next(last) == Wire(index + advance)
  {
    if CircularCmp(last, base) == Less || CircularCmp(first, base) == Greater {
      return 0;
    }
    NextExact(Resolve(index, last));
    advance := OffsetFrom(last, base) + 1;
  }

  class RecvBuffer {
    var base: SeqNumber
    var slots: seq<Slot>
    var received: nat
    /** What the buffer means; its base is the true index of `base`. */
    ghost var view: RecvView

    ghost predicate Valid()
      reads this
    {
      Represents(view, base, slots, received)
    }

    constructor (initial: SeqNumber, ghost isn: int)
      requires initial == Wire(isn)
      ensures Valid() && view == RecvView(isn, map[])
    {
      base, slots, received := initial, [], 0;
      view := RecvView(isn, map[]);
    }

    function AckPoint(): SeqNumber
      reads this
    {
      base
    }

    function Occupancy(): (n: nat)
      requires Valid()
      reads this
      ensures n == |view.held|
    {
      OccupancyIsHeld(view.base, slots);
      received
    }

    /** One past the contiguously received packets: the least absent index. */
    function ReceivedAckPoint(): (s: SeqNumber)
      requires Valid()
      reads this
      ensures exists a :: IsAckPoint(view, a) && s == Wire(a)
    {
      var n := Leading(slots);
      AddExact(view.base, n);
      assert IsAckPoint(view, view.base + n);
      Add(base, n)
    }

    /** The constant-time gap test decides whether the loss list would be non-empty. */
    predicate HasGaps()
      requires Valid()
      reads this
      ensures HasGaps() <==> exists i :: Missing(view, i)
    {
      PresentFull(slots);
      assert received != |slots| ==> exists i :: Missing(view, i) by {
        if received != |slots| {
          var k :| 0 <= k < |slots| && slots[k].None?;
          assert view.held.Keys != {} by { assert view.base + |slots| - 1 in view.held; }
          assert Missing(view, view.base + k) by { assert view.base + |slots| - 1 in view.held; }
        }
      }
      received != |slots|
    }

    method Insert(packet: DataPacket) returns (stored: bool)
      requires Valid()
      modifies this
      ensures Valid()
      ensures Inserted(old(view), Resolve(old(view).base, packet.number), packet, stored, view)
    {
      var offset := OffsetFrom(packet.number, base);
      stored := false;
      if offset >= 0 {
        InsertSlot(view.base, slots, received, offset, packet);
        var grown := Grow(slots, offset + 1);
        if grown[offset].None? {
          slots := grown[offset := Some(packet)];
          received := received + 1;
          view := view.(held := view.held[view.base + offset := packet]);
          stored := true;
        }
      }
    }

    /** The earliest held packet, skipping any leading gap. */
    function Peek(): (r: Option<(SeqNumber, Timestamp)>)
      requires Valid()
      reads this
      ensures r.None? <==> view.held == map[]
      ensures r.Some? ==> exists i :: IsFirst(view, i) && r.value == (Wire(i), view.held[i].timestamp)
    {
      EmptyMap(view.base, slots);
      var pos := FirstPresent(slots);
      if pos.None? then None
      else
        PopSlot(view.base, slots, received, pos.value);
        Some((slots[pos.value].value.number, slots[pos.value].value.timestamp))
    }

    /** Delivers the earliest held packet and passes over everything before it. */
    method Pop() returns (r: Option<DataPacket>)
      requires Valid()
      modifies this
      ensures Valid()
      ensures r.None? <==> old(view).held == map[]
      ensures r.None? ==> view == old(view)
      ensures r.Some? ==> IsFirst(old(view), view.base - 1) && r.value == old(view).held[view.base - 1]
      ensures r.Some? ==> view == Popped(old(view), view.base - 1)
    {
      var pos := FirstPresent(slots);
      if pos.None? {
        EmptyMap(view.base, slots);
        return None;
      }
      ghost var i := view.base + pos.value;
      PopRepresents(view, base, slots, received, pos.value);
      r := slots[pos.value];
      slots := slots[pos.value + 1..];
      base := Next(r.value.number);
      view := Popped(view, i);
      received := received - 1;
      assert view.base - 1 == i;
    }

    /** As `Pop`, but only when the packet sits at the base: a hole is never skipped. */
    method PopInOrder() returns (r: Option<DataPacket>)
      requires Valid()
      modifies this
      ensures Valid()
      ensures r.Some? <==> old(view).base in old(view).held
      ensures r.None? ==> view == old(view)
      ensures r.Some? ==> r.value == old(view).held[old(view).base] && view == Popped(old(view), old(view).base)
    {
      if slots != [] && slots[0].Some? {
        r := Pop();
      } else {
        r := None;
      }
    }

    /** Drops a range the sender gave up, if it reaches the base. */
    method DropRange(first: SeqNumber, last: SeqNumber)
      requires Valid()
      modifies this
      ensures Valid()
      ensures view == Dropped(old(view), Resolve(old(view).base, first), Resolve(old(view).base, last))
    {
      var advance := AdvanceFor(base, first, last, view.base);
      if advance == 0 {
        return;
      }
      DropRepresents(view, base, slots, received, advance);
      slots, received := PopSlots(slots, received, advance);
      base := Next(last);
      view := RecvView(view.base + advance, Above(view.held, view.base + advance));
    }

    /** The slots kept are those from the base up to the highest held packet, held or not. */
    lemma StorageExact()
      requires Valid()
      ensures IsStorage(view, |slots|)
    {
      EmptyMap(view.base, slots);
      if slots != [] {
        BackIsHighest(view.base, slots, received);
      }
    }

    /** Storage fits a window if and only if no held packet is that far past the base. */
    lemma StorageFits(window: nat)
      requires Valid()
      ensures |slots| <= window <==> forall i :: i in view.held ==> i < view.base + window
    {
      EmptyMap(view.base, slots);
      if slots != [] {
        BackIsHighest(view.base, slots, received);
        assert view.base + |slots| - 1 in view.held;
      }
    }

    /** The loss list: every absent index below the highest held packet, as maximal ascending ranges. */
    method MissingRanges() returns (ranges: seq<LossRange>, ghost spans: seq<Span>)
      requires Valid()
      ensures ranges == WireRanges(spans)
      ensures IsLossList(view, view.base + |slots| - 1, spans) && Reports(ranges, view, view.base + |slots| - 1)
      ensures |slots| > 0 ==> IsHighest(view, view.base + |slots| - 1)
      ensures |slots| == 0 <==> view.held == map[]
    {
      EmptyMap(view.base, slots);
      ranges, spans := WalkGaps(base, slots, view.base);
      if slots != [] {
        BackIsHighest(view.base, slots, received);
      }
    }

    /** The part of the loss list at least `tolerance` packets below the highest held packet. */
    method MissingAged(tolerance: nat) returns (ranges: seq<LossRange>, ghost spans: seq<Span>)
      requires Valid()
      ensures view.held == map[] ==> spans == [] && ranges == []
      ensures tolerance <= HALF ==> ranges == WireRanges(spans) && forall h :: IsHighest(view, h) ==>
                IsLossList(view, h - tolerance, spans) && Reports(ranges, view, h - tolerance)
    {
      ranges, spans := MissingRanges();
      EmptyLossList(view, view.base + |slots| - 1, spans);
      if tolerance == 0 || slots == [] {
        return;
      }
      ghost var h := view.base + |slots| - 1;
      var threshold := Threshold(base, |slots| - 1, tolerance, view.base);
      if tolerance <= HALF {
        AgedRanges(view, h, h - tolerance, spans);
      }
      ranges := TrimRanges(ranges, threshold);
      spans := TrimSpans(spans, h - tolerance);
    }
  }

  /** The newest number old enough to report. */
  method Threshold(base: SeqNumber, top: nat, tolerance: nat, ghost index: int) returns (threshold: SeqNumber)
    requires base == Wire(index)
    ensures threshold == Wire(index + top - tolerance)
  {
    AddExact(index, top);
    NewExact(index + top, tolerance);
    threshold := New(Add(base, top) - tolerance);
  }

  lemma AgedRanges(v: RecvView, top: int, limit: int, spans: seq<Span>)
    requires IsLossList(v, top, spans) && IsHighest(v, top)
    requires top - HALF < v.base && top - HALF <= limit <= top
    ensures TrimRanges(WireRanges(spans), Wire(limit)) == WireRanges(TrimSpans(spans, limit))
    ensures IsLossList(v, limit, TrimSpans(spans, limit))
    ensures Reports(TrimRanges(WireRanges(spans), Wire(limit)), v, limit)
    ensures forall h :: IsHighest(v, h) ==> h == top
  {
    TrimLossList(v, top, limit, spans);
  }

  /** Pops up to `n` slots off the front, keeping the count of present ones. */
  method PopSlots(all: seq<Slot>, count: nat, n: nat) returns (slots: seq<Slot>, received: nat)
    requires count == Present(all)
    ensures slots == all[if n <= |all| then n else |all|..] && received == Present(slots)
  {
    slots, received := all, count;
    var k := 0;
    while k < n && slots != []
      invariant k <= n && k <= |all| && slots == all[k..] && received == Present(slots)
    {
      PopFront(slots);
      if slots[0].Some? {
        received := received - 1;
      }
      slots := slots[1..];
      k := k + 1;
    }
  }

  /** Walks the slots with a running sequence number, closing a range at each present slot that ends a gap. */
  method WalkGaps(base: SeqNumber, slots: seq<Slot>, ghost index: int) returns (ranges: seq<LossRange>, ghost spans: seq<Span>)
    requires base == Wire(index)
    requires slots != [] ==> slots[|slots| - 1].Some?
    ensures ranges == WireRanges(spans)
    ensures IsLossList(RecvView(index, Contents(index, slots)), index + |slots| - 1, spans)
    ensures Reports(ranges, RecvView(index, Contents(index, slots)), index + |slots| - 1)
  {
    ranges, spans := [], [];
    var runStart: Option<SeqNumber> := None;
    ghost var edge := 0;
    var number := base;
    var k := 0;
    ghost var at, from := index, index;     // the indices of `k` and `edge`
    while k < |slots|
      invariant Scanned(index, slots, k, edge, spans) && at == index + k && from == index + edge
      invariant number == Wire(at)
      invariant runStart == if edge < k then Some(Wire(from)) else None
      invariant ranges == WireRanges(spans)
    {
      NextExact(at);
      if slots[k].None? {
        ScanHole(index, slots, k, edge, spans);
        if runStart.None? {
          runStart := Some(number);
        }
      } else {
        ScanHeld(index, slots, k, edge, spans);
        RunRange(spans, index, edge, k, from, at);
        if runStart.Some? {
          ranges := ranges + [LossRange(runStart.value, Prev(number))];
          runStart := None;
        }
        spans := WithRun(spans, index, edge, k);
        edge, from := k + 1, at + 1;
      }
      number := Next(number);
      k, at := k + 1, at + 1;
    }
    ScanDone(index, slots, edge, spans);
  }

  ghost predicate Missing(v: RecvView, i: int) {
    v.base <= i && i !in v.held && exists j :: j in v.held && i < j
  }

  lemma {:induction false} OccupancyIsHeld(index: int, slots: seq<Slot>)
    ensures |Contents(index, slots)| == Present(slots)
  {
    if slots == [] {
      assert Contents(index, slots) == map[];
    } else {
      var front := slots[..|slots| - 1];
      OccupancyIsHeld(index, front);
      var m, n := Contents(index, slots), Contents(index, front);
      if slots[|slots| - 1].Some? {
        assert m == n[index + |slots| - 1 := slots[|slots| - 1].value];
      } else {
        assert m == n;
      }
    }
  }

  lemma BackIsHighest(index: int, slots: seq<Slot>, received: nat)
    requires Consistent(index, slots, received) && slots != []
    ensures IsHighest(RecvView(index, Contents(index, slots)), index + |slots| - 1)
  {
    assert At(index, slots, index + |slots| - 1).Some?;
    assert forall i :: i in Contents(index, slots) ==> At(index, slots, i).Some?;
  }

  lemma EmptyLossList(v: RecvView, limit: int, spans: seq<Span>)
    requires IsLossList(v, limit, spans)
    ensures limit < v.base ==> spans == []
  {
    if spans != [] {
      assert Covers(spans, spans[0].lo);
    }
  }

  /**
   The state of the loss walk after `k` slots: the gaps below slot `edge` are listed and the slots from `edge`
   on are the open run of absent ones.
   */
  ghost predicate Scanned(index: int, slots: seq<Slot>, k: nat, edge: nat, spans: seq<Span>) {
    && edge <= k <= |slots|
    && (forall j :: edge <= j < k ==> slots[j].None?)
    && (spans != [] ==> spans[|spans| - 1].hi + 1 < index + edge)
    && IsLossList(RecvView(index, Contents(index, slots)), index + edge - 1, spans)
  }

  lemma ScanStep(index: int, slots: seq<Slot>, k: nat, edge: nat, spans: seq<Span>)
    requires k < |slots| && Scanned(index, slots, k, edge, spans)
    ensures slots[k].None? ==> Scanned(index, slots, k + 1, edge, spans)
    ensures slots[k].Some? && edge == k ==> Scanned(index, slots, k + 1, k + 1, spans)
    ensures slots[k].Some? && edge < k ==> Scanned(index, slots, k + 1, k + 1, spans + [Span(index + edge, index + k - 1)])
  {
    var v := RecvView(index, Contents(index, slots));
    assert At(index, slots, index + k) == slots[k];
    if slots[k].Some? && edge < k {
      forall i | index + edge <= i <= index + k - 1 ensures i !in v.held {
        assert At(index, slots, i).None?;
      }
      CloseRun(v, spans, Span(index + edge, index + k - 1), index + k);
    }
  }

  /** The spans after a held slot `k` that ends the run from `edge`, if there is one. */
  ghost function WithRun(spans: seq<Span>, index: int, edge: nat, k: nat): seq<Span> {
    if edge < k then spans + [Span(index + edge, index + k - 1)] else spans
  }

  /** The walk ends with no run open, since the last slot is held. */
  lemma ScanDone(index: int, slots: seq<Slot>, edge: nat, spans: seq<Span>)
    requires Scanned(index, slots, |slots|, edge, spans) && (slots != [] ==> slots[|slots| - 1].Some?)
    ensures IsLossList(RecvView(index, Contents(index, slots)), index + |slots| - 1, spans)
    ensures Reports(WireRanges(spans), RecvView(index, Contents(index, slots)), index + |slots| - 1)
  {
    assert edge == |slots|;
  }

  lemma ScanHole(index: int, slots: seq<Slot>, k: nat, edge: nat, spans: seq<Span>)
    requires k < |slots| && Scanned(index, slots, k, edge, spans) && slots[k].None?
    ensures Scanned(index, slots, k + 1, edge, spans)
  {
    ScanStep(index, slots, k, edge, spans);
  }

  lemma ScanHeld(index: int, slots: seq<Slot>, k: nat, edge: nat, spans: seq<Span>)
    requires k < |slots| && Scanned(index, slots, k, edge, spans) && slots[k].Some?
    ensures Scanned(index, slots, k + 1, k + 1, WithRun(spans, index, edge, k))
  {
    ScanStep(index, slots, k, edge, spans);
  }

  lemma RunRange(spans: seq<Span>, index: int, edge: nat, k: nat, from: int, at: int)
    requires from == index + edge && at == index + k && edge <= k
    ensures WireRanges(WithRun(spans, index, edge, k))
            == WireRanges(spans) + (if edge < k then [LossRange(Wire(from), Prev(Wire(at)))] else [])
  {
    if edge < k {
      PrevExact(at);
      WireSnoc(spans, Span(from, at - 1));
    }
  }

  /** Closing a run of absent indices with a held one keeps the list exact. */
  lemma CloseRun(v: RecvView, spans: seq<Span>, run: Span, top: int)
    requires v.base <= run.lo <= run.hi == top - 1
    requires IsLossList(v, run.lo - 1, spans)
    requires spans != [] ==> spans[|spans| - 1].hi + 1 < run.lo
    requires top in v.held && forall i :: run.lo <= i <= run.hi ==> i !in v.held
    ensures IsLossList(v, top, spans + [run])
  {
    forall i ensures Covers(spans + [run], i) <==> Covers(spans, i) || run.lo <= i <= run.hi {
      CoversSnoc(spans, run, i);
    }
  }

  lemma CoversSnoc(spans: seq<Span>, run: Span, i: int)
    ensures Covers(spans + [run], i) <==> Covers(spans, i) || run.lo <= i <= run.hi
  {
    var longer := spans + [run];
    assert longer[|spans|] == run;
    if Covers(spans, i) {
      var k :| 0 <= k < |spans| && spans[k].lo <= i <= spans[k].hi;
      assert longer[k] == spans[k];
    }
  }

  /** Drops the ranges above the threshold and trims the one that straddles it. */
  function TrimRanges(ranges: seq<LossRange>, threshold: SeqNumber): seq<LossRange> {
    if ranges == [] then []
    else if CircularCmp(ranges[0].start, threshold) == Greater then TrimRanges(ranges[1..], threshold)
    else
      var end := if CircularCmp(ranges[0].end, threshold) == Greater then threshold else ranges[0].end;
      [LossRange(ranges[0].start, end)] + TrimRanges(ranges[1..], threshold)
  }

  ghost function TrimSpans(spans: seq<Span>, limit: int): (r: seq<Span>)
    ensures |r| <= |spans|
  {
    if spans == [] then []
    else if spans[0].lo > limit then TrimSpans(spans[1..], limit)
    else [Span(spans[0].lo, if spans[0].hi > limit then limit else spans[0].hi)] + TrimSpans(spans[1..], limit)
  }

  /** On indices within half the space, trimming wire ranges is trimming index ranges. */
  lemma {:induction false} TrimExact(spans: seq<Span>, limit: int, top: int)
    requires top - HALF <= limit <= top
    requires forall k :: 0 <= k < |spans| ==> top - HALF < spans[k].lo <= spans[k].hi < top
    ensures TrimRanges(WireRanges(spans), Wire(limit)) == WireRanges(TrimSpans(spans, limit))
  {
    if spans != [] {
      TrimExact(spans[1..], limit, top);
      assert WireRanges(spans)[1..] == WireRanges(spans[1..]);
      CmpForTrim(spans[0].lo, limit);
      CmpForTrim(spans[0].hi, limit);
      if spans[0].lo <= limit {
        var s := Span(spans[0].lo, if spans[0].hi > limit then limit else spans[0].hi);
        assert WireRanges([s] + TrimSpans(spans[1..], limit)) == WireRanges([s]) + WireRanges(TrimSpans(spans[1..], limit));
      }
    }
  }

  lemma CmpForTrim(i: int, limit: int)
    requires -HALF <= i - limit < HALF
    ensures CircularCmp(Wire(i), Wire(limit)) == Greater <==> i > limit
  {
    OffsetOf(i, limit);
  }

  lemma {:induction false} TrimCovers(spans: seq<Span>, limit: int, i: int)
    requires forall k :: 0 <= k < |spans| ==> spans[k].lo <= spans[k].hi
    ensures Covers(TrimSpans(spans, limit), i) <==> Covers(spans, i) && i <= limit
  {
    if spans != [] {
      TrimCovers(spans[1..], limit, i);
      CoversCons(spans, i);
      if spans[0].lo <= limit {
        CoversCons(TrimSpans(spans, limit), i);
        assert TrimSpans(spans, limit)[1..] == TrimSpans(spans[1..], limit);
      }
    }
  }

  lemma CoversCons(spans: seq<Span>, i: int)
    requires spans != []
    ensures Covers(spans, i) <==> spans[0].lo <= i <= spans[0].hi || Covers(spans[1..], i)
  {
    if Covers(spans[1..], i) {
      var k :| 0 <= k < |spans[1..]| && spans[1..][k].lo <= i <= spans[1..][k].hi;
      assert spans[k + 1].lo <= i <= spans[k + 1].hi;
    }
    if Covers(spans, i) && !(spans[0].lo <= i <= spans[0].hi) {
      var k :| 0 <= k < |spans| && spans[k].lo <= i <= spans[k].hi;
      assert spans[1..][k - 1].lo <= i <= spans[1..][k - 1].hi;
    }
  }

  lemma {:induction false} TrimSeparated(spans: seq<Span>, limit: int)
    requires Separated(spans)
    ensures Separated(TrimSpans(spans, limit))
    ensures forall k :: 0 <= k < |TrimSpans(spans, limit)| ==> spans != [] && spans[0].lo <= TrimSpans(spans, limit)[k].lo
  {
    if spans != [] {
      var rest := TrimSpans(spans[1..], limit);
      TrimSeparated(spans[1..], limit);
      if spans[0].lo <= limit {
        var head := TrimSpans(spans, limit)[0];
        assert TrimSpans(spans, limit) == [head] + rest;
        SeparatedCons(head, rest);
      }
    }
  }

  lemma SeparatedCons(head: Span, rest: seq<Span>)
    requires head.lo <= head.hi && Separated(rest)
    requires forall k :: 0 <= k < |rest| ==> head.hi + 1 < rest[k].lo
    ensures Separated([head] + rest)
  {
  }

  /** Trimming a loss list at a threshold, on the wire, reports exactly the gaps at or below the threshold. */
  lemma TrimLossList(v: RecvView, top: int, limit: int, spans: seq<Span>)
    requires IsLossList(v, top, spans) && top in v.held
    requires top - HALF < v.base && top - HALF <= limit <= top
    ensures IsLossList(v, limit, TrimSpans(spans, limit))
    ensures TrimRanges(WireRanges(spans), Wire(limit)) == WireRanges(TrimSpans(spans, limit))
  {
    TrimSeparated(spans, limit);
    forall i ensures Covers(TrimSpans(spans, limit), i) <==> v.base <= i <= limit && i !in v.held {
      TrimCovers(spans, limit, i);
    }
    forall k | 0 <= k < |spans| ensures v.base <= spans[k].lo && spans[k].hi < top {
      assert Covers(spans, spans[k].lo) && Covers(spans, spans[k].hi);
    }
    TrimExact(spans, limit, top);
  }

  /** The constant-time gap test and the loss list agree: one is true exactly when the other is non-empty. */
  lemma GapsIffLossList(v: RecvView, h: int, spans: seq<Span>)
    requires IsHighest(v, h) && IsLossList(v, h, spans)
    ensures spans != [] <==> exists i :: Missing(v, i)
  {
    if spans != [] {
      assert Covers(spans, spans[0].lo);
      assert Missing(v, spans[0].lo);
    }
    if i :| Missing(v, i) {
      assert Covers(spans, i);
    }
  }

  // ---- Whole runs of buffer operations ----

  /** One insert, pop or range drop. */
  ghost predicate BufferStep(v: RecvView, v': RecvView) {
    || (exists i, p, stored :: Inserted(v, i, p, stored, v'))
    || (exists i :: IsFirst(v, i) && v' == Popped(v, i))
    || (exists first, last :: v' == Dropped(v, first, last))
  }

  /** Index `i` is held or already passed. */
  ghost predicate Covered(v: RecvView, i: int) {
    i < v.base || i in v.held
  }

  lemma StepCovers(v: RecvView, v': RecvView)
    requires WellFormed(v) && BufferStep(v, v')
    ensures v.base <= v'.base
    ensures forall i :: Covered(v, i) ==> Covered(v', i)
  {
  }

  /**
   Over any run of operations neither the delivery base nor the acknowledgement point moves back, and what was
   once received or passed stays so.
   */
  lemma {:induction false} NeverRetreats(run: seq<RecvView>, a: int, b: int)
    requires |run| > 0
    requires forall k :: 0 <= k < |run| - 1 ==> BufferStep(run[k], run[k + 1])
    requires forall k :: 0 <= k < |run| ==> WellFormed(run[k])
    requires IsAckPoint(run[0], a) && IsAckPoint(run[|run| - 1], b)
    ensures run[0].base <= run[|run| - 1].base && a <= b
    ensures forall i :: Covered(run[0], i) ==> Covered(run[|run| - 1], i)
  {
    CoveredStays(run);
    var start := run[0];
    assert b < a ==> Covered(start, b);
  }

  lemma {:induction false} CoveredStays(run: seq<RecvView>)
    requires |run| > 0
    requires forall k :: 0 <= k < |run| - 1 ==> BufferStep(run[k], run[k + 1])
    requires forall k :: 0 <= k < |run| ==> WellFormed(run[k])
    ensures run[0].base <= run[|run| - 1].base
    ensures forall i :: Covered(run[0], i) ==> Covered(run[|run| - 1], i)
  {
    if |run| > 1 {
      var front := run[..|run| - 1];
      CoveredStays(front);
      StepCovers(run[|run| - 2], run[|run| - 1]);
    }
  }
}
