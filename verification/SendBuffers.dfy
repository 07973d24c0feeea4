/**
 The sender's retransmission buffer (send_buffer.rs): a deque of sent packets, contiguous by sequence number,
 looked up by circular offset from its front.
 */
module SendBuffers {
  import opened Options
  import opened SeqNumbers
  import opened Packets

  /** A monotonic clock reading in microseconds. */
  type Instant = nat

  datatype Sent = Sent(packet: DataPacket, lastRetransmit: Option<Instant>)

  /** Packet `k` of the deque carries the number of index `first + k`. */
  ghost predicate Contiguous(first: int, packets: seq<Sent>) {
    forall k :: 0 <= k < |packets| ==> packets[k].packet.number == Wire(first + k)
  }

  /** How many packets an acknowledgement up to (not including) index `a` releases. */
  function Released(first: int, count: nat, a: int): (n: nat)
    ensures n <= count
  {
    if a <= first then 0 else if a - first < count then a - first else count
  }

  lemma ContiguousDrop(first: int, packets: seq<Sent>, n: nat)
    requires Contiguous(first, packets) && n <= |packets|
    ensures Contiguous(first + n, packets[n..])
  {
    forall k | 0 <= k < |packets[n..]| ensures packets[n..][k].packet.number == Wire(first + n + k) {
      assert packets[n..][k] == packets[n + k];
    }
  }

  /** The circular comparison of packet `k` with an acknowledgement, as integers. */
  lemma AckCompare(first: int, k: nat, ack: SeqNumber)
    requires k <= HALF && (k == 0 || first + k <= ResolveBack(first, ack))
    ensures CircularCmp(Wire(first + k), ack) == Less <==> first + k < ResolveBack(first, ack)
  {
    var a := ResolveBack(first, ack);
    if k > 0 {
      OffsetOf(first + k, a);
    }
  }

  class SendBuffer {
    var packets: seq<Sent>
    /** The true index of the front packet (of the next packet when empty). */
    ghost var first: int

    ghost predicate Valid()
      reads this
    {
      |packets| <= HALF && Contiguous(first, packets)
    }

    constructor (ghost isn: int)
      ensures Valid() && packets == [] && first == isn
    {
      packets := [];
      first := isn;
    }

    /** Stores a freshly sent packet; the caller's flow window keeps fewer than 2^30 outstanding. */
    method Push(packet: DataPacket)
      requires Valid() && |packets| < HALF
      requires packet.number == Wire(first + |packets|)
      modifies this
      ensures Valid() && first == old(first)
      ensures packets == old(packets) + [Sent(packet, None)]
    {
      packets := packets + [Sent(packet, None)];
    }

    method DropFront()
      requires Valid() && packets != []
      modifies this
      ensures Valid() && first == old(first) + 1 && packets == old(packets)[1..]
    {
      ContiguousDrop(first, packets, 1);
      packets := packets[1..];
      first := first + 1;
    }

    /** Releases everything before the acknowledged point, and nothing when the point is stale. */
    method Ack(nextExpected: SeqNumber) returns (dropped: nat)
      requires Valid()
      modifies this
      ensures Valid()
      ensures dropped == Released(old(first), |old(packets)|, ResolveBack(old(first), nextExpected))
      ensures packets == old(packets)[dropped..] && first == old(first) + dropped
    {
      dropped := 0;
      ghost var start, a := first, ResolveBack(first, nextExpected);
      while packets != []
        invariant Valid()
        invariant dropped <= |old(packets)| && packets == old(packets)[dropped..] && first == start + dropped
        invariant dropped == 0 || start + dropped <= a
        decreases |packets|
      {
        AckCompare(start, dropped, nextExpected);
        assert packets[0].packet.number == Wire(first + 0);
        if CircularCmp(packets[0].packet.number, nextExpected) != Less {
          break;
        }
        DropFront();
        dropped := dropped + 1;
      }
    }

    /** Where a sequence number is stored: the index lookup is exact for every stored packet. */
    function IndexOf(number: SeqNumber): (r: Option<nat>)
      requires Valid()
      reads this
      ensures r.Some? <==> first <= Resolve(first, number) < first + |packets|
      ensures r.Some? ==> r.value == Resolve(first, number) - first && packets[r.value].packet.number == number
    {
      if packets == [] then None
      else
        assert packets[0].packet.number == Wire(first + 0);
        var i := OffsetFrom(number, packets[0].packet.number);
        if 0 <= i < |packets| then
          assert packets[i].packet.number == Wire(first + i);
          Some(i)
        else None
    }

    lemma FrontNumber()
      requires Valid() && packets != []
      ensures packets[0].packet.number == Wire(first)
    {
      assert packets[0].packet.number == Wire(first + 0);
    }

    lemma FoundAt(number: SeqNumber, k: nat)
      requires Valid() && k < |packets| && number == Wire(first + k)
      ensures IndexOf(number) == Some(k)
      ensures LastRetransmitted(number) == packets[k].lastRetransmit && Get(number) == Some(packets[k].packet)
    {
      ResolveExact(first, first + k);
    }

    function Get(number: SeqNumber): (r: Option<DataPacket>)
      requires Valid()
      reads this
      ensures r.Some? <==> exists k :: 0 <= k < |packets| && packets[k].packet.number == number
      ensures r.Some? ==> r.value.number == number && exists k :: 0 <= k < |packets| && packets[k].packet == r.value
    {
      LookupComplete(first, packets, number);
      var i := IndexOf(number);
      if i.None? then None else Some(packets[i.value].packet)
    }

    function LastRetransmitted(number: SeqNumber): Option<Instant>
      requires Valid()
      reads this
    {
      var i := IndexOf(number);
      if i.None? then None else packets[i.value].lastRetransmit
    }

    method MarkRetransmitted(number: SeqNumber, now: Instant)
      requires Valid()
      modifies this
      ensures Valid() && first == old(first) && |packets| == |old(packets)|
      ensures packets == Marked(old(first), old(packets), Resolve(old(first), number), now)
    {
      var i := IndexOf(number);
      if i.Some? {
        packets := packets[i.value := Sent(packets[i.value].packet, Some(now))];
      }
    }
  }

  /** The deque with the packet of index `i`, if stored, stamped as resent at `now`. */
  function Marked(first: int, packets: seq<Sent>, i: int, now: Instant): (r: seq<Sent>)
    ensures |r| == |packets|
  {
    if first <= i < first + |packets| then packets[i - first := Sent(packets[i - first].packet, Some(now))]
    else packets
  }

  lemma LookupComplete(first: int, packets: seq<Sent>, number: SeqNumber)
    requires Contiguous(first, packets) && |packets| <= HALF
    ensures forall k :: 0 <= k < |packets| && packets[k].packet.number == number ==> Resolve(first, number) == first + k
  {
    forall k | 0 <= k < |packets| && packets[k].packet.number == number
      ensures Resolve(first, number) == first + k
    {
      ResolveExact(first, first + k);
    }
  }
}
