/** The compressed loss list of a NAK (loss_list.rs; section 3.2.5 and Appendix A of draft-sharabayko-srt-01). */
module LossLists {
  import opened SeqNumbers
  import opened Packets
  import opened ByteOrder

  const RANGE_FLAG: U32 := 0x8000_0000

  datatype LossError = Misaligned(length: nat) | TruncatedRange
  datatype LossResult = Ok(ranges: seq<LossRange>) | Err(error: LossError)

  /** One word for a single loss, a flagged start word and an end word for a longer range. */
  function RangeBytes(r: LossRange): Bytes {
    if r.start == r.end then U32Bytes(r.start) else U32Bytes(r.start + RANGE_FLAG) + U32Bytes(r.end)
  }

  function Parts(ranges: seq<LossRange>): (r: seq<Bytes>)
    ensures |r| == |ranges|
  {
    seq(|ranges|, k requires 0 <= k < |ranges| => RangeBytes(ranges[k]))
  }

  function Encoded(ranges: seq<LossRange>): Bytes {
    Join(Parts(ranges))
  }

  method Encode(ranges: seq<LossRange>, buffer: Bytes) returns (out: Bytes)
    ensures out == buffer + Encoded(ranges)
  {
    out := buffer;
    for k := 0 to |ranges|
      invariant out == buffer + Encoded(ranges[..k])
    {
      var word := EncodeRange(ranges[k]);
      assert Parts(ranges[..k + 1]) == Parts(ranges[..k]) + [RangeBytes(ranges[k])];
      JoinSnoc(Parts(ranges[..k]), RangeBytes(ranges[k]));
      out := out + word;
    }
    assert ranges[..|ranges|] == ranges;
  }

  method EncodeRange(range: LossRange) returns (out: Bytes)
    ensures out == RangeBytes(range)
  {
    if range.start == range.end {
      out := U32Bytes(range.start);
    } else {
      out := U32Bytes(range.start + RANGE_FLAG);
      out := out + U32Bytes(range.end);
    }
  }

  function Prepend(ranges: seq<LossRange>, r: LossResult): LossResult {
    if r.Ok? then Ok(ranges + r.ranges) else r
  }

  /** The ranges in a word-aligned buffer. */
  function Words(buf: Bytes): (r: LossResult)
    requires |buf| % 4 == 0
  {
    if buf == [] then Ok([])
    else
      var word := U32At(buf, 0);
      if word < RANGE_FLAG then Prepend([LossRange(New(word), New(word))], Words(buf[4..]))
      else if |buf| < 8 then Err(TruncatedRange)
      else Prepend([LossRange(New(word), New(U32At(buf, 4)))], Words(buf[8..]))
  }

  function Decoded(buf: Bytes): LossResult {
    if |buf| % 4 != 0 then Err(Misaligned(|buf|)) else Words(buf)
  }

  method Decode(buf: Bytes) returns (r: LossResult)
    ensures r == Decoded(buf)
  {
    if |buf| % 4 != 0 {
      return Err(Misaligned(|buf|));
    }
    var cur := buf;
    var ranges: seq<LossRange> := [];
    while cur != []
      invariant |cur| % 4 == 0
      invariant Words(buf) == Prepend(ranges, Words(cur))
      decreases |cur|
    {
      var word := U32At(cur, 0);
      if word >= RANGE_FLAG {
        if |cur| < 8 {
          return Err(TruncatedRange);
        }
        var range := LossRange(New(word), New(U32At(cur, 4)));
        PrependPrepend(ranges, [range], Words(cur[8..]));
        ranges := ranges + [range];
        cur := cur[8..];
      } else {
        var range := LossRange(New(word), New(word));
        PrependPrepend(ranges, [range], Words(cur[4..]));
        ranges := ranges + [range];
        cur := cur[4..];
      }
    }
    assert ranges + [] == ranges;
    r := Ok(ranges);
  }

  lemma PrependPrepend(a: seq<LossRange>, b: seq<LossRange>, r: LossResult)
    ensures Prepend(a, Prepend(b, r)) == Prepend(a + b, r)
  {
    if r.Ok? {
      assert a + (b + r.ranges) == (a + b) + r.ranges;
    }
  }

  lemma SingleHead(a: Bytes, tail: Bytes, s: SeqNumber)
    requires |a| == 4 && |tail| % 4 == 0 && U32At(a + tail, 0) == s
    ensures |a + tail| % 4 == 0 && Words(a + tail) == Prepend([LossRange(s, s)], Words(tail))
  {
    assert (a + tail)[4..] == tail;
    FlagCleared(s);
  }

  lemma FlagCleared(s: SeqNumber)
    ensures New(s + RANGE_FLAG) == s && New(s) == s
  {
  }

  lemma PairHead(a: Bytes, b: Bytes, tail: Bytes, start: SeqNumber, end: SeqNumber)
    requires |a| == 4 && |b| == 4 && |tail| % 4 == 0
    requires U32At(a + b + tail, 0) == start + RANGE_FLAG && U32At(a + b + tail, 4) == end
    ensures |a + b + tail| % 4 == 0 && Words(a + b + tail) == Prepend([LossRange(start, end)], Words(tail))
  {
    assert (a + b + tail)[8..] == tail;
    FlagCleared(start);
    FlagCleared(end);
  }

  /** The two words at the front of a range. */
  lemma PairWords(v: U32, w: U32, tail: Bytes)
    ensures U32At(U32Bytes(v) + U32Bytes(w) + tail, 0) == v
    ensures U32At(U32Bytes(v) + U32Bytes(w) + tail, 4) == w
  {
    assert WordsBytes([v, w]) == U32Bytes(v) + U32Bytes(w) by {
      assert [v, w][1..] == [w] && [w][1..] == [];
      assert WordsBytes([w]) == U32Bytes(w) + [];
    }
    WordAt([v, w], tail, 0);
    WordAt([v, w], tail, 1);
  }

  /** Decoding one encoded range and going on with the rest. */
  lemma WordsHead(range: LossRange, tail: Bytes)
    requires |tail| % 4 == 0
    ensures |RangeBytes(range) + tail| % 4 == 0
    ensures Words(RangeBytes(range) + tail) == Prepend([range], Words(tail))
  {
    if range.start == range.end {
      U32Head(range.start, tail);
      SingleHead(U32Bytes(range.start), tail, range.start);
    } else {
      PairWords(range.start + RANGE_FLAG, range.end, tail);
      PairHead(U32Bytes(range.start + RANGE_FLAG), U32Bytes(range.end), tail, range.start, range.end);
    }
  }

  /** Every list of ranges survives the wire. */
  lemma {:induction false} RoundTrip(ranges: seq<LossRange>)
    ensures |Encoded(ranges)| % 4 == 0 && Words(Encoded(ranges)) == Ok(ranges)
    ensures Decoded(Encoded(ranges)) == Ok(ranges)
  {
    if ranges != [] {
      RoundTrip(ranges[1..]);
      RoundTripStep(ranges);
    }
  }

  lemma RoundTripStep(ranges: seq<LossRange>)
    requires ranges != []
    requires |Encoded(ranges[1..])| % 4 == 0 && Words(Encoded(ranges[1..])) == Ok(ranges[1..])
    ensures |Encoded(ranges)| % 4 == 0 && Words(Encoded(ranges)) == Ok(ranges)
  {
    var tail := Encoded(ranges[1..]);
    EncodedHead(ranges);
    WordsHead(ranges[0], tail);
    assert Prepend([ranges[0]], Ok(ranges[1..])) == Ok(ranges) by {
      assert [ranges[0]] + ranges[1..] == ranges;
    }
  }

  lemma EncodedHead(ranges: seq<LossRange>)
    requires ranges != []
    ensures Encoded(ranges) == RangeBytes(ranges[0]) + Encoded(ranges[1..])
  {
    assert Parts(ranges)[1..] == Parts(ranges[1..]);
  }

  /** Accepted bytes decode to a canonical value: re-encoding and decoding again changes nothing. */
  lemma Canonical(buf: Bytes)
    ensures Decoded(buf).Ok? ==> Decoded(Encoded(Decoded(buf).ranges)) == Decoded(buf)
  {
    if Decoded(buf).Ok? {
      RoundTrip(Decoded(buf).ranges);
    }
  }
}
