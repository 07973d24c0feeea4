/**
 Row forward error correction (fec.rs): the XOR clip, the group encoder, recovery of one missing member, and the
 parity packet's wire form.
 */
module Fec {
  import opened Options

  /** The clipped fields of a data packet; also what a recovery yields. */
  datatype FecData = FecData(length: bv16, flags: bv8, timestamp: bv32, payload: seq<bv8>)

  datatype FecParity = FecParity(lengthClip: bv16, flagClip: bv8, timestampClip: bv32, payloadClip: seq<bv8>)

  function ByteAt(s: seq<bv8>, i: nat): bv8 {
    if i < |s| then s[i] else 0
  }

  /** The first `size` bytes, zero-padded. */
  function Resized(s: seq<bv8>, size: nat): (r: seq<bv8>)
    ensures |r| == size
  {
    seq(size, i requires 0 <= i < size => ByteAt(s, i))
  }

  function Zero(size: nat): FecParity {
    FecParity(0, 0, 0, Resized([], size))
  }

  /** One packet XOR-ed into a clip; bytes beyond the clip's size are not covered. */
  function Xored(p: FecParity, d: FecData): (r: FecParity)
    ensures |r.payloadClip| == |p.payloadClip|
  {
    FecParity(p.lengthClip ^ d.length, p.flagClip ^ d.flags, p.timestampClip ^ d.timestamp,
      XorBytes(p.payloadClip, d.payload))
  }

  function ClipAll(p: FecParity, ds: seq<FecData>): (r: FecParity)
    ensures |r.payloadClip| == |p.payloadClip|
  {
    if ds == [] then p else Xored(ClipAll(p, ds[..|ds| - 1]), ds[|ds| - 1])
  }

  /** The parity of a whole group. */
  function ParityOf(size: nat, ds: seq<FecData>): FecParity {
    ClipAll(Zero(size), ds)
  }

  function Min(a: nat, b: nat): nat {
    if a < b then a else b
  }

  /** What recovery computes: the parity with every present member XOR-ed out. */
  function RowRecovered(groupSize: nat, size: nat, parity: FecParity, present: seq<FecData>): Option<FecData> {
    if |present| != (if groupSize == 0 then 0 else groupSize - 1) then None
    else
      var c := ClipAll(parity.(payloadClip := Resized(parity.payloadClip, size)), present);
      Some(FecData(c.lengthClip, c.flagClip, c.timestampClip, c.payloadClip[..Min(c.lengthClip as nat, size)]))
  }

  function XorBytes(p: seq<bv8>, q: seq<bv8>): (r: seq<bv8>)
    ensures |r| == |p|
  {
    seq(|p|, i requires 0 <= i < |p| => p[i] ^ ByteAt(q, i))
  }

  /** XORs bytes into a buffer in place; bytes past the buffer's end are dropped. */
  method XorInto(buffer: array<bv8>, bytes: seq<bv8>)
    modifies buffer
    ensures buffer[..] == XorBytes(old(buffer[..]), bytes)
  {
    ghost var was := buffer[..];
    ghost var goal := XorBytes(was, bytes);
    var n := Min(buffer.Length, |bytes|);
    for i := 0 to n
      invariant forall j :: 0 <= j < i ==> buffer[j] == goal[j]
      invariant forall j :: i <= j < buffer.Length ==> buffer[j] == was[j]
    {
      buffer[i] := buffer[i] ^ bytes[i];
    }
    XorPastEnd(was, bytes);
    assert buffer[..] == goal;
  }

  lemma XorPastEnd(p: seq<bv8>, q: seq<bv8>)
    ensures forall j :: |q| <= j < |p| ==> XorBytes(p, q)[j] == p[j]
  {
    forall j | |q| <= j < |p|
      ensures XorBytes(p, q)[j] == p[j]
    {
      XorZero(p[j]);
    }
  }

  class Clip {
    var length: bv16
    var flags: bv8
    var timestamp: bv32
    const payload: array<bv8>

    ghost function View(): FecParity
      reads this, payload
    {
      FecParity(length, flags, timestamp, payload[..])
    }

    constructor (size: nat)
      ensures fresh(payload) && payload.Length == size && View() == Zero(size)
    {
      length, flags, timestamp := 0, 0, 0;
      payload := new bv8[size](_ => 0);
    }

    /** A clip that starts from a received parity, resized to the configured payload size. */
    constructor FromParity(parity: FecParity, size: nat)
      ensures fresh(payload) && View() == parity.(payloadClip := Resized(parity.payloadClip, size))
    {
      length, flags, timestamp := parity.lengthClip, parity.flagClip, parity.timestampClip;
      payload := new bv8[size](i requires 0 <= i => ByteAt(parity.payloadClip, i));
    }

    method Add(d: FecData)
      modifies this, payload
      ensures View() == Xored(old(View()), d)
    {
      length, flags, timestamp := length ^ d.length, flags ^ d.flags, timestamp ^ d.timestamp;
      XorInto(payload, d.payload);
    }

    method Reset()
      modifies this, payload
      ensures View() == Zero(payload.Length)
    {
      length, flags, timestamp := 0, 0, 0;
      for i := 0 to payload.Length
        invariant length == 0 && flags == 0 && timestamp == 0
        invariant forall j :: 0 <= j < i ==> payload[j] == 0
      {
        payload[i] := 0;
      }
      assert payload[..] == Zero(payload.Length).payloadClip;
    }
  }

  /** Everything fed is a number of whole groups and the one being collected. */
  ghost predicate Grouped(fed: seq<FecData>, group: seq<FecData>, groups: nat, n: nat) {
    |fed| == groups * n + |group| && |group| <= |fed| && fed[|fed| - |group|..] == group
  }

  lemma GroupedNext(fed: seq<FecData>, group: seq<FecData>, groups: nat, n: nat, d: FecData)
    requires Grouped(fed, group, groups, n)
    ensures Grouped(fed + [d], group + [d], groups, n)
    ensures |group| + 1 == n ==> Grouped(fed + [d], [], groups + 1, n) && |fed| + 1 == (groups + 1) * n
  {
    assert (fed + [d])[|fed| - |group|..] == group + [d];
    assert (groups + 1) * n == groups * n + n;
  }

  class FecEncoder {
    const groupSize: nat
    const clip: Clip
    var collected: nat
    ghost var group: seq<FecData>      // the members of the group being collected
    ghost var fed: seq<FecData>        // every packet clipped so far
    ghost var groups: nat              // how many groups were completed

    ghost predicate Valid()
      reads this, clip, clip.payload
    {
      && collected == |group| < groupSize && clip.View() == ParityOf(clip.payload.Length, group)
      && Grouped(fed, group, groups, groupSize)
    }

    constructor (groupSize: nat, size: nat)
      ensures Valid() && fresh(clip) && fresh(clip.payload) && fed == [] && groups == 0
      ensures this.groupSize == (if groupSize < 2 then 2 else groupSize) && clip.payload.Length == size
    {
      this.groupSize := if groupSize < 2 then 2 else groupSize;
      clip := new Clip(size);
      collected, group, fed, groups := 0, [], [], 0;
    }

    /**
     A parity comes out exactly when a whole number of groups has been fed, and is the XOR of the last group's members
     alone.
     */
    method Feed(d: FecData) returns (r: Option<FecParity>)
      requires Valid()
      modifies this, clip, clip.payload
      ensures Valid() && fed == old(fed) + [d]
      ensures r.Some? <==> collected == 0
      ensures r.Some? ==> groups == old(groups) + 1 && |fed| == groups * groupSize && groupSize <= |fed|
      ensures r.Some? ==> r.value == ParityOf(clip.payload.Length, fed[|fed| - groupSize..])
      ensures r.None? ==> groups == old(groups)
    {
      GroupedNext(fed, group, groups, groupSize, d);
      ghost var whole := group + [d];
      fed := fed + [d];
      r := FeedClip(d);
      if r.Some? {
        groups := groups + 1;
      }
      assert r.Some? ==> |whole| == groupSize && fed[|fed| - groupSize..] == whole;
    }

    /** The clip and the counter alone. */
    method FeedClip(d: FecData) returns (r: Option<FecParity>)
      requires collected == |group| < groupSize && clip.View() == ParityOf(clip.payload.Length, group)
      modifies this`collected, this`group, clip, clip.payload
      ensures collected == |group| < groupSize && clip.View() == ParityOf(clip.payload.Length, group)
      ensures |old(group)| + 1 < groupSize ==> r == None && group == old(group) + [d]
      ensures |old(group)| + 1 == groupSize ==> r == Some(ParityOf(clip.payload.Length, old(group) + [d])) && group == []
    {
      clip.Add(d);
      ghost var whole := group + [d];
      assert whole[..|whole| - 1] == group;
      collected := collected + 1;
      if collected == groupSize {
        r := Some(FecParity(clip.length, clip.flags, clip.timestamp, clip.payload[..]));
        clip.Reset();
        collected, group := 0, [];
      } else {
        r := None;
        group := whole;
      }
    }
  }

  /** Recovery by XOR-ing every present member out of the parity. */
  method RecoverRow(groupSize: nat, size: nat, parity: FecParity, present: seq<FecData>) returns (r: Option<FecData>)
    ensures r == RowRecovered(groupSize, size, parity, present)
  {
    if |present| != (if groupSize == 0 then 0 else groupSize - 1) {
      return None;
    }
    var clip := new Clip.FromParity(parity, size);
    ghost var from := clip.View();
    for i := 0 to |present|
      invariant clip.payload.Length == size && fresh(clip) && fresh(clip.payload)
      invariant clip.View() == ClipAll(from, present[..i])
    {
      clip.Add(present[i]);
      assert present[..i + 1][..i] == present[..i];
    }
    assert present[..|present|] == present;
    var n := Min(clip.length as nat, size);
    r := Some(FecData(clip.length, clip.flags, clip.timestamp, clip.payload[..n]));
  }

  // ---- XOR laws ----

  lemma XorZero(a: bv8)
    ensures a ^ 0 == a
  {
  }

  lemma XorTwice(p: FecParity, d: FecData)
    ensures Xored(Xored(p, d), d) == p
  {
    BytesTwice(p.payloadClip, d.payload);
  }

  lemma BytesTwice(p: seq<bv8>, q: seq<bv8>)
    ensures XorBytes(XorBytes(p, q), q) == p
  {
    forall i | 0 <= i < |p|
      ensures XorBytes(XorBytes(p, q), q)[i] == p[i]
    {
      assert (p[i] ^ ByteAt(q, i)) ^ ByteAt(q, i) == p[i];
    }
  }

  lemma XorSwap(p: FecParity, d: FecData, e: FecData)
    ensures Xored(Xored(p, d), e) == Xored(Xored(p, e), d)
  {
    BytesSwap(p.payloadClip, d.payload, e.payload);
  }

  lemma BytesSwap(p: seq<bv8>, q: seq<bv8>, r: seq<bv8>)
    ensures XorBytes(XorBytes(p, q), r) == XorBytes(XorBytes(p, r), q)
  {
    forall i | 0 <= i < |p|
      ensures XorBytes(XorBytes(p, q), r)[i] == XorBytes(XorBytes(p, r), q)[i]
    {
      assert (p[i] ^ ByteAt(q, i)) ^ ByteAt(r, i) == (p[i] ^ ByteAt(r, i)) ^ ByteAt(q, i);
    }
  }

  /** A member can be clipped first or last. */
  lemma {:induction false} ClipOutOfOrder(p: FecParity, d: FecData, ds: seq<FecData>)
    ensures ClipAll(Xored(p, d), ds) == Xored(ClipAll(p, ds), d)
  {
    if ds != [] {
      ClipOutOfOrder(p, d, ds[..|ds| - 1]);
      XorSwap(ClipAll(p, ds[..|ds| - 1]), d, ds[|ds| - 1]);
    }
  }

  lemma {:induction false} ClipAppend(p: FecParity, ds: seq<FecData>, es: seq<FecData>)
    ensures ClipAll(p, ds + es) == ClipAll(ClipAll(p, ds), es)
  {
    if es == [] {
      assert ds + es == ds;
    } else {
      assert (ds + es)[..|ds + es| - 1] == ds + es[..|es| - 1];
      ClipAppend(p, ds, es[..|es| - 1]);
    }
  }

  /** Clipping the same members twice restores the clip. */
  lemma {:induction false} ClipTwice(p: FecParity, ds: seq<FecData>)
    ensures ClipAll(ClipAll(p, ds), ds) == p
  {
    if ds != [] {
      var front, last := ds[..|ds| - 1], ds[|ds| - 1];
      ClipOutOfOrder(ClipAll(p, front), last, front);
      ClipTwice(p, front);
      XorTwice(p, last);
    }
  }

  /** XOR-ing all members but one out of the group's parity leaves that one. */
  lemma ResidueIsMissing(size: nat, before: seq<FecData>, missing: FecData, after: seq<FecData>)
    ensures ClipAll(ParityOf(size, before + [missing] + after), before + after) == Xored(Zero(size), missing)
  {
    var zero := Zero(size);
    var x := Xored(ClipAll(zero, before), missing);
    ClipAppend(zero, before + [missing], after);
    assert (before + [missing])[..|before|] == before;
    ClipOutOfOrder(ClipAll(zero, before), missing, after);
    ClipAppend(zero, before, after);
    assert ParityOf(size, before + [missing] + after) == Xored(ClipAll(zero, before + after), missing);
    ClipOutOfOrder(ClipAll(zero, before + after), missing, before + after);
    ClipTwice(zero, before + after);
  }

  /** What the sender clips: the payload's own length, and no more bytes than the clip covers. */
  ghost predicate Covered(size: nat, d: FecData) {
    d.length as nat == |d.payload| <= size
  }

  /**
   Recovery rebuilds the missing member of a group, wherever it stood, in all fields, exactly when the bytes kept by
   the clip, cut to the announced length, are the whole payload.
   */
  lemma RecoveryExact(size: nat, before: seq<FecData>, missing: FecData, after: seq<FecData>)
    ensures var group := before + [missing] + after;
            RowRecovered(|group|, size, ParityOf(size, group), before + after) == Some(missing)
            <==> Min(missing.length as nat, size) == |missing.payload|
  {
    var group := before + [missing] + after;
    var parity := ParityOf(size, group);
    assert Resized(parity.payloadClip, size) == parity.payloadClip;
    ResidueIsMissing(size, before, missing, after);
    XorIntoZero(size, missing);
    PrefixExact(missing.payload, size, Min(missing.length as nat, size));
  }

  lemma XorIntoZero(size: nat, d: FecData)
    ensures Xored(Zero(size), d) == FecParity(d.length, d.flags, d.timestamp, Resized(d.payload, size))
  {
    forall i | 0 <= i < size
      ensures XorBytes(Resized([], size), d.payload)[i] == ByteAt(d.payload, i)
    {
      assert 0 ^ ByteAt(d.payload, i) == ByteAt(d.payload, i);
    }
  }

  /** A padded payload cut to `n` bytes is the payload exactly when `n` is its length. */
  lemma PrefixExact(payload: seq<bv8>, size: nat, n: nat)
    requires n <= size
    ensures Resized(payload, size)[..n] == payload <==> n == |payload|
  {
    if n == |payload| {
      assert Resized(payload, size)[..n] == payload;
    }
  }

  // ---- Wire form ----

  const ROW_INDEX: bv8 := 0xFF
  const FEC_HEADER: nat := 4

  function EncodeParity(p: FecParity, index: bv8): seq<bv8> {
    [index, p.flagClip, (p.lengthClip >> 8) as bv8, (p.lengthClip & 0xFF) as bv8] + p.payloadClip
  }

  /** The index byte and the parity; the timestamp clip travels in the packet header. */
  function DecodeParity(payload: seq<bv8>, timestampClip: bv32): Option<(bv8, FecParity)> {
    if |payload| < FEC_HEADER then None
    else
      Some((payload[0],
            FecParity(((payload[2] as bv16) << 8) | (payload[3] as bv16), payload[1], timestampClip, payload[FEC_HEADER..])))
  }

  lemma ParityRoundTrip(p: FecParity, index: bv8)
    ensures DecodeParity(EncodeParity(p, index), p.timestampClip) == Some((index, p))
  {
    var bytes := EncodeParity(p, index);
    LengthRoundTrip(p.lengthClip);
    assert bytes[FEC_HEADER..] == p.payloadClip;
  }

  lemma LengthRoundTrip(n: bv16)
    ensures (((n >> 8) as bv8 as bv16) << 8) | ((n & 0xFF) as bv8 as bv16) == n
  {
  }
}
