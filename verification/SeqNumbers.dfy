/**
 31-bit circular sequence numbers (seq.rs), and what they mean.

 Every packet has a true index, an unbounded integer; the wire carries only the index modulo 2^31.
 `Resolve` recovers an index from its wire value and a reference index, and is exact as long as the two
 are within half the number space.
 */
module SeqNumbers {

  /** Number of distinct wire values. */
  const COUNT: int := 0x8000_0000
  /** Largest forward distance that still counts as "ahead". */
  const THRESHOLD: int := 0x3FFF_FFFF
  /** Half the number space. */
  const HALF: int := 0x4000_0000

  type SeqNumber = v: int | 0 <= v < COUNT

  datatype Ordering = Less | Equal | Greater

  function New(value: int): SeqNumber {
    value % COUNT
  }

  function Next(s: SeqNumber): SeqNumber {
    (s + 1) % COUNT
  }

  function Prev(s: SeqNumber): SeqNumber {
    (s - 1) % COUNT
  }

  function Add(s: SeqNumber, n: nat): SeqNumber {
    (s + n) % COUNT
  }

  /** Signed circular distance from `other` to `s`, in `[-2^30, 2^30)`. */
  function OffsetFrom(s: SeqNumber, other: SeqNumber): (r: int)
    ensures -HALF <= r < HALF
  {
    var forward := (s - other) % COUNT;
    if forward <= THRESHOLD then forward else forward - COUNT
  }

  function CircularCmp(s: SeqNumber, other: SeqNumber): Ordering {
    var d := OffsetFrom(s, other);
    if d > 0 then Greater else if d < 0 then Less else Equal
  }

  /** The wire value of a true index. */
  function Wire(i: int): SeqNumber {
    i % COUNT
  }

  /** The index with wire value `w` in `[reference - 2^30, reference + 2^30)`. */
  function Resolve(reference: int, w: SeqNumber): (i: int)
    ensures Wire(i) == w
    ensures reference - HALF <= i < reference + HALF
  {
    reference + OffsetFrom(w, Wire(reference))
  }

  /** The index with wire value `w` in `(reference - 2^30, reference + 2^30]`: what a comparison whose
      left operand is the reference decides. */
  function ResolveBack(reference: int, w: SeqNumber): (i: int)
    ensures Wire(i) == w
    ensures reference - HALF < i <= reference + HALF
  {
    reference - OffsetFrom(Wire(reference), w)
  }

  lemma WireInjective(i: int, j: int)
    requires Wire(i) == Wire(j)
    requires -COUNT < i - j < COUNT
    ensures i == j
  {
  }

  /** The circular distance is the plain difference exactly on the half-open half-space window. */
  lemma OffsetExact(i: int, j: int)
    ensures OffsetFrom(Wire(i), Wire(j)) == i - j <==> -HALF <= i - j < HALF
  {
    if -HALF <= i - j < HALF {
      var forward := (Wire(i) - Wire(j)) % COUNT;
      assert forward == (i - j) % COUNT;
    }
  }

  lemma OffsetOf(i: int, j: int)
    requires -HALF <= i - j < HALF
    ensures OffsetFrom(Wire(i), Wire(j)) == i - j
  {
    OffsetExact(i, j);
  }

  /** Circular order is integer order on indices less than half the space apart. */
  lemma CmpExact(i: int, j: int)
    requires -HALF < i - j < HALF
    ensures CircularCmp(Wire(i), Wire(j)) == (if i > j then Greater else if i < j then Less else Equal)
    ensures CircularCmp(Wire(j), Wire(i)) == (if j > i then Greater else if j < i then Less else Equal)
  {
    OffsetExact(i, j);
    OffsetExact(j, i);
  }

  /** At exactly half the space the order is not antisymmetric: each of the two is before the other. */
  lemma CmpAtHalf(i: int)
    ensures CircularCmp(Wire(i), Wire(i + HALF)) == Less
    ensures CircularCmp(Wire(i + HALF), Wire(i)) == Less
  {
    OffsetExact(i, i + HALF);
    assert (Wire(i + HALF) - Wire(i)) % COUNT == HALF;
  }

  lemma ResolveExact(reference: int, i: int)
    ensures Resolve(reference, Wire(i)) == i <==> reference - HALF <= i < reference + HALF
  {
    OffsetExact(i, reference);
  }

  lemma ResolveBackExact(reference: int, i: int)
    ensures ResolveBack(reference, Wire(i)) == i <==> reference - HALF < i <= reference + HALF
  {
    OffsetExact(reference, i);
  }

  lemma NewExact(i: int, n: nat)
    ensures New(Wire(i) - n) == Wire(i - n)
  {
  }

  // `next`, `prev` and `+` follow the integers at any index, across any number of wraps.

  lemma NextExact(i: int)
    ensures Next(Wire(i)) == Wire(i + 1)
  {
  }

  lemma PrevExact(i: int)
    ensures Prev(Wire(i)) == Wire(i - 1)
  {
  }

  lemma AddExact(i: int, n: nat)
    ensures Add(Wire(i), n) == Wire(i + n)
  {
  }
}
