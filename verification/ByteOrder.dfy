/** Big-endian numbers on the wire, shared by the codecs. */
module ByteOrder {
  import opened Packets

  /** The `n` low-order base-256 digits of `w`, most significant first. */
  function BigEndian(w: nat, n: nat): (r: Bytes)
    ensures |r| == n
  {
    if n == 0 then [] else BigEndian(w / 0x100, n - 1) + [w % 0x100]
  }

  function Value(b: Bytes): nat {
    if b == [] then 0
    else
      var last: int := b[|b| - 1];
      Value(b[..|b| - 1]) * 0x100 + last
  }

  function Pow256(n: nat): nat {
    if n == 0 then 1 else 0x100 * Pow256(n - 1)
  }

  lemma {:induction false} ValueBound(b: Bytes)
    ensures Value(b) < Pow256(|b|)
  {
    if b != [] {
      ValueBound(b[..|b| - 1]);
    }
  }

  lemma {:induction false} ValueOfBytes(w: nat, n: nat)
    requires w < Pow256(n)
    ensures Value(BigEndian(w, n)) == w
  {
    if n > 0 {
      ValueOfBytes(w / 0x100, n - 1);
      assert BigEndian(w, n)[..n - 1] == BigEndian(w / 0x100, n - 1);
    }
  }

  lemma {:induction false} BytesOfValue(b: Bytes)
    ensures BigEndian(Value(b), |b|) == b
  {
    if b != [] {
      BytesOfValue(b[..|b| - 1]);
    }
  }

  lemma Powers()
    ensures Pow256(2) == 0x1_0000 && Pow256(4) == 0x1_0000_0000
  {
    assert Pow256(1) == 0x100 && Pow256(3) == 0x100 * Pow256(2);
  }

  function U32Bytes(w: U32): (r: Bytes)
    ensures |r| == 4
  {
    BigEndian(w, 4)
  }

  function U32At(b: Bytes, k: nat): U32
    requires k + 4 <= |b|
  {
    ValueBound(b[k..k + 4]);
    Powers();
    Value(b[k..k + 4])
  }

  lemma U32Head(w: U32, tail: Bytes)
    ensures U32At(U32Bytes(w) + tail, 0) == w
  {
    Powers();
    ValueOfBytes(w, 4);
    assert (U32Bytes(w) + tail)[0..4] == U32Bytes(w);
  }

  /** Reading at an offset only looks at the bytes from there on. */
  lemma U32Shift(a: Bytes, b: Bytes, k: nat)
    requires k + 4 <= |b|
    ensures U32At(a + b, |a| + k) == U32At(b, k)
  {
    assert (a + b)[|a| + k..|a| + k + 4] == b[k..k + 4];
  }

  /** A sequence of words. */
  function WordsBytes(ws: seq<U32>): (r: Bytes)
    ensures |r| == 4 * |ws|
  {
    if ws == [] then [] else U32Bytes(ws[0]) + WordsBytes(ws[1..])
  }

  lemma {:induction false} WordAt(ws: seq<U32>, tail: Bytes, k: nat)
    requires k < |ws|
    ensures U32At(WordsBytes(ws) + tail, 4 * k) == ws[k]
  {
    var rest := WordsBytes(ws[1..]) + tail;
    assert WordsBytes(ws) + tail == U32Bytes(ws[0]) + rest;
    if k == 0 {
      U32Head(ws[0], rest);
    } else {
      U32Shift(U32Bytes(ws[0]), rest, 4 * (k - 1));
      WordAt(ws[1..], tail, k - 1);
    }
  }

  /** The words of a buffer re-encode to its bytes. */
  lemma {:induction false} WordsOfBytes(ws: seq<U32>, b: Bytes)
    requires |b| == 4 * |ws| && forall k :: 0 <= k < |ws| ==> ws[k] == U32At(b, 4 * k)
    ensures WordsBytes(ws) == b
  {
    if ws != [] {
      var rest := b[4..];
      forall k | 0 <= k < |ws[1..]| ensures ws[1..][k] == U32At(rest, 4 * k) {
        assert ws[1..][k] == ws[k + 1];
        assert b == b[..4] + rest;
        U32Shift(b[..4], rest, 4 * k);
      }
      WordsOfBytes(ws[1..], rest);
      BytesOfValue(b[0..4]);
      assert b == b[0..4] + rest;
    } else {
      assert b == [];
    }
  }

  /** Parts written one after another. */
  function Join(parts: seq<Bytes>): Bytes {
    if parts == [] then [] else parts[0] + Join(parts[1..])
  }

  lemma {:induction false} JoinSnoc(parts: seq<Bytes>, part: Bytes)
    ensures Join(parts + [part]) == Join(parts) + part
  {
    if parts == [] {
      assert [part][1..] == [];
      assert Join(parts + [part]) == part + [];
    } else {
      JoinSnoc(parts[1..], part);
      assert (parts + [part])[1..] == parts[1..] + [part];
      assert parts[0] + (Join(parts[1..]) + part) == parts[0] + Join(parts[1..]) + part;
    }
  }
}
