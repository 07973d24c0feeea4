/** The handshake control body and its extensions (handshake.rs; section 3.2.1 of draft-sharabayko-srt-01). */
module HandshakeCodec {
  import opened SeqNumbers
  import opened Packets
  import opened ByteOrder

  const BASE_LEN: nat := 48
  const EXT_HSREQ: U16 := 1
  const EXT_HSRSP: U16 := 2
  const EXT_SID: U16 := 5
  const SRT_HS_LEN: nat := 12

  /** Advertised encryption: the key length in bytes divided by eight. */
  datatype EncryptionField = NoEncryption | Aes128 | Aes192 | Aes256

  datatype SrtHandshake = SrtHandshake(version: U32, flags: U32, recvDelay: U16, sendDelay: U16)

  datatype Extension =
    | HsReq(srt: SrtHandshake)
    | HsRsp(srt: SrtHandshake)
    | StreamId(id: Bytes)
    | RawExt(extType: U16, content: Bytes)

  datatype Handshake = Handshake(
    version: U32,
    encryption: EncryptionField,
    extensionField: U16,
    initialSeq: SeqNumber,
    mtu: U32,
    flowWindow: U32,
    hsType: U32,
    socketId: U32,
    cookie: U32,
    peerIp: Bytes,
    extensions: seq<Extension>)

  datatype HsError =
    | TooShort(need: nat, got: nat)
    | InvalidEncryptionField(raw: U16)
    | ExtensionLength(extType: U16, claimed: nat, available: nat)
    | ExtensionContent(extType: U16, len: nat)
    | InvalidStreamId

  datatype Result<+T> = Ok(value: T) | Err(error: HsError)

  /** Two 16-bit fields written one after the other make one word. */
  function Pair(hi: U16, lo: U16): U32 {
    hi * 0x1_0000 + lo
  }

  function High(w: U32): U16 {
    w / 0x1_0000
  }

  function Low(w: U32): U16 {
    w % 0x1_0000
  }

  lemma PairFields(hi: U16, lo: U16)
    ensures High(Pair(hi, lo)) == hi && Low(Pair(hi, lo)) == lo
  {
  }

  function EncryptionRaw(e: EncryptionField): U16 {
    match e
    case NoEncryption => 0
    case Aes128 => 2
    case Aes192 => 3
    case Aes256 => 4
  }

  function EncryptionFrom(raw: U16): Result<EncryptionField> {
    if raw == 0 then Ok(NoEncryption)
    else if raw == 2 then Ok(Aes128)
    else if raw == 3 then Ok(Aes192)
    else if raw == 4 then Ok(Aes256)
    else Err(InvalidEncryptionField(raw))
  }

  // ---- Stream ID ----

  /** The bytes with each block of four reversed; an incomplete last block is dropped. */
  function Swapped(b: Bytes): (r: Bytes)
    ensures |r| == |b| / 4 * 4
  {
    if |b| < 4 then [] else [b[3], b[2], b[1], b[0]] + Swapped(b[4..])
  }

  function PaddedLen(n: nat): (r: nat)
    ensures r % 4 == 0 && n <= r < n + 4
  {
    (n + 3) / 4 * 4
  }

  function Padded(id: Bytes): (r: Bytes)
    ensures |r| == PaddedLen(|id|) && r[..|id|] == id
  {
    id + seq(PaddedLen(|id|) - |id|, _ => 0)
  }

  /** The bytes without trailing zeros. */
  function Trimmed(b: Bytes): (r: Bytes)
    ensures |r| <= |b|
  {
    if b == [] || b[|b| - 1] != 0 then b else Trimmed(b[..|b| - 1])
  }

  function StreamIdBytes(id: Bytes): Bytes {
    Swapped(Padded(id))
  }

  function StreamIdFrom(content: Bytes): Bytes {
    Trimmed(Swapped(content))
  }

  method EncodeStreamId(id: Bytes) returns (out: Bytes)
    ensures out == StreamIdBytes(id)
  {
    out := SwapBlocks(Padded(id));
  }

  /** Walks the complete blocks of four, writing each back to front. */
  method SwapBlocks(b: Bytes) returns (out: Bytes)
    ensures out == Swapped(b)
  {
    out := [];
    var k := 0;
    while k + 4 <= |b|
      invariant 0 <= k <= |b|
      invariant Swapped(b) == out + Swapped(b[k..])
    {
      assert b[k..][4..] == b[k + 4..];
      assert out + ([b[k + 3], b[k + 2], b[k + 1], b[k]] + Swapped(b[k + 4..]))
          == out + [b[k + 3], b[k + 2], b[k + 1], b[k]] + Swapped(b[k + 4..]);
      out := out + [b[k + 3], b[k + 2], b[k + 1], b[k]];
      k := k + 4;
    }
    assert out + [] == out;
  }

  method DecodeStreamId(content: Bytes, utf8: Bytes -> bool) returns (r: Result<Bytes>)
    ensures r == if utf8(StreamIdFrom(content)) then Ok(StreamIdFrom(content)) else Err(InvalidStreamId)
  {
    var bytes := SwapBlocks(content);
    ghost var all := bytes;
    while bytes != [] && bytes[|bytes| - 1] == 0
      invariant Trimmed(all) == Trimmed(bytes)
    {
      bytes := bytes[..|bytes| - 1];
    }
    r := if utf8(bytes) then Ok(bytes) else Err(InvalidStreamId);
  }

  lemma {:induction false} SwappedTwice(b: Bytes)
    requires |b| % 4 == 0
    ensures Swapped(Swapped(b)) == b
  {
    if b != [] {
      SwappedTwice(b[4..]);
      assert Swapped(b)[4..] == Swapped(b[4..]);
      assert [b[0], b[1], b[2], b[3]] + b[4..] == b;
    }
  }

  lemma {:induction false} TrimmedZeros(b: Bytes, n: nat)
    ensures Trimmed(b + seq(n, _ => 0)) == Trimmed(b)
  {
    var zeros: Bytes := seq(n, _ => 0);
    if n == 0 {
      assert b + zeros == b;
    } else {
      var fewer: Bytes := seq(n - 1, _ => 0);
      assert (b + zeros)[..|b + zeros| - 1] == b + fewer;
      TrimmedZeros(b, n - 1);
    }
  }

  /** A Stream ID survives the wire exactly when it does not end in a NUL. */
  lemma StreamIdRoundTrip(id: Bytes)
    ensures StreamIdFrom(StreamIdBytes(id)) == id <==> id == [] || id[|id| - 1] != 0
  {
    SwappedTwice(Padded(id));
    TrimmedZeros(id, PaddedLen(|id|) - |id|);
    TrimmedFixed(id);
  }

  lemma {:induction false} TrimmedFixed(b: Bytes)
    ensures Trimmed(b) == b <==> b == [] || b[|b| - 1] != 0
  {
    if b != [] && b[|b| - 1] == 0 {
      assert |Trimmed(b)| < |b|;
    }
  }

  // ---- Extensions ----

  function SrtBytes(h: SrtHandshake): (r: Bytes)
    ensures |r| == SRT_HS_LEN
  {
    WordsBytes([h.version, h.flags, Pair(h.recvDelay, h.sendDelay)])
  }

  function SrtFrom(b: Bytes): SrtHandshake
    requires |b| == SRT_HS_LEN
  {
    SrtHandshake(U32At(b, 0), U32At(b, 4), High(U32At(b, 8)), Low(U32At(b, 8)))
  }

  lemma SrtRoundTrip(h: SrtHandshake)
    ensures SrtFrom(SrtBytes(h)) == h
  {
    var ws := [h.version, h.flags, Pair(h.recvDelay, h.sendDelay)];
    assert WordsBytes(ws) + [] == WordsBytes(ws);
    WordAt(ws, [], 0);
    WordAt(ws, [], 1);
    WordAt(ws, [], 2);
    PairFields(h.recvDelay, h.sendDelay);
  }

  function ExtType(e: Extension): U16 {
    match e
    case HsReq(_) => EXT_HSREQ
    case HsRsp(_) => EXT_HSRSP
    case StreamId(_) => EXT_SID
    case RawExt(t, _) => t
  }

  function ExtContent(e: Extension): Bytes {
    match e
    case HsReq(srt) => SrtBytes(srt)
    case HsRsp(srt) => SrtBytes(srt)
    case StreamId(id) => StreamIdBytes(id)
    case RawExt(_, content) => content
  }

  /** The content fits the 16-bit word count of its header; the encoder panics otherwise. */
  predicate Fits(e: Extension) {
    |ExtContent(e)| / 4 < 0x1_0000
  }

  function ExtBytes(e: Extension): Bytes
    requires Fits(e)
  {
    U32Bytes(Pair(ExtType(e), |ExtContent(e)| / 4)) + ExtContent(e)
  }

  function ExtFrom(extType: U16, content: Bytes, utf8: Bytes -> bool): Result<Extension> {
    if (extType == EXT_HSREQ || extType == EXT_HSRSP) && |content| != SRT_HS_LEN then Err(ExtensionContent(extType, |content|))
    else if extType == EXT_HSREQ then Ok(HsReq(SrtFrom(content)))
    else if extType == EXT_HSRSP then Ok(HsRsp(SrtFrom(content)))
    else if extType == EXT_SID then
      if utf8(StreamIdFrom(content)) then Ok(StreamId(StreamIdFrom(content))) else Err(InvalidStreamId)
    else Ok(RawExt(extType, content))
  }

  ghost predicate GoodExtensions(es: seq<Extension>, utf8: Bytes -> bool) {
    forall k :: 0 <= k < |es| ==> GoodExtension(es[k], utf8) && Fits(es[k])
  }

  /** An extension the typed decoder gives back: padded raw content of another type, a Stream ID without trailing NUL. */
  ghost predicate GoodExtension(e: Extension, utf8: Bytes -> bool) {
    && Fits(e)
    && (e.StreamId? ==> utf8(e.id) && (e.id == [] || e.id[|e.id| - 1] != 0))
    && (e.RawExt? ==> e.extType != EXT_HSREQ && e.extType != EXT_HSRSP && e.extType != EXT_SID && |e.content| % 4 == 0)
  }

  lemma ExtRoundTrip(e: Extension, utf8: Bytes -> bool)
    requires GoodExtension(e, utf8)
    ensures ExtFrom(ExtType(e), ExtContent(e), utf8) == Ok(e)
    ensures |ExtContent(e)| % 4 == 0
  {
    match e
    case HsReq(srt) => SrtRoundTrip(srt);
    case HsRsp(srt) => SrtRoundTrip(srt);
    case StreamId(id) => StreamIdRoundTrip(id);
    case RawExt(_, _) =>
  }

  function ExtParts(es: seq<Extension>): seq<Bytes>
    requires forall k :: 0 <= k < |es| ==> Fits(es[k])
  {
    seq(|es|, k requires 0 <= k < |es| => ExtBytes(es[k]))
  }

  function ExtensionsBytes(es: seq<Extension>): Bytes
    requires forall k :: 0 <= k < |es| ==> Fits(es[k])
  {
    Join(ExtParts(es))
  }

  method EncodeExtensions(es: seq<Extension>, buffer: Bytes) returns (out: Bytes)
    requires forall k :: 0 <= k < |es| ==> Fits(es[k])
    ensures out == buffer + ExtensionsBytes(es)
  {
    out := buffer;
    for k := 0 to |es|
      invariant out == buffer + ExtensionsBytes(es[..k])
    {
      var part := EncodeExtension(es[k]);
      ExtensionsNext(es, k);
      out := out + part;
    }
    assert es[..|es|] == es;
  }

  lemma ExtensionsNext(es: seq<Extension>, k: nat)
    requires k < |es| && forall j :: 0 <= j < |es| ==> Fits(es[j])
    ensures ExtensionsBytes(es[..k + 1]) == ExtensionsBytes(es[..k]) + ExtBytes(es[k])
  {
    assert ExtParts(es[..k + 1]) == ExtParts(es[..k]) + [ExtBytes(es[k])];
    JoinSnoc(ExtParts(es[..k]), ExtBytes(es[k]));
  }

  method EncodeExtension(e: Extension) returns (out: Bytes)
    requires Fits(e)
    ensures out == ExtBytes(e)
  {
    var content := ExtContent(e);
    if e.StreamId? {
      content := EncodeStreamId(e.id);
    }
    out := U32Bytes(Pair(ExtType(e), |content| / 4));
    out := out + content;
  }

  function Prepend(es: seq<Extension>, r: Result<seq<Extension>>): Result<seq<Extension>> {
    if r.Ok? then Ok(es + r.value) else r
  }

  /** The extensions in a buffer; fewer than four trailing bytes are ignored. */
  function ExtensionsFrom(b: Bytes, utf8: Bytes -> bool): Result<seq<Extension>> {
    if |b| < 4 then Ok([])
    else
      var extType, len := High(U32At(b, 0)), Low(U32At(b, 0)) * 4;
      if |b| - 4 < len then Err(ExtensionLength(extType, len, |b| - 4))
      else
        var e := ExtFrom(extType, b[4..4 + len], utf8);
        if e.Err? then Err(e.error) else Prepend([e.value], ExtensionsFrom(b[4 + len..], utf8))
  }

  method DecodeExtensions(b: Bytes, utf8: Bytes -> bool) returns (r: Result<seq<Extension>>)
    ensures r == ExtensionsFrom(b, utf8)
  {
    var cur := b;
    var es: seq<Extension> := [];
    PrependNothing(ExtensionsFrom(b, utf8));
    while |cur| >= 4
      invariant ExtensionsFrom(b, utf8) == Prepend(es, ExtensionsFrom(cur, utf8))
      decreases |cur|
    {
      var extType, len := High(U32At(cur, 0)), Low(U32At(cur, 0)) * 4;
      if |cur| - 4 < len {
        return Err(ExtensionLength(extType, len, |cur| - 4));
      }
      var e := ExtFrom(extType, cur[4..4 + len], utf8);
      if e.Err? {
        return Err(e.error);
      }
      PrependPrepend(es, [e.value], ExtensionsFrom(cur[4 + len..], utf8));
      es := es + [e.value];
      cur := cur[4 + len..];
    }
    assert es + [] == es;
    r := Ok(es);
  }

  lemma PrependPrepend(a: seq<Extension>, b: seq<Extension>, r: Result<seq<Extension>>)
    ensures Prepend(a, Prepend(b, r)) == Prepend(a + b, r)
  {
    if r.Ok? {
      assert a + (b + r.value) == (a + b) + r.value;
    }
  }

  lemma PrependNothing(r: Result<seq<Extension>>)
    ensures Prepend([], r) == r
  {
    if r.Ok? {
      assert [] + r.value == r.value;
    }
  }

  /** Decoding the extension at the front of a buffer, given its header word. */
  lemma ExtensionHead(header: Bytes, content: Bytes, tail: Bytes, e: Extension, utf8: Bytes -> bool)
    requires |header| == 4 && |content| % 4 == 0 && |content| / 4 < 0x1_0000
    requires U32At(header + content + tail, 0) == Pair(ExtType(e), |content| / 4)
    requires ExtFrom(ExtType(e), content, utf8) == Ok(e)
    ensures ExtensionsFrom(header + content + tail, utf8) == Prepend([e], ExtensionsFrom(tail, utf8))
  {
    var b := header + content + tail;
    PairFields(ExtType(e), |content| / 4);
    assert b[4..4 + |content|] == content;
    assert b[4 + |content|..] == tail;
  }

  lemma {:induction false} ExtensionsRoundTrip(es: seq<Extension>, utf8: Bytes -> bool)
    requires GoodExtensions(es, utf8)
    ensures ExtensionsFrom(ExtensionsBytes(es), utf8) == Ok(es)
  {
    if es != [] {
      ExtensionsRoundTrip(es[1..], utf8);
      ExtensionsStep(es, utf8);
    }
  }

  lemma ExtensionsStep(es: seq<Extension>, utf8: Bytes -> bool)
    requires es != [] && GoodExtensions(es, utf8) && GoodExtensions(es[1..], utf8)
    requires ExtensionsFrom(ExtensionsBytes(es[1..]), utf8) == Ok(es[1..])
    ensures ExtensionsFrom(ExtensionsBytes(es), utf8) == Ok(es)
  {
    ExtensionsSplit(es);
    OneExtension(es[0], ExtensionsBytes(es[1..]), utf8);
    assert [es[0]] + es[1..] == es;
  }

  lemma ExtensionsSplit(es: seq<Extension>)
    requires es != [] && forall k :: 0 <= k < |es| ==> Fits(es[k])
    requires forall k :: 0 <= k < |es[1..]| ==> Fits(es[1..][k])
    ensures ExtensionsBytes(es) == ExtBytes(es[0]) + ExtensionsBytes(es[1..])
  {
    assert ExtParts(es)[1..] == ExtParts(es[1..]);
  }

  lemma OneExtension(e: Extension, tail: Bytes, utf8: Bytes -> bool)
    requires GoodExtension(e, utf8)
    ensures ExtensionsFrom(ExtBytes(e) + tail, utf8) == Prepend([e], ExtensionsFrom(tail, utf8))
  {
    var content := ExtContent(e);
    var header := U32Bytes(Pair(ExtType(e), |content| / 4));
    assert header + content + tail == header + (content + tail);
    U32Head(Pair(ExtType(e), |content| / 4), content + tail);
    ExtRoundTrip(e, utf8);
    ExtensionHead(header, content, tail, e, utf8);
  }

  // ---- The whole body ----

  ghost predicate GoodHandshake(h: Handshake, utf8: Bytes -> bool) {
    |h.peerIp| == 16 && GoodExtensions(h.extensions, utf8)
  }

  function BaseWords(h: Handshake): (r: seq<U32>)
    ensures |r| == 8
  {
    [h.version, Pair(EncryptionRaw(h.encryption), h.extensionField), h.initialSeq, h.mtu, h.flowWindow, h.hsType,
     h.socketId, h.cookie]
  }

  function HandshakeBytes(h: Handshake): Bytes
    requires |h.peerIp| == 16 && forall k :: 0 <= k < |h.extensions| ==> Fits(h.extensions[k])
  {
    WordsBytes(BaseWords(h)) + h.peerIp + ExtensionsBytes(h.extensions)
  }

  /** The body given its eight fixed words, the peer address and the extension bytes. */
  function FromWords(ws: seq<U32>, peerIp: Bytes, tail: Bytes, utf8: Bytes -> bool): Result<Handshake>
    requires |ws| == 8
  {
    var encryption := EncryptionFrom(High(ws[1]));
    if encryption.Err? then Err(encryption.error)
    else
      var extensions := ExtensionsFrom(tail, utf8);
      if extensions.Err? then Err(extensions.error)
      else Ok(Handshake(ws[0], encryption.value, Low(ws[1]), New(ws[2]), ws[3], ws[4], ws[5], ws[6], ws[7],
                        peerIp, extensions.value))
  }

  function WordsAt(b: Bytes, n: nat): (ws: seq<U32>)
    requires |b| >= 4 * n
    ensures |ws| == n
  {
    seq(n, k requires 0 <= k < n => U32At(b, 4 * k))
  }

  function HandshakeFrom(b: Bytes, utf8: Bytes -> bool): Result<Handshake> {
    if |b| < BASE_LEN then Err(TooShort(BASE_LEN, |b|))
    else FromWords(WordsAt(b, 8), b[32..BASE_LEN], b[BASE_LEN..], utf8)
  }

  lemma WordsAtBytes(ws: seq<U32>, tail: Bytes)
    ensures WordsAt(WordsBytes(ws) + tail, |ws|) == ws
  {
    forall k | 0 <= k < |ws| ensures U32At(WordsBytes(ws) + tail, 4 * k) == ws[k] {
      WordAt(ws, tail, k);
    }
  }

  lemma FromBaseWords(h: Handshake, tail: Bytes, utf8: Bytes -> bool)
    requires ExtensionsFrom(tail, utf8) == Ok(h.extensions)
    ensures FromWords(BaseWords(h), h.peerIp, tail, utf8) == Ok(h)
  {
    PairFields(EncryptionRaw(h.encryption), h.extensionField);
  }

  /** Decoding undoes encoding for every handshake, with any list of extensions. */
  lemma HandshakeRoundTrip(h: Handshake, utf8: Bytes -> bool)
    requires GoodHandshake(h, utf8)
    ensures HandshakeFrom(HandshakeBytes(h), utf8) == Ok(h)
  {
    var words, tail := WordsBytes(BaseWords(h)), ExtensionsBytes(h.extensions);
    ExtensionsRoundTrip(h.extensions, utf8);
    FromBaseWords(h, tail, utf8);
    WordsAtBytes(BaseWords(h), h.peerIp + tail);
    SplitBody(words, h.peerIp, tail);
  }

  lemma SplitBody(words: Bytes, peerIp: Bytes, tail: Bytes)
    requires |words| == 32 && |peerIp| == 16
    ensures words + peerIp + tail == words + (peerIp + tail)
    ensures (words + peerIp + tail)[32..BASE_LEN] == peerIp && (words + peerIp + tail)[BASE_LEN..] == tail
  {
  }
}
