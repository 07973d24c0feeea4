/**
 The packet wire format (packet.rs) and the typed control bodies (control.rs); section 3 of
 draft-sharabayko-srt-01.
 */
module PacketCodec {
  import opened SeqNumbers
  import opened Timestamps
  import opened Packets
  import opened ByteOrder
  import LL = LossLists
  import HS = HandshakeCodec

  const HEADER_LEN: nat := 16
  const FLAG_CONTROL: U32 := 0x8000_0000

  datatype ControlType =
    | HandshakeType | KeepaliveType | AckType | NakType | CongestionType | ShutdownType | AckAckType | DropReqType
    | PeerErrorType | UserDefinedType

  datatype AckCif =
    | Light
    | Small(rtt: U32, rttVariance: U32, avail: U32)
    | Full(rtt: U32, rttVariance: U32, avail: U32, recvRate: U32, capacity: U32, byteRate: U32)

  datatype ControlBody =
    | Keepalive
    | Shutdown
    | CongestionWarning
    | AckAck(ackNumber: U32)
    | DropReq(message: U32, first: SeqNumber, last: SeqNumber)
    | PeerError(code: U32)
    | Ack(ackNumber: U32, lastAck: SeqNumber, cif: AckCif)
    | Nak(loss: seq<LossRange>)
    | HandshakeBody(hs: HS.Handshake)
    | Raw(controlType: ControlType, subtype: U16, typeSpecific: U32, bytes: Bytes)

  datatype Packet =
    | DataOf(data: DataPacket)
    | ControlOf(timestamp: Timestamp, dest: U32, body: ControlBody)

  datatype PacketError =
    | TooShort(need: nat, got: nat)
    | InvalidKeyFlag(bits: nat)
    | UnknownType(raw: nat)
    | InvalidCifLength(len: nat)
    | BadLossList(loss: LL.LossError)
    | BadHandshake(handshake: HS.HsError)

  datatype Result<+T> = Ok(value: T) | Err(error: PacketError)

  // ---- The data header word ----

  function PositionBits(p: Position): nat {
    match p
    case First => 2
    case Middle => 0
    case Last => 1
    case Single => 3
  }

  function PositionFrom(bits: nat): Position {
    if bits == 2 then First else if bits == 1 then Last else if bits == 3 then Single else Middle
  }

  function KeyBits(e: Encryption): nat {
    match e
    case Clear => 0
    case Even => 1
    case Odd => 2
  }

  function KeyFrom(bits: nat): Result<Encryption> {
    if bits == 0 then Ok(Clear) else if bits == 1 then Ok(Even) else if bits == 2 then Ok(Odd) else Err(InvalidKeyFlag(bits))
  }

  function Bit(b: bool): nat {
    if b then 1 else 0
  }

  /** The fields of a data packet's second header word. */
  datatype Flags = Flags(position: Position, inOrder: bool, encryption: Encryption, retransmitted: bool, message: MsgNumber)

  function FlagsOf(p: DataPacket): Flags {
    Flags(p.position, p.inOrder, p.encryption, p.retransmitted, p.message)
  }

  /** PP(2) O(1) KK(2) R(1), the six bits above the message number. */
  function UpperBits(f: Flags): (r: nat)
    ensures r < 64
  {
    PositionBits(f.position) * 16 + Bit(f.inOrder) * 8 + KeyBits(f.encryption) * 2 + Bit(f.retransmitted)
  }

  function PackFlags(f: Flags): U32 {
    UpperBits(f) * 0x400_0000 + f.message
  }

  function FlagsFrom(upper: nat, message: MsgNumber): Result<Flags>
    requires upper < 64
  {
    var key := KeyFrom(upper / 2 % 4);
    if key.Err? then Err(key.error)
    else Ok(Flags(PositionFrom(upper / 16), upper / 8 % 2 == 1, key.value, upper % 2 == 1, message))
  }

  function UnpackFlags(w: U32): Result<Flags> {
    FlagsFrom(w / 0x400_0000, w % 0x400_0000)
  }

  lemma FlagsFromUpper(f: Flags)
    ensures FlagsFrom(UpperBits(f), f.message) == Ok(f)
  {
    UpperParts(PositionBits(f.position), Bit(f.inOrder), KeyBits(f.encryption), Bit(f.retransmitted));
  }

  lemma UpperParts(position: nat, order: nat, key: nat, again: nat)
    requires position < 4 && order < 2 && key < 4 && again < 2
    ensures var upper := position * 16 + order * 8 + key * 2 + again;
            upper / 16 == position && upper / 8 % 2 == order && upper / 2 % 4 == key && upper % 2 == again
  {
  }

  lemma UpperFromFlags(upper: nat, message: MsgNumber)
    requires upper < 64
    ensures FlagsFrom(upper, message).Ok? ==> UpperBits(FlagsFrom(upper, message).value) == upper
  {
  }

  lemma UnpackPacked(f: Flags)
    ensures UnpackFlags(PackFlags(f)) == Ok(f)
  {
    assert PackFlags(f) / 0x400_0000 == UpperBits(f) && PackFlags(f) % 0x400_0000 == f.message;
    FlagsFromUpper(f);
  }

  /** Every accepted word is the word of its fields. */
  lemma PackUnpacked(w: U32)
    ensures UnpackFlags(w).Ok? ==> PackFlags(UnpackFlags(w).value) == w
  {
    UpperFromFlags(w / 0x400_0000, w % 0x400_0000);
  }

  function DataWords(p: DataPacket): (r: seq<U32>)
    ensures |r| == 4
  {
    [p.number, PackFlags(FlagsOf(p)), p.timestamp, p.dest]
  }

  function DataFrom(ws: seq<U32>, payload: Bytes): Result<Packet>
    requires |ws| == 4 && ws[0] < FLAG_CONTROL
  {
    var flags := UnpackFlags(ws[1]);
    if flags.Err? then Err(flags.error)
    else
      var f := flags.value;
      Ok(DataOf(DataPacket(New(ws[0]), f.position, f.inOrder, f.encryption, f.retransmitted, f.message, ws[2], ws[3], payload)))
  }

  // ---- Control bodies ----

  function TypeRaw(t: ControlType): nat {
    match t
    case HandshakeType => 0
    case KeepaliveType => 1
    case AckType => 2
    case NakType => 3
    case CongestionType => 4
    case ShutdownType => 5
    case AckAckType => 6
    case DropReqType => 7
    case PeerErrorType => 8
    case UserDefinedType => 0x7FFF
  }

  function TypeFrom(raw: nat): Result<ControlType> {
    if raw == 0 then Ok(HandshakeType)
    else if raw == 1 then Ok(KeepaliveType)
    else if raw == 2 then Ok(AckType)
    else if raw == 3 then Ok(NakType)
    else if raw == 4 then Ok(CongestionType)
    else if raw == 5 then Ok(ShutdownType)
    else if raw == 6 then Ok(AckAckType)
    else if raw == 7 then Ok(DropReqType)
    else if raw == 8 then Ok(PeerErrorType)
    else if raw == 0x7FFF then Ok(UserDefinedType)
    else Err(UnknownType(raw))
  }

  /** The control type, subtype and type-specific header fields of a body. */
  function ToWire(body: ControlBody): (ControlType, U16, U32) {
    match body
    case Keepalive => (KeepaliveType, 0, 0)
    case Shutdown => (ShutdownType, 0, 0)
    case CongestionWarning => (CongestionType, 0, 0)
    case AckAck(n) => (AckAckType, 0, n)
    case DropReq(message, _, _) => (DropReqType, 0, message)
    case PeerError(code) => (PeerErrorType, 0, code)
    case Ack(n, _, _) => (AckType, 0, n)
    case Nak(_) => (NakType, 0, 0)
    case HandshakeBody(_) => (HandshakeType, 0, 0)
    case Raw(t, subtype, specific, _) => (t, subtype, specific)
  }

  function AckWords(last: SeqNumber, cif: AckCif): (ws: seq<U32>)
    ensures |ws| == if cif.Light? then 1 else if cif.Small? then 4 else 7
  {
    match cif
    case Light => [last]
    case Small(rtt, v, avail) => [last, rtt, v, avail]
    case Full(rtt, v, avail, recvRate, capacity, byteRate) => [last, rtt, v, avail, recvRate, capacity, byteRate]
  }

  /** A body the encoder accepts: a handshake must fit its fields. */
  predicate Encodable(body: ControlBody) {
    body.HandshakeBody? ==>
      |body.hs.peerIp| == 16 && forall k :: 0 <= k < |body.hs.extensions| ==> HS.Fits(body.hs.extensions[k])
  }

  function CifBytes(body: ControlBody): Bytes
    requires Encodable(body)
  {
    match body
    case DropReq(_, first, last) => WordsBytes([first, last])
    case Ack(_, last, cif) => WordsBytes(AckWords(last, cif))
    case Nak(loss) => LL.Encoded(loss)
    case HandshakeBody(hs) => HS.HandshakeBytes(hs)
    case Raw(_, _, _, bytes) => bytes
    case _ => []
  }

  /** An ACK's detail is told by the length of its body. */
  function AckFrom(n: U32, cif: Bytes): Result<ControlBody> {
    if |cif| == 4 then Ok(Ack(n, New(U32At(cif, 0)), Light))
    else if |cif| == 16 then
      Ok(Ack(n, New(U32At(cif, 0)), Small(U32At(cif, 4), U32At(cif, 8), U32At(cif, 12))))
    else if |cif| == 28 then
      Ok(Ack(n, New(U32At(cif, 0)), Full(U32At(cif, 4), U32At(cif, 8), U32At(cif, 12), U32At(cif, 16), U32At(cif, 20), U32At(cif, 24))))
    else Err(InvalidCifLength(|cif|))
  }

  function BodyFrom(raw: nat, subtype: U16, specific: U32, cif: Bytes, utf8: Bytes -> bool): Result<ControlBody> {
    var t := TypeFrom(raw);
    if t.Err? then Err(t.error)
    else match t.value
      case KeepaliveType => Ok(Keepalive)
      case ShutdownType => Ok(Shutdown)
      case CongestionType => Ok(CongestionWarning)
      case AckAckType => Ok(AckAck(specific))
      case PeerErrorType => Ok(PeerError(specific))
      case DropReqType =>
        if |cif| != 8 then Err(InvalidCifLength(|cif|))
        else Ok(DropReq(specific, New(U32At(cif, 0)), New(U32At(cif, 4))))
      case AckType => AckFrom(specific, cif)
      case NakType =>
        var loss := LL.Decoded(cif);
        if loss.Err? then Err(BadLossList(loss.error)) else Ok(Nak(loss.ranges))
      case HandshakeType =>
        var hs := HS.HandshakeFrom(cif, utf8);
        if hs.Err? then Err(BadHandshake(hs.error)) else Ok(HandshakeBody(hs.value))
      case UserDefinedType => Ok(Raw(UserDefinedType, subtype, specific, cif))
  }

  function TypeWord(raw: nat, subtype: U16): U32
    requires raw < 0x8000
  {
    FLAG_CONTROL + raw * 0x1_0000 + subtype
  }

  lemma TypeWordFields(raw: nat, subtype: U16)
    requires raw < 0x8000
    ensures
      var w := TypeWord(raw, subtype);
      w >= FLAG_CONTROL && w / 0x1_0000 % 0x8000 == raw && w % 0x1_0000 == subtype
  {
  }

  function ControlWords(ts: Timestamp, dest: U32, body: ControlBody): (r: seq<U32>)
    ensures |r| == 4
  {
    var (t, subtype, specific) := ToWire(body);
    [TypeWord(TypeRaw(t), subtype), specific, ts, dest]
  }

  function ControlFrom(ws: seq<U32>, cif: Bytes, utf8: Bytes -> bool): Result<Packet>
    requires |ws| == 4
  {
    var body := BodyFrom(ws[0] / 0x1_0000 % 0x8000, ws[0] % 0x1_0000, ws[1], cif, utf8);
    if body.Err? then Err(body.error) else Ok(ControlOf(ws[2], ws[3], body.value))
  }

  // ---- Packets ----

  predicate CanEncode(p: Packet) {
    p.ControlOf? ==> Encodable(p.body)
  }

  function Encoded(p: Packet): Bytes
    requires CanEncode(p)
  {
    match p
    case DataOf(data) => WordsBytes(DataWords(data)) + data.payload
    case ControlOf(ts, dest, body) => WordsBytes(ControlWords(ts, dest, body)) + CifBytes(body)
  }

  function Decoded(b: Bytes, utf8: Bytes -> bool): Result<Packet> {
    if |b| < HEADER_LEN then Err(TooShort(HEADER_LEN, |b|))
    else
      var ws := HS.WordsAt(b, 4);
      if ws[0] >= FLAG_CONTROL then ControlFrom(ws, b[HEADER_LEN..], utf8) else DataFrom(ws, b[HEADER_LEN..])
  }

  /** A control body the typed decoder gives back. */
  ghost predicate GoodBody(body: ControlBody, utf8: Bytes -> bool) {
    && Encodable(body)
    && (body.HandshakeBody? ==> HS.GoodHandshake(body.hs, utf8))
    && (body.Raw? ==> body.controlType == UserDefinedType)
  }

  lemma HeaderSplit(ws: seq<U32>, tail: Bytes)
    requires |ws| == 4
    ensures |WordsBytes(ws) + tail| >= HEADER_LEN
    ensures HS.WordsAt(WordsBytes(ws) + tail, 4) == ws
    ensures (WordsBytes(ws) + tail)[HEADER_LEN..] == tail
  {
    HS.WordsAtBytes(ws, tail);
  }

  lemma DataRoundTrip(p: DataPacket, utf8: Bytes -> bool)
    ensures Decoded(Encoded(DataOf(p)), utf8) == Ok(DataOf(p))
  {
    HeaderSplit(DataWords(p), p.payload);
    DataFromWords(p);
  }

  lemma DataFromWords(p: DataPacket)
    ensures DataFrom(DataWords(p), p.payload) == Ok(DataOf(p))
  {
    UnpackPacked(FlagsOf(p));
  }

  lemma AckRoundTrip(n: U32, last: SeqNumber, cif: AckCif)
    ensures AckFrom(n, WordsBytes(AckWords(last, cif))) == Ok(Ack(n, last, cif))
  {
    var ws := AckWords(last, cif);
    assert WordsBytes(ws) + [] == WordsBytes(ws);
    WordAt(ws, [], 0);
    if !cif.Light? {
      WordAt(ws, [], 1);
      WordAt(ws, [], 2);
      WordAt(ws, [], 3);
    }
    if cif.Full? {
      WordAt(ws, [], 4);
      WordAt(ws, [], 5);
      WordAt(ws, [], 6);
    }
    assert New(last) == last;
  }

  lemma DropReqRoundTrip(first: SeqNumber, last: SeqNumber)
    ensures
      var cif := WordsBytes([first, last]);
      |cif| == 8 && New(U32At(cif, 0)) == first && New(U32At(cif, 4)) == last
  {
    var ws := [first, last];
    assert WordsBytes(ws) + [] == WordsBytes(ws);
    WordAt(ws, [], 0);
    WordAt(ws, [], 1);
  }

  lemma BodyRoundTrip(body: ControlBody, utf8: Bytes -> bool)
    requires GoodBody(body, utf8)
    ensures
      var (t, subtype, specific) := ToWire(body);
      BodyFrom(TypeRaw(t), subtype, specific, CifBytes(body), utf8) == Ok(body)
  {
    match body
    case DropReq(_, first, last) => DropReqRoundTrip(first, last);
    case Ack(n, last, cif) => AckRoundTrip(n, last, cif);
    case Nak(loss) => LL.RoundTrip(loss);
    case HandshakeBody(hs) => HS.HandshakeRoundTrip(hs, utf8);
    case _ =>
  }

  lemma ControlRoundTrip(ts: Timestamp, dest: U32, body: ControlBody, utf8: Bytes -> bool)
    requires GoodBody(body, utf8)
    ensures Decoded(Encoded(ControlOf(ts, dest, body)), utf8) == Ok(ControlOf(ts, dest, body))
  {
    HeaderSplit(ControlWords(ts, dest, body), CifBytes(body));
    var (t, subtype, specific) := ToWire(body);
    TypeWordFields(TypeRaw(t), subtype);
    BodyRoundTrip(body, utf8);
  }

  /** Decoding undoes encoding for every packet, data or control. */
  lemma PacketRoundTrip(p: Packet, utf8: Bytes -> bool)
    requires p.ControlOf? ==> GoodBody(p.body, utf8)
    ensures Decoded(Encoded(p), utf8) == Ok(p)
  {
    match p
    case DataOf(data) => DataRoundTrip(data, utf8);
    case ControlOf(ts, dest, body) => ControlRoundTrip(ts, dest, body, utf8);
  }

  /** An accepted data packet re-encodes to the very bytes received. */
  lemma DataReencodes(b: Bytes, utf8: Bytes -> bool)
    requires Decoded(b, utf8).Ok? && Decoded(b, utf8).value.DataOf?
    ensures Encoded(Decoded(b, utf8).value) == b
  {
    var ws := HS.WordsAt(b, 4);
    var p := Decoded(b, utf8).value.data;
    WordsOfData(ws, b[HEADER_LEN..]);
    WordsOfBytes(ws, b[..HEADER_LEN]) by {
      forall k | 0 <= k < 4 ensures ws[k] == U32At(b[..HEADER_LEN], 4 * k) {
        assert b[4 * k..4 * k + 4] == b[..HEADER_LEN][4 * k..4 * k + 4];
      }
    }
    assert b == b[..HEADER_LEN] + b[HEADER_LEN..];
  }

  lemma WordsOfData(ws: seq<U32>, payload: Bytes)
    requires |ws| == 4 && ws[0] < FLAG_CONTROL && DataFrom(ws, payload).Ok?
    ensures DataWords(DataFrom(ws, payload).value.data) == ws
  {
    PackUnpacked(ws[1]);
    assert FlagsOf(DataFrom(ws, payload).value.data) == UnpackFlags(ws[1]).value;
  }

  // ---- Authenticated header ----

  /** The AES-GCM additional data: the header with the R flag left out. */
  function HeaderAad(p: DataPacket): Bytes {
    WordsBytes([p.number, PackFlags(FlagsOf(p).(retransmitted := false)), p.timestamp, p.dest])
  }

  /** It is the encoded header of the original, so a retransmission authenticates against the same bytes. */
  lemma AadIgnoresRetransmission(p: DataPacket)
    ensures HeaderAad(p) == Encoded(DataOf(p.(retransmitted := false)))[..HEADER_LEN]
    ensures HeaderAad(p.(retransmitted := true)) == HeaderAad(p.(retransmitted := false))
  {
    var q := p.(retransmitted := false);
    assert FlagsOf(q) == FlagsOf(p).(retransmitted := false);
    assert Encoded(DataOf(q))[..HEADER_LEN] == WordsBytes(DataWords(q));
  }
}
