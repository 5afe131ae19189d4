/** Protocol frames and the binary wire format: a 24-byte big-endian header, then the payload. */
module FrameCodec {
  import opened Sequences
  import opened Bytes

  datatype FrameType = Control | Data | Ack | Flow | Error {
    function Tag(): byte {
      match this
      case Control => 0x43
      case Data => 0x44
      case Ack => 0x41
      case Flow => 0x46
      case Error => 0x45
    }
  }

  function FrameTypeFromTag(tag: byte): Option<FrameType> {
    if tag == 0x43 then Some(Control)
    else if tag == 0x44 then Some(Data)
    else if tag == 0x41 then Some(Ack)
    else if tag == 0x46 then Some(Flow)
    else if tag == 0x45 then Some(Error)
    else None
  }

  datatype Encoding = Json | Cbor {
    function Tag(): byte { if Json? then 0x4A else 0x42 }
  }

  function EncodingFromTag(tag: byte): Option<Encoding> {
    if tag == 0x4A then Some(Json) else if tag == 0x42 then Some(Cbor) else None
  }

  /** Tags are read back as what they were written from, and only tags are accepted. */
  lemma {:induction false} TagsInvert(tag: byte)
    ensures FrameTypeFromTag(tag).Some? ==> FrameTypeFromTag(tag).value.Tag() == tag
    ensures EncodingFromTag(tag).Some? ==> EncodingFromTag(tag).value.Tag() == tag
    ensures forall t: FrameType :: FrameTypeFromTag(t.Tag()) == Some(t)
    ensures forall e: Encoding :: EncodingFromTag(e.Tag()) == Some(e)
  {
  }

  const VERSION: u16 := 0x0100
  const REPLAYED: u16 := 0x20

  datatype Frame = Frame(
    version: u16,
    frameId: u64,
    frameType: FrameType,
    flags: u16,
    codec: Encoding,
    sessionId: Option<bytes>,
    streamId: Option<bytes>,
    topic: Option<bytes>,
    event: Option<bytes>,
    messageId: Option<bytes>,
    correlationId: Option<bytes>,
    traceId: Option<bytes>,
    timestamp: i64,
    ttlMs: Option<nat>,
    priority: Option<nat>,
    payload: Option<bytes>
  )

  const DEFAULT_FRAME: Frame :=
    Frame(0, 0, Control, 0, Json, None, None, None, None, None, None, None, 0, None, None, None)

  datatype FrameReject = TooShort | UnknownType | UnknownCodec | PayloadTooLarge(actual: nat, max: nat) | Truncated

  datatype Decoded = Ok(frame: Frame) | Rejected(reason: FrameReject)

  const HEADER: nat := 24

  /** The header; the length field is the low 32 bits of the payload length. */
  function EncodeHeader(f: Frame, payloadLen: nat): (h: bytes)
    ensures |h| == HEADER
  {
    [f.frameType.Tag(), f.codec.Tag()] + BigEndian(2, f.flags) + BigEndian(8, f.frameId)
      + I64ToBytes(f.timestamp) + BigEndian(4, payloadLen % TWO_32)
  }

  function EncodeFrame(f: Frame): (buf: bytes) {
    var payload := f.payload.GetOr([]);
    EncodeHeader(f, |payload|) + payload
  }

  function DecodeBinaryFrame(buf: bytes, maxPayload: nat): (r: Decoded) {
    if |buf| < HEADER then Rejected(TooShort)
    else if FrameTypeFromTag(buf[0]).None? then Rejected(UnknownType)
    else if EncodingFromTag(buf[1]).None? then Rejected(UnknownCodec)
    else
      Widths();
      var flags := FromBigEndian(buf[2..4]);
      var frameId := FromBigEndian(buf[4..12]);
      var timestamp := I64FromBytes(buf[12..20]);
      var payloadLen := FromBigEndian(buf[20..24]);
      if payloadLen > maxPayload then Rejected(PayloadTooLarge(payloadLen, maxPayload))
      else if |buf| < HEADER + payloadLen then Rejected(Truncated)
      else
        Ok(Frame(VERSION, frameId, FrameTypeFromTag(buf[0]).value, flags, EncodingFromTag(buf[1]).value,
                 None, None, None, None, None, None, None, timestamp, None, None,
                 Some(buf[HEADER..HEADER + payloadLen])))
  }

  /** What the binary format carries of a frame. */
  function OnTheWire(f: Frame): Frame {
    Frame(0x0100, f.frameId, f.frameType, f.flags, f.codec, None, None, None, None, None, None, None,
          f.timestamp, None, None, Some(f.payload.GetOr([])))
  }

  lemma {:induction false} HeaderFields(f: Frame, payloadLen: nat, buf: bytes)
    requires |buf| >= HEADER && buf[..HEADER] == EncodeHeader(f, payloadLen)
    ensures buf[0] == f.frameType.Tag() && buf[1] == f.codec.Tag()
    ensures FromBigEndian(buf[2..4]) == f.flags
    ensures FromBigEndian(buf[4..12]) == f.frameId
    ensures I64FromBytes(buf[12..20]) == f.timestamp
    ensures FromBigEndian(buf[20..24]) == payloadLen % TWO_32
  {
    var h := EncodeHeader(f, payloadLen);
    Widths();
    assert buf[2..4] == h[2..4] == BigEndian(2, f.flags);
    assert buf[4..12] == h[4..12] == BigEndian(8, f.frameId);
    assert buf[12..20] == h[12..20] == I64ToBytes(f.timestamp);
    assert buf[20..24] == h[20..24] == BigEndian(4, payloadLen % TWO_32);
    assert buf[0] == buf[..HEADER][0] && buf[1] == buf[..HEADER][1];
    BigEndianRoundTrip(2, f.flags);
    BigEndianRoundTrip(8, f.frameId);
    I64RoundTrip(f.timestamp);
    BigEndianRoundTrip(4, payloadLen % TWO_32);
  }

  /**
   Decoding an encoded frame gives back everything that the format carries,
   exactly when the payload fits both the receiver's limit and the length field.
   */
  lemma {:induction false} DecodeInvertsEncode(f: Frame, maxPayload: nat)
    ensures var n := |f.payload.GetOr([])|;
      DecodeBinaryFrame(EncodeFrame(f), maxPayload) == Ok(OnTheWire(f)) <==> n <= maxPayload && n < TWO_32
  {
    hide FromBigEndian, BigEndian, I64FromBytes, I64ToBytes, Pow256;
    var payload, buf := f.payload.GetOr([]), EncodeFrame(f);
    var n := |payload|;
    assert buf[..HEADER] == EncodeHeader(f, n);
    HeaderFields(f, n, buf);
    if n < TWO_32 {
      assert buf[HEADER..HEADER + n] == payload;
    } else if DecodeBinaryFrame(buf, maxPayload).Ok? {
      assert |DecodeBinaryFrame(buf, maxPayload).frame.payload.value| < n;
    }
  }

  lemma {:induction false} HeaderInverse(f: Frame, payloadLen: nat, buf: bytes)
    requires |buf| >= HEADER && payloadLen < TWO_32
    requires buf[0] == f.frameType.Tag() && buf[1] == f.codec.Tag()
    requires FromBigEndian(buf[2..4]) == f.flags && FromBigEndian(buf[4..12]) == f.frameId
    requires I64FromBytes(buf[12..20]) == f.timestamp && FromBigEndian(buf[20..24]) == payloadLen
    ensures EncodeHeader(f, payloadLen) == buf[..HEADER]
  {
    hide FromBigEndian, BigEndian, I64FromBytes, I64ToBytes, Pow256;
    BigEndianInverse(buf[2..4]);
    BigEndianInverse(buf[4..12]);
    I64Inverse(buf[12..20]);
    BigEndianInverse(buf[20..24]);
    assert [buf[0], buf[1]] + buf[2..4] == buf[..4];
    assert buf[..4] + buf[4..12] == buf[..12];
    assert buf[..12] + buf[12..20] == buf[..20];
    assert buf[..20] + buf[20..24] == buf[..24];
  }

  /** Re-encoding an accepted buffer reproduces the bytes that were decoded. */
  lemma {:induction false} EncodeInvertsDecode(buf: bytes, maxPayload: nat)
    requires DecodeBinaryFrame(buf, maxPayload).Ok?
    ensures var f := DecodeBinaryFrame(buf, maxPayload).frame;
      EncodeFrame(f) == buf[..HEADER + |f.payload.value|]
  {
    Widths();
    var f := DecodeBinaryFrame(buf, maxPayload).frame;
    var n := |f.payload.value|;
    TagsInvert(buf[0]);
    TagsInvert(buf[1]);
    HeaderInverse(f, n, buf);
    assert buf[..HEADER] + buf[HEADER..HEADER + n] == buf[..HEADER + n];
  }

  ghost predicate BeginsWithFrame(buf: bytes, f: Frame, maxPayload: nat) {
    var n := |f.payload.GetOr([])|;
    n <= maxPayload && n < TWO_32 && EncodeFrame(f) <= buf
  }

  /** The decoder accepts exactly the buffers that begin with an encoded frame within the limits. */
  lemma {:induction false} AcceptsExactlyFrames(buf: bytes, maxPayload: nat)
    ensures DecodeBinaryFrame(buf, maxPayload).Ok? <==> exists f :: BeginsWithFrame(buf, f, maxPayload)
  {
    if DecodeBinaryFrame(buf, maxPayload).Ok? {
      Widths();
      EncodeInvertsDecode(buf, maxPayload);
      assert BeginsWithFrame(buf, DecodeBinaryFrame(buf, maxPayload).frame, maxPayload);
    }
    forall f | BeginsWithFrame(buf, f, maxPayload) ensures DecodeBinaryFrame(buf, maxPayload).Ok? {
      FrameIsAccepted(buf, f, maxPayload);
    }
  }

  lemma {:induction false} FrameIsAccepted(buf: bytes, f: Frame, maxPayload: nat)
    requires BeginsWithFrame(buf, f, maxPayload)
    ensures DecodeBinaryFrame(buf, maxPayload).Ok?
  {
    var n := |f.payload.GetOr([])|;
    assert buf[..HEADER] == EncodeFrame(f)[..HEADER] == EncodeHeader(f, n);
    HeaderFields(f, n, buf);
  }

  /** The tag bytes of the wire format. */
  lemma {:induction false} TagBytes(t: FrameType, e: Encoding)
    ensures [t.Tag()] == (match t
                          case Control => ['C' as int]
                          case Data => ['D' as int]
                          case Ack => ['A' as int]
                          case Flow => ['F' as int]
                          case Error => ['E' as int])
    ensures e.Tag() == if e == Json then 'J' as int else 'B' as int
  {
  }

  /** Why a buffer is turned down: the first of these that applies. */
  lemma {:induction false} RejectedExactlyWhen(buf: bytes, maxPayload: nat)
    ensures var r := DecodeBinaryFrame(buf, maxPayload);
      if |buf| < 24 then r == Rejected(TooShort)
      else if forall t: FrameType :: buf[0] != t.Tag() then r == Rejected(UnknownType)
      else if forall e: Encoding :: buf[1] != e.Tag() then r == Rejected(UnknownCodec)
      else
        var n := Word(buf[20], buf[21], buf[22], buf[23]);
        if n > maxPayload then r == Rejected(PayloadTooLarge(n, maxPayload))
        else if |buf| < 24 + n then r == Rejected(Truncated)
        else r.Ok?
  {
    if |buf| >= 24 {
      TagsInvert(buf[0]);
      TagsInvert(buf[1]);
      FourBytes(buf[20..24]);
    }
  }

  // ---- Fanout frames --------------------------------------------------------------------

  const OFFSET_MARK: bytes := [0x4F, 0x46, 0x46, 0x3A]

  /** What subscribers receive: `OFF:`, the offset, the payload. */
  function SerializeForFanout(payload: Option<bytes>, offset: i64): (buf: bytes) {
    OFFSET_MARK + I64ToBytes(offset) + payload.GetOr([])
  }

  function ParseFanout(buf: bytes): Option<(i64, bytes)> {
    if |buf| >= 12 && buf[..4] == OFFSET_MARK then Some((I64FromBytes(buf[4..12]), buf[12..])) else None
  }

  /** A subscriber reads back the offset and the payload that the broker sent. */
  lemma {:induction false} FanoutRoundTrip(payload: Option<bytes>, offset: i64)
    ensures ParseFanout(SerializeForFanout(payload, offset)) == Some((offset, payload.GetOr([])))
    ensures SerializeForFanout(payload, offset)[..4] == ['O' as int, 'F' as int, 'F' as int, ':' as int]
  {
    var buf := SerializeForFanout(payload, offset);
    I64RoundTrip(offset);
    assert buf[..4] == OFFSET_MARK;
    assert buf[4..12] == I64ToBytes(offset);
    assert buf[12..] == payload.GetOr([]);
  }
}
