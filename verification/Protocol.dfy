/** The binary message codec of server/protocol.py: a 44-byte big-endian header
    ("!4sBBIBBIQ16sI") followed by the payload. */
module Protocol {
  import opened Words

  const MAGIC: Bytes := [0x45, 0x56, 0x41, 0x31]  // "EVA1"
  const VERSION: Byte := 1
  const HEADER_SIZE: nat := 44
  const MAX_MESSAGE_BYTES: nat := 65536
  const MAX_PAYLOAD_BYTES: nat := MAX_MESSAGE_BYTES - HEADER_SIZE
  const SESSION_ID_SIZE: nat := 16

  datatype MessageType = StartSession | AudioChunk | EndSession | ErrorReply | AsrResult
  {
    function Code(): Byte {
      match this
      case StartSession => 1
      case AudioChunk => 2
      case EndSession => 3
      case ErrorReply => 4
      case AsrResult => 5
    }
  }

  datatype SampleFormat = PcmS16Le
  {
    function Code(): Byte { 0 }
  }

  function TypeOfCode(code: int): (t: Option<MessageType>)
    ensures t.Some? <==> 1 <= code <= 5
    ensures t.Some? ==> t.value.Code() == code
  {
    if code == 1 then Some(StartSession)
    else if code == 2 then Some(AudioChunk)
    else if code == 3 then Some(EndSession)
    else if code == 4 then Some(ErrorReply)
    else if code == 5 then Some(AsrResult)
    else None
  }

  function FormatOfCode(code: int): (f: Option<SampleFormat>)
    ensures f.Some? <==> code == 0
  {
    if code == 0 then Some(PcmS16Le) else None
  }

  /** The decoded header; magic and version are constants of every accepted one. */
  datatype Header = Header(
    msgType: MessageType,
    sampleRate: U32,
    sampleFormat: SampleFormat,
    channels: Byte,
    sequenceNumber: U32,
    timestampMs: U64,
    sessionId: Bytes,
    payloadLength: U32)

  datatype ProtocolError =
    | BadSessionIdLength
    | SequenceOutOfRange
    | SampleRateOutOfRange
    | TimestampOutOfRange
    | ChannelsOutOfRange
    | PayloadTooLarge
    | UnknownMessageType
    | UnknownSampleFormat
    | TooShort
    | BadMagic
    | BadVersion
    | SampleRateNotPositive
    | ChannelsNotPositive
    | LengthMismatch

  /** struct.pack of the ten header fields. */
  function PackHeader(msgType: Byte, sampleRate: U32, sampleFormat: Byte, channels: Byte,
                      sequenceNumber: U32, timestampMs: U64, sessionId: Bytes,
                      payloadLength: U32): (h: Bytes)
    requires |sessionId| == SESSION_ID_SIZE
    ensures |h| == HEADER_SIZE
  {
    MAGIC + [VERSION] + [msgType] + BigEndian(sampleRate, 4) + [sampleFormat] + [channels] +
    BigEndian(sequenceNumber, 4) + BigEndian(timestampMs, 8) + sessionId +
    BigEndian(payloadLength, 4)
  }

  function EncodeMessage(msgType: int, sessionId: Bytes, sequenceNumber: int, timestampMs: int,
                         payload: Bytes, sampleRate: int, sampleFormat: int, channels: int):
    (r: Result<Bytes, ProtocolError>)
  {
    if |sessionId| != SESSION_ID_SIZE then Err(BadSessionIdLength)
    else if !(0 <= sequenceNumber <= 0xFFFF_FFFF) then Err(SequenceOutOfRange)
    else if !(0 <= sampleRate <= 0xFFFF_FFFF) then Err(SampleRateOutOfRange)
    else if !(0 <= timestampMs <= 0xFFFF_FFFF_FFFF_FFFF) then Err(TimestampOutOfRange)
    else if !(1 <= channels <= 255) then Err(ChannelsOutOfRange)
    else if |payload| > MAX_PAYLOAD_BYTES then Err(PayloadTooLarge)
    else if TypeOfCode(msgType).None? then Err(UnknownMessageType)
    else if FormatOfCode(sampleFormat).None? then Err(UnknownSampleFormat)
    else Ok(PackHeader(msgType, sampleRate, sampleFormat, channels, sequenceNumber, timestampMs,
                       sessionId, |payload|) + payload)
  }

  function Word(data: Bytes, offset: nat, size: nat): (v: nat)
    requires offset + size <= |data|
    ensures v < Pow256(size)
  {
    FromBigEndian(data[offset..offset + size])
  }

  function DecodeHeader(data: Bytes): (r: Result<Header, ProtocolError>)
    ensures r.Ok? ==> |data| >= HEADER_SIZE && |r.value.sessionId| == SESSION_ID_SIZE
  {
    Pow256Words();
    if |data| < HEADER_SIZE then Err(TooShort)
    else if data[..4] != MAGIC then Err(BadMagic)
    else if data[4] != VERSION then Err(BadVersion)
    else if TypeOfCode(data[5]).None? then Err(UnknownMessageType)
    else if FormatOfCode(data[10]).None? then Err(UnknownSampleFormat)
    else if Word(data, 6, 4) <= 0 then Err(SampleRateNotPositive)
    else if data[11] <= 0 then Err(ChannelsNotPositive)
    else if Word(data, 40, 4) > MAX_PAYLOAD_BYTES then Err(PayloadTooLarge)
    else Ok(Header(TypeOfCode(data[5]).value, Word(data, 6, 4), FormatOfCode(data[10]).value,
                   data[11], Word(data, 12, 4), Word(data, 16, 8), data[24..40],
                   Word(data, 40, 4)))
  }

  function DecodeMessage(data: Bytes): (r: Result<(Header, Bytes), ProtocolError>)
    ensures r.Ok? ==> |r.value.0.sessionId| == SESSION_ID_SIZE
                      && |r.value.1| == r.value.0.payloadLength <= MAX_PAYLOAD_BYTES
  {
    match DecodeHeader(data)
    case Err(e) => Err(e)
    case Ok(h) =>
      if |data| != HEADER_SIZE + h.payloadLength then Err(LengthMismatch)
      else Ok((h, data[HEADER_SIZE..]))
  }

  /** Where each field of a packed header sits, whatever follows the header. */
  lemma PackedFields(msgType: Byte, sampleRate: U32, sampleFormat: Byte, channels: Byte,
                     sequenceNumber: U32, timestampMs: U64, sessionId: Bytes,
                     payloadLength: U32, rest: Bytes)
    requires |sessionId| == SESSION_ID_SIZE
    ensures var d := PackHeader(msgType, sampleRate, sampleFormat, channels, sequenceNumber,
                                timestampMs, sessionId, payloadLength) + rest;
            && d[..4] == MAGIC && d[4] == VERSION && d[5] == msgType
            && d[10] == sampleFormat && d[11] == channels
            && d[24..40] == sessionId && d[44..] == rest
            && Word(d, 6, 4) == sampleRate && Word(d, 12, 4) == sequenceNumber
            && Word(d, 16, 8) == timestampMs && Word(d, 40, 4) == payloadLength
  {
    var d := PackHeader(msgType, sampleRate, sampleFormat, channels, sequenceNumber,
                        timestampMs, sessionId, payloadLength) + rest;
    Pow256Words();
    FromToBigEndian(sampleRate, 4);
    FromToBigEndian(sequenceNumber, 4);
    FromToBigEndian(timestampMs, 8);
    FromToBigEndian(payloadLength, 4);
    assert d[6..10] == BigEndian(sampleRate, 4);
    assert d[12..16] == BigEndian(sequenceNumber, 4);
    assert d[16..24] == BigEndian(timestampMs, 8);
    assert d[40..44] == BigEndian(payloadLength, 4);
  }

  /** An encoded message decodes exactly when its sample rate is positive, which
      the encoder does not insist on; it then decodes to what was encoded. */
  lemma DecodeEncode(msgType: int, sessionId: Bytes, sequenceNumber: int, timestampMs: int,
                     payload: Bytes, sampleRate: int, sampleFormat: int, channels: int)
    requires EncodeMessage(msgType, sessionId, sequenceNumber, timestampMs, payload, sampleRate,
                           sampleFormat, channels).Ok?
    ensures var m := EncodeMessage(msgType, sessionId, sequenceNumber, timestampMs, payload,
                                   sampleRate, sampleFormat, channels).value;
            && |m| == HEADER_SIZE + |payload|
            && DecodeMessage(m) ==
               if sampleRate == 0 then Err(SampleRateNotPositive)
               else Ok((Header(TypeOfCode(msgType).value, sampleRate, PcmS16Le, channels,
                               sequenceNumber, timestampMs, sessionId, |payload|), payload))
  {
    PackedFields(msgType, sampleRate, sampleFormat, channels, sequenceNumber, timestampMs,
                 sessionId, |payload|, payload);
  }

  /** The header an accepted byte string carries packs back to its first 44 bytes. */
  lemma PackUnpack(data: Bytes)
    requires |data| >= HEADER_SIZE && data[..4] == MAGIC && data[4] == VERSION
    ensures && Word(data, 6, 4) < 0x1_0000_0000 && Word(data, 12, 4) < 0x1_0000_0000
            && Word(data, 16, 8) < 0x1_0000_0000_0000_0000 && Word(data, 40, 4) < 0x1_0000_0000
            && PackHeader(data[5], Word(data, 6, 4), data[10], data[11], Word(data, 12, 4),
                          Word(data, 16, 8), data[24..40], Word(data, 40, 4)) == data[..44]
  {
    Pow256Words();
    ToFromBigEndian(data[6..10]);
    ToFromBigEndian(data[12..16]);
    ToFromBigEndian(data[16..24]);
    ToFromBigEndian(data[40..44]);
    assert data[..44] == data[..4] + [data[4]] + [data[5]] + data[6..10] + [data[10]] + [data[11]] +
                         data[12..16] + data[16..24] + data[24..40] + data[40..44];
  }

  /** The encoding is canonical: an accepted byte string is the encoding of what it
      decodes to. */
  lemma EncodeDecode(data: Bytes)
    requires DecodeMessage(data).Ok?
    ensures var (h, payload) := DecodeMessage(data).value;
            EncodeMessage(h.msgType.Code(), h.sessionId, h.sequenceNumber, h.timestampMs, payload,
                          h.sampleRate, h.sampleFormat.Code(), h.channels) == Ok(data)
  {
    PackUnpack(data);
    assert data == data[..44] + data[44..];
  }

  /** No accepted message is a proper prefix of another, so a byte stream of accepted
      messages splits in one way only. */
  lemma PrefixFree(a: Bytes, b: Bytes)
    requires DecodeMessage(a).Ok? && DecodeMessage(b).Ok?
    requires a <= b
    ensures a == b
  {
    assert a[40..44] == b[40..44];
  }

  /** Encoding is injective, on messages with rate 0 too, which no decoder accepts. */
  lemma EncodeInjective(h1: Header, p1: Bytes, h2: Header, p2: Bytes, m: Bytes)
    requires EncodeMessage(h1.msgType.Code(), h1.sessionId, h1.sequenceNumber, h1.timestampMs, p1,
                           h1.sampleRate, h1.sampleFormat.Code(), h1.channels) == Ok(m)
    requires EncodeMessage(h2.msgType.Code(), h2.sessionId, h2.sequenceNumber, h2.timestampMs, p2,
                           h2.sampleRate, h2.sampleFormat.Code(), h2.channels) == Ok(m)
    requires h1.payloadLength == |p1| && h2.payloadLength == |p2|
    ensures h1 == h2 && p1 == p2
  {
    hide PackHeader;
    PackedFields(h1.msgType.Code(), h1.sampleRate, h1.sampleFormat.Code(), h1.channels,
                 h1.sequenceNumber, h1.timestampMs, h1.sessionId, |p1|, p1);
    PackedFields(h2.msgType.Code(), h2.sampleRate, h2.sampleFormat.Code(), h2.channels,
                 h2.sequenceNumber, h2.timestampMs, h2.sessionId, |p2|, p2);
    assert m[44..] == p1 && m[44..] == p2;
  }

  /** The wire format, byte by byte. */
  lemma HeaderWrittenOut(msgType: Byte, sampleRate: U32, sampleFormat: Byte, channels: Byte,
                         sequenceNumber: U32, timestampMs: U64, sessionId: Bytes,
                         payloadLength: U32, i: nat)
    requires |sessionId| == 16
    ensures var h := PackHeader(msgType, sampleRate, sampleFormat, channels, sequenceNumber,
                                timestampMs, sessionId, payloadLength);
            && |h| == 44
            && h[0] as char == 'E' && h[1] as char == 'V' && h[2] as char == 'A' && h[3] as char == '1'
            && h[4] == 1 && h[5] == msgType && h[10] == sampleFormat && h[11] == channels
            && (i < 4 ==> h[6 + i] == sampleRate / Pow256(3 - i) % 256)
            && (i < 4 ==> h[12 + i] == sequenceNumber / Pow256(3 - i) % 256)
            && (i < 8 ==> h[16 + i] == timestampMs / Pow256(7 - i) % 256)
            && (i < 16 ==> h[24 + i] == sessionId[i])
            && (i < 4 ==> h[40 + i] == payloadLength / Pow256(3 - i) % 256)
  {
    hide BigEndian, Pow256;
    if i < 4 {
      BigEndianAt(sampleRate, 4, i);
      BigEndianAt(sequenceNumber, 4, i);
      BigEndianAt(payloadLength, 4, i);
    }
    if i < 8 { BigEndianAt(timestampMs, 8, i); }
  }

  /** Type and format codes. */
  lemma CodesWrittenOut(code: int)
    ensures TypeOfCode(code) == match code
                                case 1 => Some(StartSession)
                                case 2 => Some(AudioChunk)
                                case 3 => Some(EndSession)
                                case 4 => Some(ErrorReply)
                                case 5 => Some(AsrResult)
                                case _ => None
    ensures FormatOfCode(code) == if code == 0 then Some(PcmS16Le) else None
  {
  }

  /** Which arguments the encoder refuses, and with which error; nothing else is refused. */
  lemma EncodeErrors(msgType: int, sessionId: Bytes, sequenceNumber: int, timestampMs: int,
                     payload: Bytes, sampleRate: int, sampleFormat: int, channels: int)
    ensures var r := EncodeMessage(msgType, sessionId, sequenceNumber, timestampMs, payload, sampleRate,
                                   sampleFormat, channels);
            var sequenceFits := 0 <= sequenceNumber < 0x1_0000_0000;
            var rateFits := 0 <= sampleRate < 0x1_0000_0000;
            var timeFits := 0 <= timestampMs < 0x1_0000_0000_0000_0000;
            var channelsFit := 1 <= channels <= 255;
            var fits := |sessionId| == 16 && sequenceFits && rateFits && timeFits && channelsFit;
            && (r == Err(BadSessionIdLength) <==> |sessionId| != 16)
            && (r == Err(SequenceOutOfRange) <==> |sessionId| == 16 && !sequenceFits)
            && (r == Err(SampleRateOutOfRange) <==> |sessionId| == 16 && sequenceFits && !rateFits)
            && (r == Err(TimestampOutOfRange) <==>
                |sessionId| == 16 && sequenceFits && rateFits && !timeFits)
            && (r == Err(ChannelsOutOfRange) <==>
                |sessionId| == 16 && sequenceFits && rateFits && timeFits && !channelsFit)
            && (r == Err(PayloadTooLarge) <==> fits && |payload| > 65492)
            && (r == Err(UnknownMessageType) <==>
                fits && |payload| <= 65492 && !(1 <= msgType <= 5))
            && (r == Err(UnknownSampleFormat) <==>
                fits && |payload| <= 65492 && 1 <= msgType <= 5 && sampleFormat != 0)
            && (r.Ok? <==> fits && |payload| <= 65492 && 1 <= msgType <= 5 && sampleFormat == 0)
  {
  }

  /** Which byte strings the decoder refuses, and with which error, the fields being read off
      where the wire format has them; the rest is accepted with those fields. */
  lemma DecodeErrors(data: Bytes)
    ensures var r := DecodeMessage(data);
            && (r == Err(TooShort) <==> |data| < 44)
            && (|data| >= 44 ==>
                var magic := data[0] == 0x45 && data[1] == 0x56 && data[2] == 0x41 && data[3] == 0x31;
                var known := magic && data[4] == 1 && 1 <= data[5] <= 5 && data[10] == 0;
                var rate := FromBigEndian(data[6..10]);
                var declared := FromBigEndian(data[40..44]);
                && (r == Err(BadMagic) <==> !magic)
                && (r == Err(BadVersion) <==> magic && data[4] != 1)
                && (r == Err(UnknownMessageType) <==> magic && data[4] == 1 && !(1 <= data[5] <= 5))
                && (r == Err(UnknownSampleFormat) <==>
                    magic && data[4] == 1 && 1 <= data[5] <= 5 && data[10] != 0)
                && (r == Err(SampleRateNotPositive) <==> known && rate == 0)
                && (r == Err(ChannelsNotPositive) <==> known && rate > 0 && data[11] == 0)
                && (r == Err(PayloadTooLarge) <==>
                    known && rate > 0 && data[11] > 0 && declared > 65492)
                && (r == Err(LengthMismatch) <==>
                    known && rate > 0 && data[11] > 0 && declared <= 65492 && |data| != 44 + declared)
                && (r.Ok? <==>
                    known && rate > 0 && data[11] > 0 && declared <= 65492 && |data| == 44 + declared)
                && (r.Ok? ==>
                    var (h, payload) := r.value;
                    && h.msgType.Code() == data[5] && h.sampleRate == rate && h.sampleFormat == PcmS16Le
                    && h.channels == data[11] && h.sequenceNumber == FromBigEndian(data[12..16])
                    && h.timestampMs == FromBigEndian(data[16..24]) && h.sessionId == data[24..40]
                    && h.payloadLength == declared && payload == data[44..]))
  {
    if |data| >= 44 {
      assert data[..4] == MAGIC <==>
             data[0] == 0x45 && data[1] == 0x56 && data[2] == 0x41 && data[3] == 0x31;
    }
  }
}
