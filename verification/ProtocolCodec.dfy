/** The firmware's mirror of the codec (lan_transport/src/protocol_codec.cpp): it
    writes the header into a caller's buffer byte by byte and reads it back with
    shifts. Shifts and masks are written as the divisions and remainders they are on
    unsigned words; the 64-bit wrap-around of the reading loop is explicit. */
module ProtocolCodec {
  import opened Words
  import opened Protocol

  method WriteU32BE(out: array<Byte>, offset: nat, value: U32)
    requires offset + 4 <= out.Length
    modifies out
    ensures out[..offset + 4] == old(out[..offset]) + BigEndian(value, 4)
    ensures forall i :: offset + 4 <= i < out.Length ==> out[i] == old(out[i])
  {
    out[offset] := value / 0x100_0000 % 0x100;
    out[offset + 1] := value / 0x1_0000 % 0x100;
    out[offset + 2] := value / 0x100 % 0x100;
    out[offset + 3] := value % 0x100;
    forall i: nat | i < 4 ensures BigEndian(value, 4)[i] == out[offset + i] {
      BigEndianAt(value, 4, i);
      assert Pow256(2) == 0x1_0000 && Pow256(3) == 0x100_0000;
    }
  }

  function ReadU32BE(s: Bytes): (v: nat)
    requires |s| == 4
    ensures v == FromBigEndian(s)
  {
    assert s[..2][..1] == s[..1] && s[..3][..2] == s[..2];
    assert FromBigEndian(s[..1]) == s[0] as int;
    assert FromBigEndian(s[..2]) == s[0] as int * 0x100 + s[1] as int;
    assert FromBigEndian(s[..3]) == s[0] as int * 0x1_0000 + s[1] as int * 0x100 + s[2] as int;
    s[0] as int * 0x100_0000 + s[1] as int * 0x1_0000 + s[2] as int * 0x100 + s[3] as int
  }

  method WriteU64BE(out: array<Byte>, offset: nat, value: U64)
    requires offset + 8 <= out.Length
    modifies out
    ensures out[..offset + 8] == old(out[..offset]) + BigEndian(value, 8)
    ensures forall i :: offset + 8 <= i < out.Length ==> out[i] == old(out[i])
  {
    for i := 0 to 8
      invariant out[..offset + i] == old(out[..offset]) + BigEndian(value, 8)[..i]
      invariant forall k :: offset + i <= k < out.Length ==> out[k] == old(out[k])
    {
      BigEndianAt(value, 8, i);
      out[offset + i] := value / Pow256(7 - i) % 0x100;
    }
  }

  lemma {:induction false} PowMonotone(m: nat, n: nat)
    requires m <= n
    ensures Pow256(m) <= Pow256(n)
    decreases n - m
  {
    if m < n { PowMonotone(m + 1, n); }
  }

  method ReadU64BE(data: Bytes, offset: nat) returns (value: U64)
    requires offset + 8 <= |data|
    ensures value == FromBigEndian(data[offset..offset + 8])
  {
    value := 0;
    Pow256Words();
    for i := 0 to 8
      invariant value == FromBigEndian(data[offset..offset + i])
    {
      ghost var next := data[offset..offset + i + 1];
      assert next[..i] == data[offset..offset + i];
      PowMonotone(i + 1, 8);
      value := value * 0x100 % 0x1_0000_0000_0000_0000 + data[offset + i];
    }
  }

  /** A memcpy, or a one-byte store, at the cursor. */
  method CopyInto(src: Bytes, out: array<Byte>, offset: nat)
    requires offset + |src| <= out.Length
    modifies out
    ensures out[..offset + |src|] == old(out[..offset]) + src
    ensures forall i :: offset + |src| <= i < out.Length ==> out[i] == old(out[i])
  {
    forall i | 0 <= i < |src| {
      out[offset + i] := src[i];
    }
  }

  /** The wire header: 44 bytes written in place, the rest of the buffer untouched. */
  method EncodeHeader(msgType: MessageType, sessionId: Bytes, sequenceNumber: U32,
                      timestampMs: U64, payloadLength: U32, sampleRate: U32,
                      sampleFormat: SampleFormat, channels: Byte, out: array<Byte>)
    requires |sessionId| == SESSION_ID_SIZE
    requires out.Length >= HEADER_SIZE
    modifies out
    ensures out[..HEADER_SIZE] ==
            PackHeader(msgType.Code(), sampleRate, sampleFormat.Code(), channels,
                       sequenceNumber, timestampMs, sessionId, payloadLength)
    ensures forall i :: HEADER_SIZE <= i < out.Length ==> out[i] == old(out[i])
  {
    var offset := 0;
    ghost var done: Bytes := [];
    CopyInto(MAGIC, out, offset);
    offset, done := offset + 4, MAGIC;
    assert out[..offset] == done;
    CopyInto([VERSION], out, offset);
    offset, done := offset + 1, done + [VERSION];
    assert out[..offset] == done;
    CopyInto([msgType.Code()], out, offset);
    offset, done := offset + 1, done + [msgType.Code()];
    assert out[..offset] == done;
    WriteU32BE(out, offset, sampleRate);
    offset, done := offset + 4, done + BigEndian(sampleRate, 4);
    assert out[..offset] == done;
    CopyInto([sampleFormat.Code()], out, offset);
    offset, done := offset + 1, done + [sampleFormat.Code()];
    assert out[..offset] == done;
    CopyInto([channels], out, offset);
    offset, done := offset + 1, done + [channels];
    assert out[..offset] == done;
    WriteU32BE(out, offset, sequenceNumber);
    offset, done := offset + 4, done + BigEndian(sequenceNumber, 4);
    assert out[..offset] == done;
    WriteU64BE(out, offset, timestampMs);
    offset, done := offset + 8, done + BigEndian(timestampMs, 8);
    assert out[..offset] == done;
    CopyInto(sessionId, out, offset);
    offset, done := offset + 16, done + sessionId;
    assert out[..offset] == done;
    WriteU32BE(out, offset, payloadLength);
    offset, done := offset + 4, done + BigEndian(payloadLength, 4);
    assert out[..offset] == done;
  }

  /** The packed struct DecodeHeader fills. */
  class MessageHeader {
    var msgType: Byte
    var sampleRate: U32
    var sampleFormat: Byte
    var channels: Byte
    var sequenceNumber: U32
    var timestampMs: U64
    var sessionId: Bytes
    var payloadLength: U32

    /** The struct holds exactly the fields of a Python header. */
    ghost predicate Holds(h: Header)
      reads this
    {
      && msgType == h.msgType.Code() && sampleRate == h.sampleRate
      && sampleFormat == h.sampleFormat.Code() && channels == h.channels
      && sequenceNumber == h.sequenceNumber && timestampMs == h.timestampMs
      && sessionId == h.sessionId && payloadLength == h.payloadLength
    }

    /** The struct holds the fields found at the header's offsets in data. */
    ghost predicate Parses(data: Bytes)
      requires |data| >= HEADER_SIZE
      reads this
    {
      && msgType == data[5] && sampleRate == Word(data, 6, 4)
      && sampleFormat == data[10] && channels == data[11]
      && sequenceNumber == Word(data, 12, 4) && timestampMs == Word(data, 16, 8)
      && sessionId == data[24..40] && payloadLength == Word(data, 40, 4)
    }
  }

  /** What DecodeHeader checks: less than the Python decoder does. */
  predicate Accepts(data: Bytes) {
    |data| >= HEADER_SIZE && data[..4] == MAGIC && data[4] == VERSION
  }

  method DecodeHeader(data: Bytes, out: MessageHeader) returns (ok: bool)
    modifies out
    ensures ok <==> Accepts(data)
    ensures ok ==> out.Parses(data)
    ensures Protocol.DecodeHeader(data).Ok? ==>
              ok && out.Holds(Protocol.DecodeHeader(data).value)
  {
    if |data| < HEADER_SIZE {
      return false;
    }
    var offset := 0;
    if data[offset..offset + 4] != MAGIC {
      return false;
    }
    offset := offset + 4;
    if data[offset] != VERSION {
      return false;
    }
    offset := offset + 1;
    Pow256Words();
    out.msgType := data[offset];
    offset := offset + 1;
    out.sampleRate := ReadU32BE(data[offset..offset + 4]);
    offset := offset + 4;
    out.sampleFormat := data[offset];
    offset := offset + 1;
    out.channels := data[offset];
    offset := offset + 1;
    out.sequenceNumber := ReadU32BE(data[offset..offset + 4]);
    offset := offset + 4;
    out.timestampMs := ReadU64BE(data, offset);
    offset := offset + 8;
    out.sessionId := data[offset..offset + 16];
    offset := offset + 16;
    out.payloadLength := ReadU32BE(data[offset..offset + 4]);
    ok := true;
  }

  /** Python accepts exactly the headers the firmware accepts whose type, format, rate,
      channel count and declared length are also in range. */
  lemma PythonAcceptsMore(data: Bytes)
    ensures Protocol.DecodeHeader(data).Ok? <==>
            && Accepts(data)
            && 1 <= data[5] <= 5 && data[10] == 0
            && Word(data, 6, 4) > 0 && data[11] > 0 && Word(data, 40, 4) <= MAX_PAYLOAD_BYTES
  {
    Pow256Words();
  }

  /** A header with sample rate 0 and type 99: the firmware accepts it, Python does not. */
  lemma ConverseFails()
    ensures var data := PackHeader(99, 0, 0, 1, 0, 0, seq(16, _ => 0), 0);
            Accepts(data) && Protocol.DecodeHeader(data).Err?
  {
    PackedFields(99, 0, 0, 1, 0, 0, seq(16, _ => 0), 0, []);
    var data := PackHeader(99, 0, 0, 1, 0, 0, seq(16, _ => 0), 0);
    assert data + [] == data;
  }

  /** A header the firmware writes is the Python encoder's header of the same message, and
      Python accepts it exactly when the rate and channel count are positive and the
      payload fits. */
  lemma FirmwareHeaderDecodes(msgType: MessageType, sessionId: Bytes, sequenceNumber: U32,
                              timestampMs: U64, payload: Bytes, sampleRate: U32, channels: Byte)
    requires |sessionId| == SESSION_ID_SIZE
    requires |payload| < 0x1_0000_0000
    ensures var wire := PackHeader(msgType.Code(), sampleRate, PcmS16Le.Code(), channels,
                                   sequenceNumber, timestampMs, sessionId, |payload|) + payload;
            && (sampleRate > 0 && channels > 0 && |payload| <= MAX_PAYLOAD_BYTES <==>
                DecodeMessage(wire).Ok?)
            && (DecodeMessage(wire).Ok? ==>
                && EncodeMessage(msgType.Code(), sessionId, sequenceNumber, timestampMs, payload,
                                 sampleRate, PcmS16Le.Code(), channels) == Ok(wire)
                && DecodeMessage(wire).value ==
                   (Header(msgType, sampleRate, PcmS16Le, channels, sequenceNumber, timestampMs,
                           sessionId, |payload|), payload))
  {
    PackedFields(msgType.Code(), sampleRate, PcmS16Le.Code(), channels, sequenceNumber,
                 timestampMs, sessionId, |payload|, payload);
  }
}
