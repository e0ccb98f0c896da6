/** The desktop client's session (desktop/protocol_client.py): START, the utterance cut
    into numbered chunks, END; then one reply is read. */
module ProtocolClient {
  import opened Words
  import opened Protocol
  import opened Pcm

  /** min(frame_size_samples, MAX_PAYLOAD_BYTES // 2) * 2: bytes in a full chunk. */
  function ChunkBytes(frameSize: nat): nat {
    2 * Min(frameSize, MAX_PAYLOAD_BYTES / 2)
  }

  function ChunkCount(length: nat, size: nat): (n: nat)
    requires size >= 1
  {
    (length + size - 1) / size
  }

  /** Where chunk k begins. */
  function Cut(length: nat, size: nat, k: nat): nat {
    Min(k * size, length)
  }

  lemma CutStep(length: nat, size: nat, k: nat)
    ensures Cut(length, size, 0) == 0
    ensures Cut(length, size, k + 1) == Min(Cut(length, size, k) + size, length)
  {
    assert (k + 1) * size == k * size + size;
  }

  /** Bytes k * size up to (k + 1) * size of the utterance, cut at its end. */
  function Chunk(pcm: Bytes, size: nat, k: nat): Bytes
    requires size >= 1
  {
    CutStep(|pcm|, size, k);
    pcm[Cut(|pcm|, size, k)..Cut(|pcm|, size, k + 1)]
  }

  lemma Times(a: nat, b: nat, c: nat)
    requires b <= c
    ensures a * b <= a * c
  {
    assert a * c == a * b + a * (c - b);
  }

  /** The chunk number is in range exactly while there is something left to send. */
  lemma ChunkExists(length: nat, size: nat, k: nat)
    requires size >= 1
    ensures k < ChunkCount(length, size) <==> Cut(length, size, k) < length
  {
    var n := ChunkCount(length, size);
    var r := (length + size - 1) % size;
    assert length + size - 1 == size * n + r;
    assert k * size == size * k;
    if k < n {
      Times(size, k + 1, n);
      assert size * (k + 1) == size * k + size;
    } else {
      Times(size, n, k);
    }
  }

  /** Every chunk is non-empty and fits a message; together they are the utterance. */
  lemma ChunkFits(pcm: Bytes, size: nat, k: nat)
    requires 1 <= size && k < ChunkCount(|pcm|, size)
    ensures 1 <= |Chunk(pcm, size, k)| <= size
  {
    hide Cut, ChunkCount;
    ChunkExists(|pcm|, size, k);
    CutStep(|pcm|, size, k);
  }

  /** The cuts, as the loop's slices have them: chunk k is bytes k * size up to the next
      multiple, or to the end. */
  lemma ChunkWrittenOut(pcm: Bytes, frameSize: nat, k: nat)
    requires frameSize >= 1
    ensures var size := 2 * if frameSize < 32746 then frameSize else 32746;
            && ChunkBytes(frameSize) == size
            && (k < ChunkCount(|pcm|, size) <==> k * size < |pcm|)
            && (k * size < |pcm| ==>
                Chunk(pcm, size, k) ==
                pcm[k * size..if (k + 1) * size < |pcm| then (k + 1) * size else |pcm|])
  {
    hide ChunkCount;
    ChunkExists(|pcm|, ChunkBytes(frameSize), k);
    assert (k + 1) * ChunkBytes(frameSize) == k * ChunkBytes(frameSize) + ChunkBytes(frameSize);
  }

  /** The k-th message of a session with n chunks. The clock gives each its stamp. */
  function MessageAt(id: Bytes, pcm: Bytes, size: nat, sampleRate: int, channels: int,
                     clock: nat -> U64, k: nat): Result<Bytes, ProtocolError>
    requires size >= 1
  {
    var n := ChunkCount(|pcm|, size);
    if k == 0 then
      EncodeMessage(StartSession.Code(), id, 0, clock(0), [], sampleRate, 0, channels)
    else if k <= n then
      EncodeMessage(AudioChunk.Code(), id, k - 1, clock(k), Chunk(pcm, size, k - 1), sampleRate,
                    0, channels)
    else
      EncodeMessage(EndSession.Code(), id, n, clock(k), [], 16000, 0, 1)
  }

  datatype Response =
    | Transcript(text: Bytes)
    | ServerError(text: Bytes)
    | Unexpected(text: Bytes)

  /** What the client makes of the one frame it reads back; text is left undecoded. */
  function Interpret(response: Bytes): Result<Response, ProtocolError> {
    match DecodeHeader(response)
    case Err(e) => Err(e)
    case Ok(h) =>
      var text := response[HEADER_SIZE..Min(HEADER_SIZE + h.payloadLength, |response|)];
      if h.msgType == AsrResult then Ok(Transcript(text))
      else if h.msgType == ErrorReply then Ok(ServerError(text))
      else Ok(Unexpected(text))
  }

  /** A frame the client can read: its type decides, and the text is what the declared length
      says, cut at the frame's end. */
  lemma InterpretWrittenOut(response: Bytes)
    ensures Interpret(response).Ok? <==> DecodeHeader(response).Ok?
    ensures DecodeHeader(response).Ok? ==>
              var (h, r) := (DecodeHeader(response).value, Interpret(response).value);
              && r.text == response[44..if 44 + h.payloadLength < |response| then 44 + h.payloadLength
                                        else |response|]
              && (r.Transcript? <==> h.msgType == AsrResult)
              && (r.ServerError? <==> h.msgType == ErrorReply)
    ensures DecodeHeader(response).Err? ==>
              Interpret(response) == Err(DecodeHeader(response).error)
  {
    hide DecodeHeader;
  }

  /** Sends the whole session, or stops at the first message that cannot be encoded. */
  method StreamUtterance(samples: seq<Sample>, frameSize: nat, id: Bytes, sampleRate: int,
                         channels: int, clock: nat -> U64)
    returns (sent: seq<Bytes>, error: Option<ProtocolError>)
    requires |id| == SESSION_ID_SIZE
    requires frameSize >= 1
    ensures var (pcm, size) := (ToBytes(samples), ChunkBytes(frameSize));
            && (forall k :: 0 <= k < |sent| ==>
                MessageAt(id, pcm, size, sampleRate, channels, clock, k) == Ok(sent[k]))
            && (error.Some? ==>
                MessageAt(id, pcm, size, sampleRate, channels, clock, |sent|) == Err(error.value))
            && (error.None? ==> |sent| == ChunkCount(|pcm|, size) + 2)
    ensures error.None? <==>
            && 0 <= sampleRate <= 0xFFFF_FFFF && 1 <= channels <= 255
            && ChunkCount(2 * |samples|, ChunkBytes(frameSize)) <= 0xFFFF_FFFF
  {
    hide Cut, ChunkCount, ToBytes, PackHeader;
    sent := [];
    var first := EncodeMessage(StartSession.Code(), id, 0, clock(|sent|), [], sampleRate, 0,
                               channels);
    if first.Err? {
      return sent, Some(first.error);
    }
    sent := sent + [first.value];
    var maxSamples := Min(frameSize, MAX_PAYLOAD_BYTES / 2);
    var pcm := ToBytes(samples);
    ghost var size, n := 2 * maxSamples, ChunkCount(|pcm|, 2 * maxSamples);
    CutStep(|pcm|, size, 0);
    var sequenceNumber := 0;
    var offset := 0;
    ChunkExists(|pcm|, size, 0);
    while offset < |pcm|
      invariant 0 <= sequenceNumber <= n && sequenceNumber <= 0x1_0000_0000
      invariant offset == Cut(|pcm|, size, sequenceNumber)
      invariant sequenceNumber < n <==> offset < |pcm|
      invariant |sent| == sequenceNumber + 1
      invariant forall k :: 0 <= k < |sent| ==>
        MessageAt(id, pcm, size, sampleRate, channels, clock, k) == Ok(sent[k])
      decreases |pcm| - offset
    {
      CutStep(|pcm|, size, sequenceNumber);
      ChunkExists(|pcm|, size, sequenceNumber + 1);
      var chunk := pcm[offset..Min(offset + maxSamples * 2, |pcm|)];
      assert chunk == Chunk(pcm, size, sequenceNumber);
      var message := EncodeMessage(AudioChunk.Code(), id, sequenceNumber, clock(|sent|), chunk,
                                   sampleRate, 0, channels);
      if message.Err? {
        return sent, Some(message.error);
      }
      sent := sent + [message.value];
      sequenceNumber := sequenceNumber + 1;
      offset := offset + |chunk|;
    }
    var last := EncodeMessage(EndSession.Code(), id, sequenceNumber, clock(|sent|), [], 16000, 0, 1);
    if last.Err? {
      return sent, Some(last.error);
    }
    sent := sent + [last.value];
    error := None;
  }

  /** What MessageAt decodes to, when it encodes and the rate is positive. */
  lemma MessageDecodes(id: Bytes, pcm: Bytes, size: nat, sampleRate: U32, channels: Byte,
                       clock: nat -> U64, k: nat)
    requires |id| == SESSION_ID_SIZE && 1 <= size <= MAX_PAYLOAD_BYTES
    requires sampleRate >= 1 && channels >= 1 && ChunkCount(|pcm|, size) <= 0xFFFF_FFFF
    requires k <= ChunkCount(|pcm|, size) + 1
    ensures var n, m := ChunkCount(|pcm|, size),
                        MessageAt(id, pcm, size, sampleRate, channels, clock, k);
            && m.Ok? && DecodeMessage(m.value).Ok?
            && var (h, payload) := DecodeMessage(m.value).value;
               && h.sessionId == id
               && |m.value| == HEADER_SIZE + |payload| <= HEADER_SIZE + size
               && h.sampleFormat == PcmS16Le && h.timestampMs == clock(k)
               && (k == 0 ==> h.sequenceNumber == 0)
               && (k == n + 1 ==> h.sequenceNumber == n && h.sampleRate == 16000 && h.channels == 1)
               && (k <= n ==> h.sampleRate == sampleRate && h.channels == channels)
               && (k == 0 ==> h.msgType == StartSession && payload == [])
               && (1 <= k <= n ==> h.msgType == AudioChunk && h.sequenceNumber == k - 1
                                   && payload == Chunk(pcm, size, k - 1))
               && (k == n + 1 ==> h.msgType == EndSession && payload == [])
  {
    var n := ChunkCount(|pcm|, size);
    if k == 0 {
      DecodeEncode(1, id, 0, clock(0), [], sampleRate, 0, channels);
    } else if k <= n {
      ChunkFits(pcm, size, k - 1);
      DecodeEncode(2, id, k - 1, clock(k), Chunk(pcm, size, k - 1), sampleRate, 0, channels);
    } else {
      DecodeEncode(3, id, n, clock(k), [], 16000, 0, 1);
    }
  }
}
