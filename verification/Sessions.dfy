/** One utterance on the server (server/session.py): its buffer, its timestamps and
    whether it is closed. Clock readings are parameters. */
module Sessions {
  import opened Words
  import opened AudioBuffers

  datatype Timestamps = Timestamps(
    firstChunk: Option<real>,
    lastChunk: Option<real>,
    asrStart: Option<real>,
    asrEnd: Option<real>,
    sessionEnd: Option<real>)

  const NO_TIMESTAMPS := Timestamps(None, None, None, None, None)

  datatype Session = Session(
    id: Bytes,
    sampleRate: int,
    channels: int,
    buffer: Buffer,
    timestamps: Timestamps,
    closed: bool)

  datatype SessionError =
    | InvalidSessionId
    | InvalidSampleRate
    | InvalidChannelCount
    | InvalidBufferSize
    | SessionClosed
    | EmptyChunk

  /** What add_chunk may raise: its own error, or the buffer's, passed through. */
  datatype AddError = OfSession(session: SessionError) | OfBuffer(buffer: AppendError)

  function CreateError(id: Bytes, sampleRate: int, channels: int, maxBytes: int): Option<SessionError> {
    if |id| != 16 then Some(InvalidSessionId)
    else if sampleRate <= 0 then Some(InvalidSampleRate)
    else if channels <= 0 then Some(InvalidChannelCount)
    else if maxBytes <= 0 then Some(InvalidBufferSize)
    else None
  }

  function Created(id: Bytes, sampleRate: int, channels: int, maxBytes: nat): Session {
    Session(id, sampleRate, channels, Empty(maxBytes), NO_TIMESTAMPS, false)
  }

  function AddChunkError(s: Session, sequence: int, payload: Bytes): Option<AddError> {
    if s.closed then Some(OfSession(SessionClosed))
    else if payload == [] then Some(OfSession(EmptyChunk))
    else match Reject(s.buffer, sequence, payload)
         case Some(e) => Some(OfBuffer(e))
         case None => None
  }

  function WithChunk(s: Session, sequence: int, payload: Bytes, now: real): Session {
    if AddChunkError(s, sequence, payload).Some? then s
    else s.(buffer := Appended(s.buffer, sequence, payload),
            timestamps := s.timestamps.(
              firstChunk := if s.timestamps.firstChunk.None? then Some(now)
                            else s.timestamps.firstChunk,
              lastChunk := Some(now)))
  }

  function AsrStarted(s: Session, now: real): Session {
    if s.timestamps.asrStart.Some? then s
    else s.(timestamps := s.timestamps.(asrStart := Some(now)))
  }

  function AsrEnded(s: Session, now: real): Session {
    if s.timestamps.asrEnd.Some? then s
    else s.(timestamps := s.timestamps.(asrEnd := Some(now)))
  }

  function Closed(s: Session, now: real): Session {
    if s.closed then s
    else s.(closed := true, timestamps := s.timestamps.(sessionEnd := Some(now)))
  }

  predicate Before(a: Option<real>, b: Option<real>) {
    a.Some? && b.Some? ==> a.value <= b.value
  }

  /** The stamps that are set come in the order first chunk, last chunk, ASR start, ASR end,
      session end, and none lies after now. */
  ghost predicate Ordered(t: Timestamps, now: real) {
    && Before(t.firstChunk, t.lastChunk) && Before(t.firstChunk, t.asrStart)
    && Before(t.firstChunk, t.asrEnd) && Before(t.firstChunk, t.sessionEnd)
    && Before(t.lastChunk, t.asrStart) && Before(t.lastChunk, t.asrEnd)
    && Before(t.lastChunk, t.sessionEnd)
    && Before(t.asrStart, t.asrEnd) && Before(t.asrStart, t.sessionEnd)
    && Before(t.asrEnd, t.sessionEnd)
    && Before(t.firstChunk, Some(now)) && Before(t.lastChunk, Some(now))
    && Before(t.asrStart, Some(now)) && Before(t.asrEnd, Some(now))
    && Before(t.sessionEnd, Some(now))
  }

  /** A session still taking chunks: nothing after the last chunk is stamped. */
  ghost predicate Taking(s: Session) {
    && !s.closed && Inv(s.buffer)
    && s.timestamps.asrStart.None? && s.timestamps.asrEnd.None? && s.timestamps.sessionEnd.None?
    && (s.timestamps.firstChunk.Some? <==> s.timestamps.lastChunk.Some?)
    && (s.timestamps.firstChunk.Some? <==> s.buffer.chunks != map[])
  }

  /** add_chunk keeps an open session open and its stamps ordered under a clock that does
      not go back; it keeps identity and format, and refusing keeps everything. */
  lemma AddChunkKeepsTaking(s: Session, sequence: int, payload: Bytes, before: real, now: real)
    requires Taking(s) && Ordered(s.timestamps, before) && before <= now
    ensures var s' := WithChunk(s, sequence, payload, now);
            && Taking(s') && Ordered(s'.timestamps, now)
            && s'.id == s.id && s'.sampleRate == s.sampleRate && s'.channels == s.channels
            && s'.buffer.maxBytes == s.buffer.maxBytes
            && (AddChunkError(s, sequence, payload).Some? ==> s' == s)
  {
    AppendKeepsInv(s.buffer, sequence, payload);
    if AddChunkError(s, sequence, payload).None? && sequence !in s.buffer.chunks {
      assert sequence in WithChunk(s, sequence, payload, now).buffer.chunks;
    }
  }

  /** The whole of a finalisation: ASR start, ASR end, close. */
  function Finalised(s: Session, asrStart: real, asrEnd: real, end: real): Session {
    Closed(AsrEnded(AsrStarted(s, asrStart), asrEnd), end)
  }

  /** latency_report(), in milliseconds; the two constant entries are left out. */
  datatype LatencyReport = LatencyReport(
    audioStreamDuration: real,
    serverProcessingDelay: real,
    asrDuration: real,
    totalSessionDuration: real,
    sequenceStats: SequenceStats)

  function Elapsed(a: Option<real>, b: Option<real>): real {
    if a.Some? && b.Some? then (b.value - a.value) * 1000.0 else 0.0
  }

  function Report(s: Session): LatencyReport {
    LatencyReport(
      Elapsed(s.timestamps.firstChunk, s.timestamps.lastChunk),
      Elapsed(s.timestamps.firstChunk, s.timestamps.asrStart),
      Elapsed(s.timestamps.asrStart, s.timestamps.asrEnd),
      Elapsed(s.timestamps.firstChunk, s.timestamps.sessionEnd),
      s.buffer.stats)
  }

  /** Finalising an open session orders all its stamps, and the report adds up: no delay is
      negative, and streaming, waiting and ASR all fit in the total. */
  lemma FinalisedIsOrdered(s: Session, before: real, asrStart: real, asrEnd: real, end: real)
    requires Taking(s) && Ordered(s.timestamps, before)
    requires before <= asrStart <= asrEnd <= end
    ensures var f := Finalised(s, asrStart, asrEnd, end);
            && f.closed && Ordered(f.timestamps, end)
            && f.timestamps.asrStart.Some? && f.timestamps.asrEnd.Some?
            && f.timestamps.sessionEnd.Some?
            && f.buffer == s.buffer && f.id == s.id
    ensures var r := Report(Finalised(s, asrStart, asrEnd, end));
            && 0.0 <= r.audioStreamDuration <= r.serverProcessingDelay <= r.totalSessionDuration
            && 0.0 <= r.asrDuration
            && (s.buffer.chunks != map[] ==>
                r.serverProcessingDelay + r.asrDuration <= r.totalSessionDuration)
  {
  }

  /** The report of a finalised session, in milliseconds: from the first chunk to the last,
      to the ASR start and to the session end, and between the two ASR stamps. */
  lemma ReportWrittenOut(s: Session, asrStart: real, asrEnd: real, end: real)
    requires Taking(s)
    ensures var (t, r) := (s.timestamps, Report(Finalised(s, asrStart, asrEnd, end)));
            && r.sequenceStats == s.buffer.stats
            && r.asrDuration == (asrEnd - asrStart) * 1000.0
            && (if t.firstChunk.Some? then
                  && r.audioStreamDuration == (t.lastChunk.value - t.firstChunk.value) * 1000.0
                  && r.serverProcessingDelay == (asrStart - t.firstChunk.value) * 1000.0
                  && r.totalSessionDuration == (end - t.firstChunk.value) * 1000.0
                else
                  && r.audioStreamDuration == 0.0 && r.serverProcessingDelay == 0.0
                  && r.totalSessionDuration == 0.0)
  {
  }

  class ServerSession {
    const sessionId: Bytes
    const sampleRate: int
    const channels: int
    const buffer: AudioBuffer
    var timestamps: Timestamps
    var closed: bool

    constructor (sessionId: Bytes, sampleRate: int, channels: int, maxBytes: nat)
      ensures fresh(buffer)
      ensures Value() == Created(sessionId, sampleRate, channels, maxBytes)
    {
      this.sessionId := sessionId;
      this.sampleRate := sampleRate;
      this.channels := channels;
      this.buffer := new AudioBuffer(maxBytes);
      timestamps := NO_TIMESTAMPS;
      closed := false;
    }

    ghost function Value(): Session
      reads this, buffer
    {
      Session(sessionId, sampleRate, channels, buffer.Value(), timestamps, closed)
    }

    method AddChunk(sequence: int, payload: Bytes, now: real) returns (error: Option<AddError>)
      modifies this, buffer
      ensures error == AddChunkError(old(Value()), sequence, payload)
      ensures Value() == WithChunk(old(Value()), sequence, payload, now)
      ensures old(closed) ==> error == Some(OfSession(SessionClosed))
      ensures !old(closed) && payload == [] ==> error == Some(OfSession(EmptyChunk))
      ensures error.Some? ==> Value() == old(Value())
      ensures error.None? ==>
                && timestamps.firstChunk == (if old(timestamps).firstChunk.None? then Some(now)
                                             else old(timestamps).firstChunk)
                && timestamps.lastChunk == Some(now)
                && timestamps.(firstChunk := None, lastChunk := None)
                   == old(timestamps).(firstChunk := None, lastChunk := None)
                && !closed && payload != []
    {
      if closed {
        return Some(OfSession(SessionClosed));
      }
      if payload == [] {
        return Some(OfSession(EmptyChunk));
      }
      var refused := buffer.Append(sequence, payload);
      if refused.Some? {
        return Some(OfBuffer(refused.value));
      }
      if timestamps.firstChunk.None? {
        timestamps := timestamps.(firstChunk := Some(now));
      }
      timestamps := timestamps.(lastChunk := Some(now));
      return None;
    }

    method ReconstructAudio() returns (audio: Bytes)
      requires Inv(Value().buffer)
      ensures audio == Reconstruction(Value().buffer)
    {
      audio := buffer.Reconstruct();
    }

    method MarkAsrStart(now: real)
      modifies this
      ensures Value() == AsrStarted(old(Value()), now) && closed == old(closed)
      ensures timestamps == old(timestamps).(asrStart :=
                if old(timestamps).asrStart.None? then Some(now) else old(timestamps).asrStart)
    {
      if timestamps.asrStart.None? {
        timestamps := timestamps.(asrStart := Some(now));
      }
    }

    method MarkAsrEnd(now: real)
      modifies this
      ensures Value() == AsrEnded(old(Value()), now) && closed == old(closed)
      ensures timestamps == old(timestamps).(asrEnd :=
                if old(timestamps).asrEnd.None? then Some(now) else old(timestamps).asrEnd)
    {
      if timestamps.asrEnd.None? {
        timestamps := timestamps.(asrEnd := Some(now));
      }
    }

    method Close(now: real)
      modifies this
      ensures Value() == Closed(old(Value()), now) && closed
      ensures timestamps == if old(closed) then old(timestamps)
                            else old(timestamps).(sessionEnd := Some(now))
    {
      if closed {
        return;
      }
      closed := true;
      timestamps := timestamps.(sessionEnd := Some(now));
    }
  }

  /** Construction with the source's checks, in its order. */
  method NewSession(id: Bytes, sampleRate: int, channels: int, maxBytes: int)
    returns (session: ServerSession?, error: Option<SessionError>)
    ensures error == CreateError(id, sampleRate, channels, maxBytes)
    ensures error == if |id| != 16 then Some(InvalidSessionId)
                     else if sampleRate <= 0 then Some(InvalidSampleRate)
                     else if channels <= 0 then Some(InvalidChannelCount)
                     else if maxBytes <= 0 then Some(InvalidBufferSize)
                     else None
    ensures error.Some? <==> session == null
    ensures session != null ==>
              && fresh(session) && fresh(session.buffer)
              && session.Value() == Created(id, sampleRate, channels, maxBytes)
              && session.sessionId == id && session.sampleRate == sampleRate
              && session.channels == channels && !session.closed
              && session.timestamps == Timestamps(None, None, None, None, None)
              && session.buffer.Value() ==
                 Buffer(maxBytes, map[], 0, SequenceStats(0, 0, 0, 0, 0))
  {
    if |id| != 16 {
      return null, Some(InvalidSessionId);
    }
    if sampleRate <= 0 {
      return null, Some(InvalidSampleRate);
    }
    if channels <= 0 {
      return null, Some(InvalidChannelCount);
    }
    if maxBytes <= 0 {
      return null, Some(InvalidBufferSize);
    }
    session := new ServerSession(id, sampleRate, channels, maxBytes);
    error := None;
  }
}
