/** One connection of the audio server (server/main.py): handle_connection and
    _finalize_session. A frame, the success of each send, the clock readings and the
    recogniser are inputs of each round of the receive loop. */
module Server {
  import opened Words
  import opened Protocol
  import opened Pcm
  import opened AudioBuffers
  import opened Sessions

  datatype Config = Config(maxMessageSize: nat, maxSessionBuffer: int)

  /** What the recogniser returns or raises. */
  datatype AsrOutcome = Heard(text: Bytes) | Unavailable(reason: Bytes) | Failed(reason: Bytes)

  datatype Frame = TimedOut | PeerClosed | TextFrame | Binary(data: Bytes)

  /** One round of the loop: what recv() gives, whether the first and second send of the
      round succeed, the monotonic clock at its four readings, the wall clock, and the
      recogniser. */
  datatype Event = Event(
    frame: Frame,
    firstSend: bool,
    secondSend: bool,
    received: real,
    asrStart: real,
    asrEnd: real,
    end: real,
    wallMs: U64,
    transcribe: seq<real> -> AsrOutcome)

  datatype Reason =
    | TextUnsupported
    | MessageTooLarge
    | Malformed(cause: ProtocolError)
    | AlreadyActive
    | StartPayload
    | UnsupportedFormat
    | InvalidSession(invalid: SessionError)
    | ChunkWithoutSession
    | ChunkOfOtherSession
    | ChunkFormat
    | BufferFailure(failure: AddError)
    | EndWithoutSession
    | EndOfOtherSession
    | EndPayload
    | UnexpectedType

  /** An ERROR about the message just received, or the one answer a session gets. */
  datatype Reply =
    | Refusal(reason: Reason)
    | Answer(id: Bytes, msgType: MessageType, text: Bytes, sampleRate: int, channels: int,
             wallMs: U64)

  datatype Status = Running | Expired | Disconnected | Crashed

  function Ascii(s: string): (b: Bytes)
    ensures |b| == |s|
    ensures forall i :: 0 <= i < |s| && s[i] as int < 0x80 ==> b[i] == s[i] as int
  {
    seq(|s|, i requires 0 <= i < |s| => s[i] as int % 0x100)
  }

  /** The answer to a finalised session: the transcript of its audio, or an ERROR. */
  function AnswerTo(s: Session, ev: Event): (a: Reply)
    ensures a.Answer? && a.id == s.id
  {
    match ev.transcribe(ToFloat(Reconstruction(s.buffer)))
    case Heard(text) => Answer(s.id, AsrResult, text, s.sampleRate, s.channels, ev.wallMs)
    case Unavailable(reason) =>
      Answer(s.id, ErrorReply, Ascii("ASR unavailable: ") + reason, 16000, 1, ev.wallMs)
    case Failed(reason) =>
      Answer(s.id, ErrorReply, Ascii("ASR failed: ") + reason, 16000, 1, ev.wallMs)
  }

  /** The frame of an answer; a text over the payload limit cannot be encoded. */
  function Wire(a: Reply): Result<Bytes, ProtocolError>
    requires a.Answer?
  {
    EncodeMessage(a.msgType.Code(), a.id, 0, a.wallMs, a.text, a.sampleRate, 0, a.channels)
  }

  datatype Verdict = Refuse(reason: Reason) | Open(id: Bytes) | Take(sequence: nat, payload: Bytes) | End

  /** The checks on a binary frame, in the source's order. Its payload-limit check after
      decoding can never fire: DecodeMessage already promises the bound. */
  function Judge(cfg: Config, session: Option<Session>, data: Bytes): Verdict {
    if |data| > cfg.maxMessageSize then Refuse(MessageTooLarge)
    else match DecodeMessage(data)
      case Err(e) => Refuse(Malformed(e))
      case Ok((h, payload)) =>
        match h.msgType
        case StartSession =>
          if session.Some? then Refuse(AlreadyActive)
          else if payload != [] then Refuse(StartPayload)
          else if h.channels != 1 || h.sampleRate != 16000 then Refuse(UnsupportedFormat)
          else (match CreateError(h.sessionId, h.sampleRate, h.channels, cfg.maxSessionBuffer)
                case Some(e) => Refuse(InvalidSession(e))
                case None => Open(h.sessionId))
        case AudioChunk =>
          if session.None? then Refuse(ChunkWithoutSession)
          else if h.sessionId != session.value.id then Refuse(ChunkOfOtherSession)
          else if h.sampleRate != session.value.sampleRate || h.channels != session.value.channels
            then Refuse(ChunkFormat)
          else Take(h.sequenceNumber, payload)
        case EndSession =>
          if session.None? then Refuse(EndWithoutSession)
          else if h.sessionId != session.value.id then Refuse(EndOfOtherSession)
          else if payload != [] then Refuse(EndPayload)
          else End
        case _ => Refuse(UnexpectedType)
  }

  /** The outcome of one round: the session afterwards, the session that ended in it, what
      was sent, and whether the loop goes on. */
  datatype Round = Round(
    session: Option<Session>,
    ended: Option<Session>,
    sent: seq<Reply>,
    status: Status)

  /** ConnectionClosed reached the outer handler. */
  function Quit(session: Option<Session>, ev: Event, sent: seq<Reply>): Round {
    if session.Some? && !session.value.closed then
      Round(None, Some(Closed(session.value, ev.end)), sent, Disconnected)
    else Round(None, None, sent, Disconnected)
  }

  function RefuseRound(session: Option<Session>, reason: Reason, ev: Event): Round {
    if ev.firstSend then Round(session, None, [Refusal(reason)], Running)
    else Quit(session, ev, [])
  }

  /** _finalize_session, then the assignment of None; after is where the loop goes next. */
  function FinaliseRound(s: Session, ev: Event, sent: seq<Reply>, sendOk: bool, after: Status): Round {
    if s.closed then Round(None, None, sent, after)
    else
      var f := Finalised(s, ev.asrStart, ev.asrEnd, ev.end);
      var answer := AnswerTo(f, ev);
      if Wire(answer).Err? then Round(None, Some(f), sent, Crashed)
      else if !sendOk then Round(None, Some(f), sent, Disconnected)
      else Round(None, Some(f), sent + [answer], after)
  }

  function RoundOf(cfg: Config, session: Option<Session>, ev: Event): Round {
    match ev.frame
    case TimedOut =>
      if session.Some? then FinaliseRound(session.value, ev, [], ev.firstSend, Expired)
      else Round(None, None, [], Expired)
    case PeerClosed => Quit(session, ev, [])
    case TextFrame => RefuseRound(session, TextUnsupported, ev)
    case Binary(data) =>
      match Judge(cfg, session, data)
      case Refuse(reason) => RefuseRound(session, reason, ev)
      case Open(id) =>
        Round(Some(Created(id, 16000, 1, Max(0, cfg.maxSessionBuffer))), None, [], Running)
      case Take(sequence, payload) =>
        if session.None? then Round(session, None, [], Running)
        else (match AddChunkError(session.value, sequence, payload)
          case None =>
            Round(Some(WithChunk(session.value, sequence, payload, ev.received)), None, [], Running)
          case Some(e) =>
            if ev.firstSend then
              FinaliseRound(session.value, ev, [Refusal(BufferFailure(e))], ev.secondSend, Running)
            else Quit(session, ev, []))
      case End =>
        if session.None? then Round(session, None, [], Running)
        else FinaliseRound(session.value, ev, [], ev.firstSend, Running)
  }

  /** A connection so far: the replies sent, the ids of the sessions opened and the sessions
      ended, both in order. */
  datatype Connection = Connection(
    status: Status,
    session: Option<Session>,
    replies: seq<Reply>,
    begun: seq<Bytes>,
    done: seq<Session>)

  const FRESH := Connection(Running, None, [], [], [])

  function Next(cfg: Config, c: Connection, ev: Event): Connection {
    if c.status != Running then c
    else
      var r := RoundOf(cfg, c.session, ev);
      Connection(r.status, r.session, c.replies + r.sent,
                 c.begun + (if c.session.None? && r.session.Some? then [r.session.value.id] else []),
                 c.done + (if r.ended.Some? then [r.ended.value] else []))
  }

  function Run(cfg: Config, events: seq<Event>): Connection {
    if events == [] then FRESH
    else Next(cfg, Run(cfg, events[..|events| - 1]), events[|events| - 1])
  }

  // ------------------------------------------------------------------ safety

  /** What holds of the open session in every reachable state. */
  ghost predicate Safe(cfg: Config, s: Session) {
    && Taking(s) && s.sampleRate == 16000 && s.channels == 1 && |s.id| == SESSION_ID_SIZE
    && s.buffer.maxBytes == cfg.maxSessionBuffer
  }

  /** The frame is a request the protocol allows in this state, said without the order of
      the checks. */
  ghost predicate Allowed(cfg: Config, session: Option<Session>, data: Bytes) {
    && |data| <= cfg.maxMessageSize && DecodeMessage(data).Ok?
    && var (h, payload) := DecodeMessage(data).value;
       || (h.msgType == StartSession && session.None? && payload == []
           && h.sampleRate == 16000 && h.channels == 1 && cfg.maxSessionBuffer > 0)
       || (h.msgType == AudioChunk && session.Some? && h.sessionId == session.value.id
           && h.sampleRate == 16000 && h.channels == 1)
       || (h.msgType == EndSession && session.Some? && h.sessionId == session.value.id
           && payload == [])
  }

  /** A frame is refused exactly when it is not allowed, and an allowed one is acted on as
      its type says. */
  lemma JudgeMeaning(cfg: Config, session: Option<Session>, data: Bytes)
    requires session.Some? ==> Safe(cfg, session.value)
    ensures Judge(cfg, session, data).Refuse? <==> !Allowed(cfg, session, data)
    ensures Allowed(cfg, session, data) ==>
              var (h, payload) := DecodeMessage(data).value;
              Judge(cfg, session, data) ==
                if h.msgType == StartSession then Open(h.sessionId)
                else if h.msgType == AudioChunk then Take(h.sequenceNumber, payload)
                else End
  {
  }

  /** A frame that is not allowed leaves the session as it was and costs one ERROR; if even
      that cannot be sent, the session is closed and the connection over. */
  lemma RejectedUnchanged(cfg: Config, c: Connection, ev: Event)
    requires c.status == Running && (c.session.Some? ==> Safe(cfg, c.session.value))
    requires ev.frame == TextFrame
             || (ev.frame.Binary? && !Allowed(cfg, c.session, ev.frame.data))
    ensures var c' := Next(cfg, c, ev);
            if ev.firstSend then
              && c' == c.(replies := c'.replies)
              && exists reason :: c'.replies == c.replies + [Refusal(reason)]
            else
              && c'.status == Disconnected && c'.session.None? && c'.replies == c.replies
              && c'.begun == c.begun
              && c'.done == c.done + if c.session.None? then [] else [Closed(c.session.value, ev.end)]
  {
    var c' := Next(cfg, c, ev);
    if ev.frame.Binary? {
      JudgeMeaning(cfg, c.session, ev.frame.data);
    }
    assert c'.begun == c.begun;
    if ev.firstSend {
      var reason := if ev.frame.TextFrame? then TextUnsupported
                    else Judge(cfg, c.session, ev.frame.data).reason;
      assert c'.replies == c.replies + [Refusal(reason)];
    }
  }

  lemma JudgeSound(cfg: Config, session: Option<Session>, data: Bytes)
    ensures var v := Judge(cfg, session, data);
            && (v.Open? ==> session.None? && |v.id| == SESSION_ID_SIZE && cfg.maxSessionBuffer > 0)
            && (v.Take? || v.End? ==> session.Some?)
  {
    hide DecodeHeader;
  }

  lemma EmptyInv(cfg: Config)
    ensures Inv(Empty(Max(0, cfg.maxSessionBuffer)))
  {
  }

  lemma TakeKeepsSafe(cfg: Config, s: Session, sequence: nat, payload: Bytes, now: real)
    requires Safe(cfg, s)
    ensures Safe(cfg, WithChunk(s, sequence, payload, now))
  {
    AppendKeepsInv(s.buffer, sequence, payload);
    if AddChunkError(s, sequence, payload).None? {
      assert sequence in WithChunk(s, sequence, payload, now).buffer.chunks;
    }
  }

  lemma RoundKeepsSafe(cfg: Config, session: Option<Session>, ev: Event)
    requires session.Some? ==> Safe(cfg, session.value)
    ensures var r := RoundOf(cfg, session, ev);
            && (r.session.Some? ==> r.status == Running && Safe(cfg, r.session.value))
            && (r.ended.Some? <==> session.Some? && r.session.None?)
            && (r.ended.Some? ==> r.ended.value.closed && r.ended.value.id == session.value.id
                                  && r.ended.value.buffer == session.value.buffer)
            && (session.Some? && r.session.Some? ==> r.session.value.id == session.value.id)
  {
    hide Judge, Wire, AnswerTo, Reject, Appended, Inv;
    if ev.frame.Binary? {
      JudgeSound(cfg, session, ev.frame.data);
      EmptyInv(cfg);
      var v := Judge(cfg, session, ev.frame.data);
      if v.Take? && session.Some? {
        TakeKeepsSafe(cfg, session.value, v.sequence, v.payload, ev.received);
      }
    }
  }

  function Ids(done: seq<Session>): seq<Bytes> {
    seq(|done|, i requires 0 <= i < |done| => done[i].id)
  }

  /** In every reachable state: the open session, if any, is 16 kHz mono, open, within the
      buffer limit and accounted for; an ended connection holds none; every session opened
      has been closed exactly once, in order, or is the open one. */
  lemma {:induction false} SessionSafety(cfg: Config, events: seq<Event>)
    ensures var c := Run(cfg, events);
            && (c.session.Some? ==>
                && Safe(cfg, c.session.value) && c.status == Running
                && c.session.value.buffer.totalBytes <= cfg.maxSessionBuffer)
            && (forall s :: s in c.done ==> s.closed)
            && c.begun == Ids(c.done) + if c.session.Some? then [c.session.value.id] else []
  {
    if events != [] {
      var c := Run(cfg, events[..|events| - 1]);
      SessionSafety(cfg, events[..|events| - 1]);
      if c.status == Running {
        RoundKeepsSafe(cfg, c.session, events[|events| - 1]);
      }
    }
  }

  // ------------------------------------------------- what each round does, written out

  ghost predicate IsOfType(cfg: Config, frame: Frame, msgType: MessageType) {
    && frame.Binary? && |frame.data| <= cfg.maxMessageSize && DecodeMessage(frame.data).Ok?
    && DecodeMessage(frame.data).value.0.msgType == msgType
  }

  /** Why a frame is refused, reason by reason, without the order of the checks. */
  ghost predicate Refused(cfg: Config, session: Option<Session>, frame: Frame, reason: Reason) {
    match reason
    case TextUnsupported => frame == TextFrame
    case MessageTooLarge => frame.Binary? && |frame.data| > cfg.maxMessageSize
    case Malformed(e) =>
      frame.Binary? && |frame.data| <= cfg.maxMessageSize && DecodeMessage(frame.data) == Err(e)
    case AlreadyActive => IsOfType(cfg, frame, StartSession) && session.Some?
    case StartPayload =>
      && IsOfType(cfg, frame, StartSession) && session.None?
      && DecodeMessage(frame.data).value.1 != []
    case UnsupportedFormat =>
      && IsOfType(cfg, frame, StartSession) && session.None?
      && var (h, payload) := DecodeMessage(frame.data).value;
         payload == [] && (h.sampleRate != 16000 || h.channels != 1)
    case InvalidSession(e) =>
      && IsOfType(cfg, frame, StartSession) && session.None?
      && var (h, payload) := DecodeMessage(frame.data).value;
         && payload == [] && h.sampleRate == 16000 && h.channels == 1
         && cfg.maxSessionBuffer <= 0 && e == InvalidBufferSize
    case ChunkWithoutSession => IsOfType(cfg, frame, AudioChunk) && session.None?
    case ChunkOfOtherSession =>
      && IsOfType(cfg, frame, AudioChunk) && session.Some?
      && DecodeMessage(frame.data).value.0.sessionId != session.value.id
    case ChunkFormat =>
      && IsOfType(cfg, frame, AudioChunk) && session.Some?
      && var h := DecodeMessage(frame.data).value.0;
         h.sessionId == session.value.id && (h.sampleRate != 16000 || h.channels != 1)
    case BufferFailure(_) => false
    case EndWithoutSession => IsOfType(cfg, frame, EndSession) && session.None?
    case EndOfOtherSession =>
      && IsOfType(cfg, frame, EndSession) && session.Some?
      && DecodeMessage(frame.data).value.0.sessionId != session.value.id
    case EndPayload =>
      && IsOfType(cfg, frame, EndSession) && session.Some?
      && DecodeMessage(frame.data).value.0.sessionId == session.value.id
      && DecodeMessage(frame.data).value.1 != []
    case UnexpectedType => IsOfType(cfg, frame, ErrorReply) || IsOfType(cfg, frame, AsrResult)
  }

  lemma JudgeReason(cfg: Config, session: Option<Session>, frame: Frame, reason: Reason)
    requires frame.Binary? && (session.Some? ==> Safe(cfg, session.value))
    ensures Judge(cfg, session, frame.data) == Refuse(reason) <==> Refused(cfg, session, frame, reason)
  {
    hide DecodeHeader, Inv;
  }

  lemma TextReason(cfg: Config, session: Option<Session>, reason: Reason)
    ensures Refused(cfg, session, TextFrame, reason) <==> reason == TextUnsupported
  {
  }

  /** The one ERROR a refused frame costs names the one reason that applies. */
  lemma RefusalReason(cfg: Config, c: Connection, ev: Event, reason: Reason)
    requires c.status == Running && (c.session.Some? ==> Safe(cfg, c.session.value))
    requires ev.frame == TextFrame || (ev.frame.Binary? && !Allowed(cfg, c.session, ev.frame.data))
    requires ev.firstSend
    ensures Next(cfg, c, ev).replies == c.replies + [Refusal(reason)] <==>
            Refused(cfg, c.session, ev.frame, reason)
  {
    hide Inv, DecodeMessage, Judge, Refused, Allowed;
    var given := TextUnsupported;
    if ev.frame.Binary? {
      JudgeMeaning(cfg, c.session, ev.frame.data);
      JudgeReason(cfg, c.session, ev.frame, reason);
      given := Judge(cfg, c.session, ev.frame.data).reason;
    } else {
      TextReason(cfg, c.session, reason);
    }
    assert Next(cfg, c, ev).replies == c.replies + [Refusal(given)];
    assert (c.replies + [Refusal(reason)])[|c.replies|] == Refusal(reason);
  }

  /** What the recogniser made of the session's audio, as type and text of the answer. */
  ghost predicate Recognised(s: Session, ev: Event, kind: MessageType, text: Bytes) {
    match ev.transcribe(ToFloat(Reconstruction(s.buffer)))
    case Heard(t) => kind == AsrResult && text == t
    case Unavailable(why) => kind == ErrorReply && text == Ascii("ASR unavailable: ") + why
    case Failed(why) => kind == ErrorReply && text == Ascii("ASR failed: ") + why
  }

  /** The frame asks to end the session. */
  ghost predicate Ends(cfg: Config, s: Session, frame: Frame) {
    && frame.Binary? && |frame.data| <= cfg.maxMessageSize && DecodeMessage(frame.data).Ok?
    && var (h, payload) := DecodeMessage(frame.data).value;
       h.msgType == EndSession && h.sessionId == s.id && payload == []
  }

  /** The frame is a chunk of the session that its buffer cannot take, and why. */
  ghost predicate Overfills(cfg: Config, s: Session, frame: Frame, why: AddError) {
    && frame.Binary? && |frame.data| <= cfg.maxMessageSize && DecodeMessage(frame.data).Ok?
    && var (h, payload) := DecodeMessage(frame.data).value;
       && h.msgType == AudioChunk && h.sessionId == s.id && h.sampleRate == 16000 && h.channels == 1
       && if payload == [] then why == OfSession(EmptyChunk)
          else h.sequenceNumber !in s.buffer.chunks
               && s.buffer.totalBytes + |payload| > cfg.maxSessionBuffer
               && why == OfBuffer(Overflow)
  }

  lemma AnswerIs(s: Session, ev: Event, kind: MessageType, text: Bytes)
    requires Recognised(s, ev, kind, text) && s.sampleRate == 16000 && s.channels == 1
    ensures AnswerTo(s, ev) == Answer(s.id, kind, text, 16000, 1, ev.wallMs)
  {
    hide Reconstruction, ToFloat, Ascii;
  }

  /** An answer is encoded exactly when its text fits a message. */
  lemma AnswerEncodes(s: Session, ev: Event)
    requires s.sampleRate == 16000 && s.channels == 1 && |s.id| == SESSION_ID_SIZE
    ensures Wire(AnswerTo(s, ev)).Ok? <==> |AnswerTo(s, ev).text| <= MAX_PAYLOAD_BYTES
  {
    hide Reconstruction, ToFloat, Ascii;
  }

  /** A timeout, an END and a chunk that cannot be buffered all finalise the open session, the
      last after an ERROR about the chunk: its audio is recognised between the two ASR stamps
      of this round, it is closed with the session end of this round, and only then its answer
      goes out, unless the text does not fit or the send fails. A timeout ends the loop. */
  lemma FinalisingRound(cfg: Config, c: Connection, ev: Event, kind: MessageType, text: Bytes,
                        first: seq<Reply>, sendOk: bool, after: Status)
    requires c.status == Running && c.session.Some? && Safe(cfg, c.session.value)
    requires Recognised(c.session.value, ev, kind, text)
    requires || (ev.frame == TimedOut && first == [] && sendOk == ev.firstSend && after == Expired)
             || (Ends(cfg, c.session.value, ev.frame) && first == [] && sendOk == ev.firstSend
                 && after == Running)
             || (ev.firstSend && sendOk == ev.secondSend && after == Running
                 && exists why :: Overfills(cfg, c.session.value, ev.frame, why)
                                  && first == [Refusal(BufferFailure(why))])
    ensures var s, c' := c.session.value, Next(cfg, c, ev);
            && c'.session.None? && c'.begun == c.begun
            && c'.done == c.done + [s.(closed := true, timestamps := s.timestamps.(
                            asrStart := Some(ev.asrStart), asrEnd := Some(ev.asrEnd),
                            sessionEnd := Some(ev.end)))]
            && (if |text| > MAX_PAYLOAD_BYTES then
                  c'.status == Crashed && c'.replies == c.replies + first
                else if !sendOk then
                  c'.status == Disconnected && c'.replies == c.replies + first
                else
                  c'.status == after
                  && c'.replies == c.replies + first
                                   + [Answer(s.id, kind, text, 16000, 1, ev.wallMs)])
  {
    hide DecodeMessage, Wire, AnswerTo, Inv, Reconstruction, ToFloat, Ascii, Appended;
    var s := c.session.value;
    var f := Finalised(s, ev.asrStart, ev.asrEnd, ev.end);
    AnswerEncodes(f, ev);
    AnswerIs(f, ev, kind, text);
    assert c.replies + first + [AnswerTo(f, ev)] == c.replies + (first + [AnswerTo(f, ev)]);
  }

  /** The rounds that end a session without finalising it: the connection is lost, or is found
      lost by the ERROR about a chunk; the session is closed and not recognised or answered. An
      idle timeout only ends the loop. */
  lemma EndingRound(cfg: Config, c: Connection, ev: Event)
    requires c.status == Running && (c.session.Some? ==> Safe(cfg, c.session.value))
    ensures ev.frame == PeerClosed
            || (c.session.Some? && !ev.firstSend
                && exists why :: Overfills(cfg, c.session.value, ev.frame, why)) ==>
              Next(cfg, c, ev) == Connection(Disconnected, None, c.replies, c.begun, c.done +
                if c.session.None? then []
                else [c.session.value.(closed := true, timestamps :=
                        c.session.value.timestamps.(sessionEnd := Some(ev.end)))])
    ensures ev.frame == TimedOut && c.session.None? ==> Next(cfg, c, ev) == c.(status := Expired)
  {
    hide DecodeMessage, Inv;
  }

  /** An accepted START opens an empty session with its id; an accepted chunk is stored under
      its number unless that is taken, and stamped. Neither is answered. */
  lemma AcceptingRound(cfg: Config, c: Connection, ev: Event)
    requires c.status == Running && (c.session.Some? ==> Safe(cfg, c.session.value))
    requires ev.frame.Binary? && Allowed(cfg, c.session, ev.frame.data)
    ensures var ((h, payload), c') := (DecodeMessage(ev.frame.data).value, Next(cfg, c, ev));
            && (h.msgType == StartSession ==>
                c' == c.(session := Some(Session(h.sessionId, 16000, 1,
                           Buffer(cfg.maxSessionBuffer, map[], 0, SequenceStats(0, 0, 0, 0, 0)),
                           Timestamps(None, None, None, None, None), false)),
                         begun := c.begun + [h.sessionId]))
            && (h.msgType == AudioChunk
                && (forall why :: !Overfills(cfg, c.session.value, ev.frame, why)) ==>
                var s := c.session.value;
                && c'.session.Some? && c' == c.(session := c'.session)
                && c'.session.value.buffer.chunks ==
                   (if h.sequenceNumber in s.buffer.chunks then s.buffer.chunks
                    else s.buffer.chunks[h.sequenceNumber := payload])
                && c'.session.value == s.(
                     buffer := c'.session.value.buffer,
                     timestamps := s.timestamps.(
                       firstChunk := if s.timestamps.firstChunk.None? then Some(ev.received)
                                     else s.timestamps.firstChunk,
                       lastChunk := Some(ev.received))))
  {
    hide DecodeMessage, Inv;
    JudgeMeaning(cfg, c.session, ev.frame.data);
    var (h, payload) := DecodeMessage(ev.frame.data).value;
    if h.msgType == AudioChunk {
      assert c.begun + [] == c.begun && c.done + [] == c.done && c.replies + [] == c.replies;
      assert Overfills(cfg, c.session.value, ev.frame, OfSession(EmptyChunk)) || payload != [];
      assert Overfills(cfg, c.session.value, ev.frame, OfBuffer(Overflow))
             || h.sequenceNumber in c.session.value.buffer.chunks
             || c.session.value.buffer.totalBytes + |payload| <= cfg.maxSessionBuffer
             || payload == [];
    }
  }

  // ----------------------------------------------------- what the buffer holds

  /** The chunk a frame carries for the session id, if it is one the session may take. */
  function ChunkFor(cfg: Config, id: Bytes, frame: Frame): Option<Arrival> {
    if frame.Binary? && |frame.data| <= cfg.maxMessageSize && DecodeMessage(frame.data).Ok? then
      var (h, payload) := DecodeMessage(frame.data).value;
      if h.msgType == AudioChunk && h.sessionId == id && h.sampleRate == 16000 && h.channels == 1
      then Some(Arrival(h.sequenceNumber, payload)) else None
    else None
  }

  function ChunksFor(cfg: Config, id: Bytes, events: seq<Event>): seq<Arrival> {
    if events == [] then []
    else
      var chunk := ChunkFor(cfg, id, events[|events| - 1].frame);
      ChunksFor(cfg, id, events[..|events| - 1]) + if chunk.Some? then [chunk.value] else []
  }

  /** When the chunks a session may take were received. */
  function ChunkTimes(cfg: Config, id: Bytes, events: seq<Event>): seq<real> {
    if events == [] then []
    else
      var last := events[|events| - 1];
      ChunkTimes(cfg, id, events[..|events| - 1])
      + if ChunkFor(cfg, id, last.frame).Some? then [last.received] else []
  }

  /** The first and the last of them, and nothing else, is stamped. */
  ghost predicate StampedAt(t: Timestamps, times: seq<real>) {
    t == if times == [] then Timestamps(None, None, None, None, None)
         else Timestamps(Some(times[0]), Some(times[|times| - 1]), None, None, None)
  }

  /** k is the START that opened the session now open. */
  ghost predicate OpenedBy(cfg: Config, events: seq<Event>, k: nat, id: Bytes) {
    && k < |events|
    && Run(cfg, events[..k]).status == Running && Run(cfg, events[..k]).session.None?
    && events[k].frame.Binary? && Judge(cfg, None, events[k].frame.data) == Open(id)
  }

  lemma ChunksExtend(cfg: Config, id: Bytes, events: seq<Event>, ev: Event)
    ensures var chunk := ChunkFor(cfg, id, ev.frame);
            ChunksFor(cfg, id, events + [ev]) ==
            ChunksFor(cfg, id, events) + if chunk.Some? then [chunk.value] else []
    ensures ChunkTimes(cfg, id, events + [ev]) ==
            ChunkTimes(cfg, id, events)
            + if ChunkFor(cfg, id, ev.frame).Some? then [ev.received] else []
  {
    hide ChunkFor;
    assert (events + [ev])[..|events + [ev]| - 1] == events;
  }

  lemma NoChunksYet(cfg: Config, id: Bytes)
    requires cfg.maxSessionBuffer >= 0
    ensures ChunksFor(cfg, id, []) == [] && ChunkTimes(cfg, id, []) == []
    ensures StampedAt(NO_TIMESTAMPS, [])
    ensures AppendRun(Empty(cfg.maxSessionBuffer), []) == Empty(cfg.maxSessionBuffer)
    ensures AllAccepted(Empty(cfg.maxSessionBuffer), [])
  {
  }

  lemma OpeningRound(cfg: Config, ev: Event)
    requires RoundOf(cfg, None, ev).session.Some?
    ensures ev.frame.Binary? && cfg.maxSessionBuffer > 0
    ensures var id := RoundOf(cfg, None, ev).session.value.id;
            && Judge(cfg, None, ev.frame.data) == Open(id)
            && RoundOf(cfg, None, ev).session.value == Created(id, 16000, 1, cfg.maxSessionBuffer)
  {
    hide DecodeMessage;
  }

  /** What one round does to the buffer of a session that stays open. */
  lemma RoundBuffer(cfg: Config, s: Session, ev: Event, s': Session)
    requires Safe(cfg, s) && RoundOf(cfg, Some(s), ev).session == Some(s')
    ensures match ChunkFor(cfg, s.id, ev.frame)
            case None => s'.buffer == s.buffer
            case Some(a) =>
              && Reject(s.buffer, a.sequence, a.payload).None?
              && s'.buffer == Appended(s.buffer, a.sequence, a.payload)
  {
    hide DecodeMessage, Appended, Inv, Finalised, AnswerTo, Wire;
  }

  /** What one round does to the stamps of a session that stays open. */
  lemma StampStep(cfg: Config, s: Session, ev: Event, s': Session, times: seq<real>)
    requires Safe(cfg, s) && RoundOf(cfg, Some(s), ev).session == Some(s')
    requires StampedAt(s.timestamps, times)
    ensures StampedAt(s'.timestamps, times +
              if ChunkFor(cfg, s.id, ev.frame).Some? then [ev.received] else [])
  {
    hide DecodeMessage, Appended, Inv, Finalised, AnswerTo, Wire, Reject;
    assert times + [] == times;
  }

  lemma BufferStep(cfg: Config, s: Session, ev: Event, s': Session, chunks: seq<Arrival>)
    requires Safe(cfg, s) && RoundOf(cfg, Some(s), ev).session == Some(s')
    requires s.buffer == AppendRun(Empty(cfg.maxSessionBuffer), chunks)
    requires AllAccepted(Empty(cfg.maxSessionBuffer), chunks)
    ensures var chunk := ChunkFor(cfg, s.id, ev.frame);
            var all := chunks + if chunk.Some? then [chunk.value] else [];
            && s'.buffer == AppendRun(Empty(cfg.maxSessionBuffer), all)
            && AllAccepted(Empty(cfg.maxSessionBuffer), all)
  {
    hide RoundOf, ChunkFor, Reject, Appended, AllAccepted;
    RoundBuffer(cfg, s, ev, s');
    var chunk := ChunkFor(cfg, s.id, ev.frame);
    if chunk.Some? {
      var all := chunks + [chunk.value];
      assert all[..|all| - 1] == chunks;
      AcceptedExtend(Empty(cfg.maxSessionBuffer), all);
    } else {
      assert chunks + [] == chunks;
    }
  }

  /** The open session's buffer is exactly the run of the matching chunks that came after
      its START, all of them accepted: for each sequence number the payload that came
      first. */
  lemma {:induction false} BufferHolds(cfg: Config, events: seq<Event>) returns (k: nat)
    requires Run(cfg, events).session.Some?
    ensures OpenedBy(cfg, events, k, Run(cfg, events).session.value.id)
    ensures var s := Run(cfg, events).session.value;
            var chunks := ChunksFor(cfg, s.id, events[k + 1..]);
            && s.buffer == AppendRun(Empty(cfg.maxSessionBuffer), chunks)
            && AllAccepted(Empty(cfg.maxSessionBuffer), chunks)
            && IsFirstWins(Empty(cfg.maxSessionBuffer), chunks, s.buffer.chunks)
            && StampedAt(s.timestamps, ChunkTimes(cfg, s.id, events[k + 1..]))
  {
    hide RoundOf, Judge, ChunkFor, ChunksFor, ChunkTimes, Safe, IsFirstWins, AllAccepted, AppendRun,
         StampedAt;
    var n := |events| - 1;
    var init, ev := events[..n], events[n];
    var c := Run(cfg, init);
    var s := Run(cfg, events).session.value;
    SessionSafety(cfg, init);
    if c.session.Some? {
      k := BufferHolds(cfg, init);
      RoundKeepsSafe(cfg, c.session, ev);
      assert events[..k] == init[..k];
      BufferStep(cfg, c.session.value, ev, s, ChunksFor(cfg, s.id, init[k + 1..]));
      assert events[k + 1..] == init[k + 1..] + [ev];
      ChunksExtend(cfg, s.id, init[k + 1..], ev);
      StampStep(cfg, c.session.value, ev, s, ChunkTimes(cfg, s.id, init[k + 1..]));
    } else {
      k := n;
      OpeningRound(cfg, ev);
      assert events[k + 1..] == [];
      NoChunksYet(cfg, s.id);
    }
    FirstWins(cfg.maxSessionBuffer, ChunksFor(cfg, s.id, events[k + 1..]));
  }

  // ------------------------------------------------------------- conservation

  function Answers(replies: seq<Reply>): seq<Reply> {
    if replies == [] then []
    else
      var last := replies[|replies| - 1];
      Answers(replies[..|replies| - 1]) + if last.Answer? then [last] else []
  }

  lemma {:induction false} AnswersConcat(a: seq<Reply>, b: seq<Reply>)
    ensures Answers(a + b) == Answers(a) + Answers(b)
  {
    if b == [] {
      assert a + b == a;
    } else {
      var n := |b| - 1;
      AnswersConcat(a, b[..n]);
      assert (a + b)[..|a + b| - 1] == a + b[..n];
    }
  }

  lemma ShortAnswers(sent: seq<Reply>)
    ensures sent == [] ==> Answers(sent) == []
    ensures |sent| == 1 ==> Answers(sent) == if sent[0].Answer? then sent else []
    ensures |sent| == 2 && !sent[0].Answer? ==>
              Answers(sent) == if sent[1].Answer? then [sent[1]] else []
  {
    if |sent| == 2 { ShortAnswers(sent[..1]); }
  }

  /** The session ended by a finalisation, not by a lost connection: recognition is over. */
  predicate Finished(s: Session) {
    s.timestamps.asrEnd.Some?
  }

  function Finalisations(done: seq<Session>): nat {
    if done == [] then 0
    else Finalisations(done[..|done| - 1]) + if Finished(done[|done| - 1]) then 1 else 0
  }

  /** Round k of the run ended its i-th session. */
  ghost predicate EndedAt(cfg: Config, events: seq<Event>, k: nat, i: nat) {
    && k < |events|
    && |Run(cfg, events[..k]).done| == i && |Run(cfg, events[..k + 1]).done| == i + 1
  }

  /** The i-th answer is for the i-th session's own audio, by the recogniser and the clock of
      the round that ended it. */
  ghost predicate AnsweredAt(cfg: Config, events: seq<Event>, k: nat, i: nat) {
    var c := Run(cfg, events);
    && EndedAt(cfg, events, k, i) && i < |Answers(c.replies)| && i < |c.done|
    && Answers(c.replies)[i] == AnswerTo(c.done[i], events[k])
  }

  ghost predicate Answered(cfg: Config, events: seq<Event>, i: nat) {
    exists k: nat :: AnsweredAt(cfg, events, k, i)
  }

  /** Every session ended has its answer, save perhaps the last. */
  ghost predicate Counted(c: Connection) {
    var n := |Answers(c.replies)|;
    && n <= Finalisations(c.done) <= |c.done| <= n + 1
    && (c.status in {Running, Expired} ==> n == |c.done|)
  }

  ghost predicate InStep(cfg: Config, events: seq<Event>) {
    var c := Run(cfg, events);
    && Counted(c)
    && (forall i :: 0 <= i < |Answers(c.replies)| ==> Answered(cfg, events, i))
  }

  /** The two ways the open session can end. */
  lemma Endings(cfg: Config, s: Session, ev: Event)
    requires Safe(cfg, s)
    ensures var f := Finalised(s, ev.asrStart, ev.asrEnd, ev.end);
            && !s.closed && Finished(f) && !Finished(Closed(s, ev.end))
            && (Wire(AnswerTo(f, ev)).Ok? <==> |AnswerTo(f, ev).text| <= MAX_PAYLOAD_BYTES)
  {
    hide Wire, AnswerTo, Inv;
    AnswerEncodes(Finalised(s, ev.asrStart, ev.asrEnd, ev.end), ev);
  }

  /** What a round answers: the session it finalised, unless the loop broke off; it crashes
      exactly when the text of that answer does not fit a message. */
  lemma RoundAnswers(cfg: Config, session: Option<Session>, ev: Event)
    requires session.Some? ==> Safe(cfg, session.value)
    ensures var r := RoundOf(cfg, session, ev);
            var finalised := r.ended.Some? && Finished(r.ended.value);
            && (r.status == Crashed <==>
                finalised && |AnswerTo(r.ended.value, ev).text| > MAX_PAYLOAD_BYTES)
            && Answers(r.sent) == (if finalised && r.status in {Running, Expired}
                                   then [AnswerTo(r.ended.value, ev)] else [])
            && (r.ended.Some? && !finalised ==> r.status == Disconnected)
            && (finalised && ev.firstSend && ev.secondSend ==> r.status != Disconnected)
  {
    hide Judge, Wire, AnswerTo, Answers, WithChunk, AddChunkError, Finalised, Closed, Safe, Finished;
    ShortAnswers(RoundOf(cfg, session, ev).sent);
    if session.Some? { Endings(cfg, session.value, ev); }
  }

  lemma DoneExtend(done: seq<Session>, ended: Option<Session>)
    ensures Finalisations(done + if ended.Some? then [ended.value] else []) ==
            Finalisations(done) + if ended.Some? && Finished(ended.value) then 1 else 0
  {
    if ended.Some? {
      assert (done + [ended.value])[..|done|] == done;
    } else {
      assert done + [] == done;
    }
  }

  /** The last round of a run, as far as answers go. */
  lemma LastRound(cfg: Config, events: seq<Event>)
    requires events != []
    ensures var n := |events| - 1;
            var c, c' := Run(cfg, events[..n]), Run(cfg, events);
            if c.status != Running then c' == c
            else
              var r := RoundOf(cfg, c.session, events[n]);
              && c'.status == r.status
              && c'.done == c.done + (if r.ended.Some? then [r.ended.value] else [])
              && c'.replies == c.replies + r.sent
              && Answers(c'.replies) == Answers(c.replies) + Answers(r.sent)
              && Finalisations(c'.done) ==
                 Finalisations(c.done) + if r.ended.Some? && Finished(r.ended.value) then 1 else 0
  {
    hide RoundOf, Answers, Finished, Finalisations;
    var c := Run(cfg, events[..|events| - 1]);
    var r := RoundOf(cfg, c.session, events[|events| - 1]);
    AnswersConcat(c.replies, r.sent);
    DoneExtend(c.done, r.ended);
  }

  lemma AnsweredExtend(cfg: Config, events: seq<Event>, i: nat)
    requires events != [] && Answered(cfg, events[..|events| - 1], i)
    ensures Answered(cfg, events, i)
  {
    hide RoundOf, AnswerTo, Answers;
    var init := events[..|events| - 1];
    var k: nat :| AnsweredAt(cfg, init, k, i);
    assert init[..k] == events[..k] && init[..k + 1] == events[..k + 1];
    LastRound(cfg, events);
    assert AnsweredAt(cfg, events, k, i);
  }

  /** An answer sent in the last round is for the session that round ended. */
  lemma LastAnswered(cfg: Config, events: seq<Event>)
    requires events != []
    requires var c := Run(cfg, events[..|events| - 1]);
             && c.status == Running && (c.session.Some? ==> Safe(cfg, c.session.value))
             && |Answers(c.replies)| == |c.done|
             && |Answers(Run(cfg, events).replies)| > |c.done|
    ensures Answered(cfg, events, |Run(cfg, events[..|events| - 1]).done|)
    ensures |Answers(Run(cfg, events).replies)| == |Run(cfg, events[..|events| - 1]).done| + 1
  {
    hide RoundOf, Safe, Answers, AnswerTo;
    var n := |events| - 1;
    assert events[..n + 1] == events;
    LastRound(cfg, events);
    RoundAnswers(cfg, Run(cfg, events[..n]).session, events[n]);
    assert AnsweredAt(cfg, events, n, |Run(cfg, events[..n]).done|);
  }

  lemma NothingAnswered(cfg: Config)
    ensures var c := Run(cfg, []);
            c.status == Running && Answers(c.replies) == [] && Finalisations(c.done) == |c.done| == 0
  {
  }

  lemma {:induction false} AnswersCounted(cfg: Config, events: seq<Event>)
    ensures Counted(Run(cfg, events))
  {
    if events != [] {
      hide Run, RoundOf, Safe, Answers, AnswerTo, Finished, Finalisations;
      var n := |events| - 1;
      AnswersCounted(cfg, events[..n]);
      SessionSafety(cfg, events[..n]);
      LastRound(cfg, events);
      var c := Run(cfg, events[..n]);
      if c.status == Running { RoundAnswers(cfg, c.session, events[n]); }
    } else {
      NothingAnswered(cfg);
    }
  }

  /** In every run the answers sent are, in order, those of the sessions ended, each for that
      session's own audio in the round that ended it. Only the last may be missing, and only
      because the connection was lost or the text could not be encoded. */
  lemma {:induction false} AnswersMatchSessions(cfg: Config, events: seq<Event>)
    ensures InStep(cfg, events)
  {
    hide Run, RoundOf, Safe, Answers, AnswerTo, Answered, Finished, Finalisations;
    AnswersCounted(cfg, events);
    if events != [] {
      var init := events[..|events| - 1];
      AnswersMatchSessions(cfg, init);
      SessionSafety(cfg, init);
      LastRound(cfg, events);
      forall i | 0 <= i < |Answers(Run(cfg, events).replies)| ensures Answered(cfg, events, i) {
        if i < |Answers(Run(cfg, init).replies)| {
          AnsweredExtend(cfg, events, i);
        } else {
          LastAnswered(cfg, events);
        }
      }
    } else {
      NothingAnswered(cfg);
    }
  }

  /** How many events of the run were refused outright, and how many matching chunks could
      not be buffered. */
  function Rejections(cfg: Config, events: seq<Event>): nat {
    if events == [] then 0
    else
      var (c, frame) := (Run(cfg, events[..|events| - 1]), events[|events| - 1].frame);
      Rejections(cfg, events[..|events| - 1]) +
      if c.status == Running
         && (frame == TextFrame || (frame.Binary? && Judge(cfg, c.session, frame.data).Refuse?))
      then 1 else 0
  }

  function BufferFailures(cfg: Config, events: seq<Event>): nat {
    if events == [] then 0
    else
      var (c, frame) := (Run(cfg, events[..|events| - 1]), events[|events| - 1].frame);
      BufferFailures(cfg, events[..|events| - 1]) +
      if c.status == Running && c.session.Some? && ChunkFor(cfg, c.session.value.id, frame).Some?
         && var a := ChunkFor(cfg, c.session.value.id, frame).value;
            AddChunkError(c.session.value, a.sequence, a.payload).Some?
      then 1 else 0
  }

  ghost predicate SendsSucceed(events: seq<Event>) {
    forall ev :: ev in events ==> ev.firstSend && ev.secondSend
  }

  ghost predicate TextFitsAt(cfg: Config, events: seq<Event>, k: nat)
    requires k < |events|
  {
    var c := Run(cfg, events[..k]);
    var ended := RoundOf(cfg, c.session, events[k]).ended;
    c.status == Running && ended.Some? && Finished(ended.value) ==>
      |AnswerTo(ended.value, events[k]).text| <= MAX_PAYLOAD_BYTES
  }

  /** Every answer the run comes to has a text that fits a message. */
  ghost predicate TextsFit(cfg: Config, events: seq<Event>) {
    forall k :: 0 <= k < |events| ==> TextFitsAt(cfg, events, k)
  }

  lemma TextsFitExtend(cfg: Config, events: seq<Event>)
    requires events != []
    ensures var n := |events| - 1;
            TextsFit(cfg, events) <==> TextsFit(cfg, events[..n]) && TextFitsAt(cfg, events, n)
  {
    hide Run, RoundOf, AnswerTo;
    var n := |events| - 1;
    forall k | 0 <= k < n ensures TextFitsAt(cfg, events, k) <==> TextFitsAt(cfg, events[..n], k) {
      assert events[..n][..k] == events[..k];
    }
  }

  /** The handler crashes exactly when some answer of the run does not fit a message. */
  lemma {:induction false} CrashedExactly(cfg: Config, events: seq<Event>)
    ensures Run(cfg, events).status == Crashed <==> !TextsFit(cfg, events)
  {
    if events != [] {
      hide RoundOf, AnswerTo, Safe, TextsFit;
      var n := |events| - 1;
      CrashedExactly(cfg, events[..n]);
      SessionSafety(cfg, events[..n]);
      TextsFitExtend(cfg, events);
      RoundAnswers(cfg, Run(cfg, events[..n]).session, events[n]);
    }
  }

  lemma ConservationRound(cfg: Config, session: Option<Session>, ev: Event)
    requires session.Some? ==> Safe(cfg, session.value)
    requires ev.firstSend && ev.secondSend
    ensures var r := RoundOf(cfg, session, ev);
            |r.sent| ==
              (if ev.frame == TextFrame
                  || (ev.frame.Binary? && Judge(cfg, session, ev.frame.data).Refuse?) then 1 else 0)
              + (if session.Some? && ChunkFor(cfg, session.value.id, ev.frame).Some?
                    && var a := ChunkFor(cfg, session.value.id, ev.frame).value;
                       AddChunkError(session.value, a.sequence, a.payload).Some? then 1 else 0)
              + |Answers(r.sent)|
  {
    hide DecodeMessage, Wire, AnswerTo, Answers;
    ShortAnswers(RoundOf(cfg, session, ev).sent);
    if ev.frame.Binary? { JudgeMeaning(cfg, session, ev.frame.data); }
  }

  /** With sends succeeding, every finalisation emits one answer and every reply of the run is
      a rejection, a buffer failure or the answer of a finalisation, however the run ends. The
      one exception is exact: an answer that does not fit crashes the handler and is not sent. */
  lemma {:induction false} ReplyConservation(cfg: Config, events: seq<Event>)
    requires SendsSucceed(events)
    ensures var c := Run(cfg, events);
            var unsent := if TextsFit(cfg, events) then 0 else 1;
            && |Answers(c.replies)| == Finalisations(c.done) - unsent
            && |c.replies| == Rejections(cfg, events) + BufferFailures(cfg, events)
                              + Finalisations(c.done) - unsent
  {
    CrashedExactly(cfg, events);
    if events != [] {
      hide RoundOf, AnswerTo, Safe, Answers, Finished, Finalisations, TextsFit, Judge, ChunkFor;
      var n := |events| - 1;
      var init, ev := events[..n], events[n];
      assert ev in events;
      forall e | e in init ensures e in events {}
      ReplyConservation(cfg, init);
      CrashedExactly(cfg, init);
      SessionSafety(cfg, init);
      var c := Run(cfg, init);
      if c.status == Running {
        ConservationRound(cfg, c.session, ev);
        RoundAnswers(cfg, c.session, ev);
        LastRound(cfg, events);
      }
    } else {
      NothingAnswered(cfg);
    }
  }

  // --------------------------------------------------------------- timestamps

  /** The readings of a monotonic clock over the run. */
  ghost predicate Monotone(events: seq<Event>) {
    && (forall i :: 0 <= i < |events| ==>
        events[i].received <= events[i].asrStart <= events[i].asrEnd <= events[i].end)
    && (forall i :: 0 < i < |events| ==> events[i - 1].end <= events[i].received)
  }

  lemma StampRound(cfg: Config, s: Session, ev: Event, before: real)
    requires Safe(cfg, s) && Ordered(s.timestamps, before)
    requires before <= ev.received <= ev.asrStart <= ev.asrEnd <= ev.end
    ensures var r := RoundOf(cfg, Some(s), ev);
            && (r.session.Some? ==> Ordered(r.session.value.timestamps, ev.end))
            && (r.ended.Some? ==>
                && r.ended.value.timestamps.sessionEnd == Some(ev.end)
                && Ordered(r.ended.value.timestamps, ev.end))
  {
    hide Judge, Wire, AnswerTo, Inv, WithChunk, AddChunkError;
    FinalisedIsOrdered(s, before, ev.asrStart, ev.asrEnd, ev.end);
    if ev.frame.Binary? {
      var v := Judge(cfg, Some(s), ev.frame.data);
      JudgeSound(cfg, Some(s), ev.frame.data);
      if v.Take? { AddChunkKeepsTaking(s, v.sequence, v.payload, before, ev.received); }
    }
  }

  /** Under a monotonic clock the stamps of every session, open or ended, are in order. */
  lemma {:induction false} TimestampsOrdered(cfg: Config, events: seq<Event>)
    requires Monotone(events)
    ensures var c := Run(cfg, events);
            && (c.session.Some? && events != [] ==>
                Ordered(c.session.value.timestamps, events[|events| - 1].end))
            && (forall s :: s in c.done ==>
                s.timestamps.sessionEnd.Some?
                && Ordered(s.timestamps, s.timestamps.sessionEnd.value))
  {
    if events != [] {
      var n := |events| - 1;
      var init, ev := events[..n], events[n];
      hide RoundOf, Ordered, Safe;
      TimestampsOrdered(cfg, init);
      SessionSafety(cfg, init);
      var c := Run(cfg, init);
      if c.status == Running && c.session.Some? {
        assert n > 0 by { assert n == 0 ==> init == []; }
        assert events[n - 1] == init[n - 1];
        StampRound(cfg, c.session.value, ev, events[n - 1].end);
      }
    }
  }
}
