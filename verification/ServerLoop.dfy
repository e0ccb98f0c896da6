/** The code of one connection, on session objects: each round of the receive loop and the
    loop itself compute the specification in module Server. */
module ServerLoop {
  import opened Words
  import opened Protocol
  import opened Pcm
  import opened AudioBuffers
  import opened Sessions
  import opened Server

  ghost function ValueOf(session: ServerSession?): Option<Session>
    reads if session == null then {} else {session, session.buffer}
  {
    if session == null then None else Some(session.Value())
  }

  ghost function ValuesOf(done: seq<ServerSession>): seq<Session>
    reads done, set s | s in done :: s.buffer
  {
    seq(|done|, i requires 0 <= i < |done| reads done, set s | s in done :: s.buffer => done[i].Value())
  }

  lemma NothingRun(cfg: Config)
    ensures Run(cfg, []) == FRESH
  {
  }

  lemma RunNext(cfg: Config, events: seq<Event>, i: nat)
    requires i < |events|
    ensures Run(cfg, events[..i + 1]) == Next(cfg, Run(cfg, events[..i]), events[i])
  {
    hide Next;
    assert events[..i + 1][..i] == events[..i];
  }

  /** Once a connection is over, further events change nothing. */
  lemma {:induction false} StoppedStays(cfg: Config, events: seq<Event>, i: nat)
    requires i <= |events|
    requires i < |events| ==> Run(cfg, events[..i]).status != Running
    ensures Run(cfg, events) == Run(cfg, events[..i])
    decreases |events|
  {
    if i < |events| {
      var init := events[..|events| - 1];
      assert init[..i] == events[..i];
      StoppedStays(cfg, init, i);
    } else {
      assert events[..i] == events;
    }
  }

  lemma RefusedChunkUnchanged(s: Session, sequence: int, payload: Bytes, now: real)
    requires AddChunkError(s, sequence, payload).Some?
    ensures WithChunk(s, sequence, payload, now) == s
  {
  }

  class AudioStreamServer {
    const config: Config

    constructor (config: Config)
      ensures this.config == config
    {
      this.config := config;
    }

    /** _send_error: the reply goes out, or ConnectionClosed is raised. */
    method SendError(reason: Reason, sendOk: bool) returns (sent: seq<Reply>, raised: bool)
      ensures sent == if sendOk then [Refusal(reason)] else []
      ensures raised <==> !sendOk
    {
      raised := !sendOk;
      sent := if sendOk then [Refusal(reason)] else [];
    }

    /** _finalize_session: returns at once on a closed session; otherwise rebuilds the audio,
        runs the recogniser between the two ASR stamps, closes, and only then answers. */
    method FinalizeSession(session: ServerSession, ev: Event, sendOk: bool)
      returns (sent: seq<Reply>, status: Status)
      requires Inv(session.Value().buffer)
      modifies session
      ensures var r := FinaliseRound(old(session.Value()), ev, [], sendOk, Running);
              && sent == r.sent && status == r.status
      ensures old(session.closed) ==> session.Value() == old(session.Value())
      ensures !old(session.closed) ==>
                session.Value() == Finalised(old(session.Value()), ev.asrStart, ev.asrEnd, ev.end)
    {
      hide DecodeMessage, EncodeMessage, Reconstruction, ToFloat, Inv;
      if session.closed {
        return [], Running;
      }
      var pcm := session.ReconstructAudio();
      session.MarkAsrStart(ev.asrStart);
      var audio := ToFloat(pcm);
      var text, errorText := [], [];
      match ev.transcribe(audio) {
        case Heard(t) => text := t;
        case Unavailable(why) => errorText := Ascii("ASR unavailable: ") + why;
        case Failed(why) => errorText := Ascii("ASR failed: ") + why;
      }
      session.MarkAsrEnd(ev.asrEnd);
      session.Close(ev.end);
      var answer: Reply;
      if errorText != [] {
        answer := Answer(session.sessionId, ErrorReply, errorText, 16000, 1, ev.wallMs);
      } else {
        answer := Answer(session.sessionId, AsrResult, text, session.sampleRate, session.channels,
                         ev.wallMs);
      }
      if Wire(answer).Err? {
        return [], Crashed;
      }
      if !sendOk {
        return [], Disconnected;
      }
      return [answer], Running;
    }

    /** The outer handler of ConnectionClosed. */
    method OnConnectionClosed(session: ServerSession?, ev: Event)
      modifies if session == null then {} else {session}
      ensures session != null ==> session.Value() == Closed(old(session.Value()), ev.end)
    {
      if session != null && !session.closed {
        session.Close(ev.end);
      }
    }

    /** An ERROR about the frame just received, and on with the loop. */
    method Refuse(session: ServerSession?, reason: Reason, ev: Event)
      returns (next: ServerSession?, sent: seq<Reply>, status: Status)
      modifies if session == null then {} else {session}
      ensures var r := RefuseRound(old(ValueOf(session)), reason, ev);
              && ValueOf(next) == r.session && sent == r.sent && status == r.status
              && (r.ended.Some? ==> session != null && Some(session.Value()) == r.ended)
      ensures next == null || next == session
    {
      var raised;
      sent, raised := SendError(reason, ev.firstSend);
      if raised {
        OnConnectionClosed(session, ev);
        return null, sent, Disconnected;
      }
      return session, sent, Running;
    }

    method HandleStart(session: ServerSession?, header: Header, payload: Bytes, ev: Event)
      returns (next: ServerSession?, sent: seq<Reply>, status: Status)
      requires ev.frame.Binary? && |ev.frame.data| <= config.maxMessageSize
      requires DecodeMessage(ev.frame.data) == Ok((header, payload)) && header.msgType == StartSession
      modifies if session == null then {} else {session}
      ensures var r := RoundOf(config, old(ValueOf(session)), ev);
              && ValueOf(next) == r.session && sent == r.sent && status == r.status
              && (r.ended.Some? ==> session != null && Some(session.Value()) == r.ended)
      ensures next == null || next == session || (fresh(next) && fresh(next.buffer))
    {
      hide DecodeMessage, Finalised, AnswerTo;
      if session != null {
        next, sent, status := Refuse(session, AlreadyActive, ev);
        return;
      }
      if payload != [] {
        next, sent, status := Refuse(session, StartPayload, ev);
        return;
      }
      if header.sampleFormat != PcmS16Le || header.channels != 1 || header.sampleRate != 16000 {
        next, sent, status := Refuse(session, UnsupportedFormat, ev);
        return;
      }
      var created, invalid := NewSession(header.sessionId, header.sampleRate, header.channels,
                                         config.maxSessionBuffer);
      if created == null {
        next, sent, status := Refuse(session, InvalidSession(invalid.value), ev);
        return;
      }
      return created, [], Running;
    }

    method HandleChunk(session: ServerSession?, header: Header, payload: Bytes, ev: Event)
      returns (next: ServerSession?, sent: seq<Reply>, status: Status)
      requires ev.frame.Binary? && |ev.frame.data| <= config.maxMessageSize
      requires DecodeMessage(ev.frame.data) == Ok((header, payload)) && header.msgType == AudioChunk
      requires session != null ==> Safe(config, session.Value())
      modifies if session == null then {} else {session, session.buffer}
      ensures var r := RoundOf(config, old(ValueOf(session)), ev);
              && ValueOf(next) == r.session && sent == r.sent && status == r.status
              && (r.ended.Some? ==> session != null && Some(session.Value()) == r.ended)
      ensures next == null || next == session
    {
      hide DecodeMessage, Finalised, AnswerTo, AddChunkError, WithChunk, Inv;
      if session == null {
        next, sent, status := Refuse(session, ChunkWithoutSession, ev);
        return;
      }
      if header.sessionId != session.sessionId {
        next, sent, status := Refuse(session, ChunkOfOtherSession, ev);
        return;
      }
      if header.sampleRate != session.sampleRate || header.channels != session.channels
         || header.sampleFormat != PcmS16Le {
        next, sent, status := Refuse(session, ChunkFormat, ev);
        return;
      }
      ghost var before := session.Value();
      var error := session.AddChunk(header.sequenceNumber, payload, ev.received);
      if error.None? {
        return session, [], Running;
      }
      RefusedChunkUnchanged(before, header.sequenceNumber, payload, ev.received);
      var raised;
      sent, raised := SendError(BufferFailure(error.value), ev.firstSend);
      if raised {
        OnConnectionClosed(session, ev);
        return null, sent, Disconnected;
      }
      var answer;
      answer, status := FinalizeSession(session, ev, ev.secondSend);
      return null, sent + answer, status;
    }

    method HandleEnd(session: ServerSession?, header: Header, payload: Bytes, ev: Event)
      returns (next: ServerSession?, sent: seq<Reply>, status: Status)
      requires ev.frame.Binary? && |ev.frame.data| <= config.maxMessageSize
      requires DecodeMessage(ev.frame.data) == Ok((header, payload)) && header.msgType == EndSession
      requires session != null ==> Safe(config, session.Value())
      modifies if session == null then {} else {session}
      ensures var r := RoundOf(config, old(ValueOf(session)), ev);
              && ValueOf(next) == r.session && sent == r.sent && status == r.status
              && (r.ended.Some? ==> session != null && Some(session.Value()) == r.ended)
      ensures next == null || next == session
    {
      hide DecodeMessage, Finalised, AnswerTo, Inv;
      if session == null {
        next, sent, status := Refuse(session, EndWithoutSession, ev);
        return;
      }
      if header.sessionId != session.sessionId {
        next, sent, status := Refuse(session, EndOfOtherSession, ev);
        return;
      }
      if payload != [] {
        next, sent, status := Refuse(session, EndPayload, ev);
        return;
      }
      sent, status := FinalizeSession(session, ev, ev.firstSend);
      next := null;
    }

    /** One round of the receive loop. */
    method HandleRound(session: ServerSession?, ev: Event)
      returns (next: ServerSession?, sent: seq<Reply>, status: Status)
      requires session != null ==> Safe(config, session.Value())
      modifies if session == null then {} else {session, session.buffer}
      ensures var r := RoundOf(config, old(ValueOf(session)), ev);
              && ValueOf(next) == r.session && sent == r.sent && status == r.status
              && (r.ended.Some? ==> session != null && Some(session.Value()) == r.ended)
      ensures next == null || next == session || (fresh(next) && fresh(next.buffer))
    {
      hide DecodeMessage, EncodeMessage, Reconstruction, ToFloat, Inv, Wire, AnswerTo, AddChunkError,
           WithChunk, CreateError;
      var raised: bool;
      next, sent, status := session, [], Running;
      match ev.frame {
        case TimedOut =>
          if session != null {
            sent, status := FinalizeSession(session, ev, ev.firstSend);
          }
          next, status := null, if status == Running then Expired else status;
        case PeerClosed =>
          OnConnectionClosed(session, ev);
          next, status := null, Disconnected;
        case TextFrame =>
          next, sent, status := Refuse(session, TextUnsupported, ev);
        case Binary(data) =>
          if |data| > config.maxMessageSize {
            next, sent, status := Refuse(session, MessageTooLarge, ev);
            return;
          }
          var decoded := DecodeMessage(data);
          if decoded.Err? {
            next, sent, status := Refuse(session, Malformed(decoded.error), ev);
            return;
          }
          var (header, payload) := decoded.value;
          match header.msgType {
            case StartSession =>
              next, sent, status := HandleStart(session, header, payload, ev);
            case AudioChunk =>
              next, sent, status := HandleChunk(session, header, payload, ev);
            case EndSession =>
              next, sent, status := HandleEnd(session, header, payload, ev);
            case _ =>
              next, sent, status := Refuse(session, UnexpectedType, ev);
          }
      }
    }

    /** The connection: its loop over what recv() gives, until it is over or nothing more has
        come yet. The finished sessions are returned as they were left when they ended. */
    method HandleConnection(events: seq<Event>)
      returns (status: Status, session: ServerSession?, replies: seq<Reply>, begun: seq<Bytes>,
               done: seq<ServerSession>)
      ensures session != null ==> fresh(session) && fresh(session.buffer)
      ensures Connection(status, ValueOf(session), replies, begun, ValuesOf(done)) ==
              Run(config, events)
    {
      hide RoundOf, Safe, Run;
      NothingRun(config);
      status, session, replies, begun, done := Running, null, [], [], [];
      var i := 0;
      while i < |events| && status == Running
        invariant 0 <= i <= |events|
        invariant session != null ==> fresh(session) && fresh(session.buffer)
        invariant forall d :: d in done ==> fresh(d) && fresh(d.buffer)
        invariant session != null ==>
          forall d :: d in done ==> d != session && d.buffer != session.buffer
        invariant Connection(status, ValueOf(session), replies, begun, ValuesOf(done)) ==
                  Run(config, events[..i])
      {
        SessionSafety(config, events[..i]);
        RunNext(config, events, i);
        RoundKeepsSafe(config, ValueOf(session), events[i]);
        ghost var before := ValuesOf(done);
        var current := session;
        var sent;
        session, sent, status := HandleRound(current, events[i]);
        assert ValuesOf(done) == before;
        replies := replies + sent;
        if current == null && session != null {
          begun := begun + [session.sessionId];
        }
        if current != null && session == null {
          done := done + [current];
          assert ValuesOf(done) == before + [current.Value()];
        }
        i := i + 1;
      }
      StoppedStays(config, events, i);
      assert events[..|events|] == events;
    }
  }
}
