/** Client and server together: what the recogniser is given is what the client had, however
    the network orders and repeats the chunks; and for the whole desktop pipeline, that is a
    suffix of the padded recording. */
module EndToEnd {
  import opened Words
  import opened Protocol
  import opened Pcm
  import opened AudioBuffers
  import opened Sessions
  import opened Server
  import opened ServerLoop
  import opened ProtocolClient
  import opened WavSource
  import opened DesktopClient

  /** The utterance as the map from sequence numbers to chunks that the client sends. */
  function ChunkMap(pcm: Bytes, size: nat): map<nat, Bytes>
    requires size >= 1
  {
    map k: nat | k < ChunkCount(|pcm|, size) :: Chunk(pcm, size, k)
  }

  lemma CutWithin(length: nat, size: nat, k: nat)
    ensures Cut(length, size, k) <= length
  {
  }

  lemma {:induction false} ChunksJoin(pcm: Bytes, size: nat, k: nat)
    requires size >= 1 && k <= ChunkCount(|pcm|, size)
    ensures JoinBelow(ChunkMap(pcm, size), k) == pcm[..Cut(|pcm|, size, k)]
  {
    hide Cut, ChunkCount;
    if k == 0 {
      CutStep(|pcm|, size, 0);
    } else {
      ChunksJoin(pcm, size, k - 1);
      CutStep(|pcm|, size, k - 1);
      CutWithin(|pcm|, size, k - 1);
      assert pcm[..Cut(|pcm|, size, k)] == pcm[..Cut(|pcm|, size, k - 1)] + Chunk(pcm, size, k - 1);
    }
  }

  /** Joined in sequence order, the chunks are the utterance. */
  lemma ChunksAreUtterance(pcm: Bytes, size: nat)
    requires size >= 1
    ensures var (m, n) := (ChunkMap(pcm, size), ChunkCount(|pcm|, size));
            && JoinBelow(m, n) == pcm && LengthBelow(m, n) == |pcm| && Bounds(m, n)
            && forall k :: k in m ==> m[k] != []
  {
    hide Cut, ChunkCount, Chunk;
    var m, n := ChunkMap(pcm, size), ChunkCount(|pcm|, size);
    ChunkExists(|pcm|, size, n);
    CutWithin(|pcm|, size, n);
    ChunksJoin(pcm, size, n);
    JoinLength(m, n);
    forall k | k in m ensures m[k] != [] { ChunkFits(pcm, size, k); }
  }

  /** order names every chunk at least once. */
  ghost predicate Covers(order: seq<nat>, n: nat) {
    && (forall i :: 0 <= i < |order| ==> order[i] < n)
    && (forall k: nat :: k < n ==> k in order)
  }

  function ArrivalsOf(pcm: Bytes, size: nat, order: seq<nat>): seq<Arrival>
    requires size >= 1
  {
    seq(|order|, i requires 0 <= i < |order| => Arrival(order[i], Chunk(pcm, size, order[i])))
  }

  lemma ArrivalsCarry(pcm: Bytes, size: nat, order: seq<nat>)
    requires size >= 1 && Covers(order, ChunkCount(|pcm|, size))
    ensures Carries(ArrivalsOf(pcm, size, order), ChunkMap(pcm, size))
  {
    hide Chunk, ChunkCount;
    var arrivals := ArrivalsOf(pcm, size, order);
    forall k | k in ChunkMap(pcm, size) ensures exists a :: a in arrivals && a.sequence == k {
      assert k in order;
      var i :| 0 <= i < |order| && order[i] == k;
      assert arrivals[i] in arrivals;
    }
  }

  /** The number of the client's message that arrives in round i: START, the chunks in the
      given order, END. */
  function MessageNumber(order: seq<nat>, n: nat, i: nat): nat
    requires i < |order| + 2
  {
    if i == 0 then 0 else if i <= |order| then order[i - 1] + 1 else n + 1
  }

  ghost predicate Delivers(events: seq<Event>, id: Bytes, pcm: Bytes, size: nat, order: seq<nat>,
                           clock: nat -> U64)
    requires size >= 1
  {
    var n := ChunkCount(|pcm|, size);
    && |events| == |order| + 2
    && forall i :: 0 <= i < |events| ==>
         && events[i].firstSend && events[i].secondSend && events[i].frame.Binary?
         && MessageAt(id, pcm, size, 16000, 1, clock, MessageNumber(order, n, i))
            == Ok(events[i].frame.data)
  }

  /** The server's limits admit the client's session. */
  ghost predicate Admits(cfg: Config, id: Bytes, pcm: Bytes, size: nat) {
    && |id| == SESSION_ID_SIZE && 1 <= size <= MAX_PAYLOAD_BYTES
    && HEADER_SIZE + size <= cfg.maxMessageSize
    && cfg.maxSessionBuffer > 0 && |pcm| <= cfg.maxSessionBuffer
    && ChunkCount(|pcm|, size) <= 0xFFFF_FFFF
  }

  lemma JudgeMessage(cfg: Config, session: Option<Session>, id: Bytes, pcm: Bytes, size: nat,
                     clock: nat -> U64, k: nat)
    requires Admits(cfg, id, pcm, size)
    requires k <= ChunkCount(|pcm|, size) + 1
    requires session.Some? <==> k > 0
    requires session.Some? ==> session.value.id == id && session.value.sampleRate == 16000
                               && session.value.channels == 1
    ensures var m := MessageAt(id, pcm, size, 16000, 1, clock, k);
            && m.Ok?
            && Judge(cfg, session, m.value) ==
               if k == 0 then Open(id)
               else if k <= ChunkCount(|pcm|, size) then Take(k - 1, Chunk(pcm, size, k - 1))
               else End
  {
    hide DecodeMessage, MessageAt, Chunk, ChunkCount;
    MessageDecodes(id, pcm, size, 16000, 1, clock, k);
  }

  // What Next does with a frame once it has been judged.

  lemma OpenRound(cfg: Config, ev: Event, id: Bytes)
    requires ev.frame.Binary? && Judge(cfg, None, ev.frame.data) == Open(id)
    requires cfg.maxSessionBuffer > 0
    ensures Next(cfg, FRESH, ev) ==
            Connection(Running, Some(Created(id, 16000, 1, cfg.maxSessionBuffer)), [], [id], [])
  {
    hide Judge;
  }

  lemma TakeRound(cfg: Config, c: Connection, ev: Event, sequence: nat, payload: Bytes)
    requires c.status == Running && c.session.Some? && ev.frame.Binary?
    requires Judge(cfg, c.session, ev.frame.data) == Take(sequence, payload)
    requires AddChunkError(c.session.value, sequence, payload).None?
    ensures Next(cfg, c, ev) ==
            c.(session := Some(WithChunk(c.session.value, sequence, payload, ev.received)))
  {
    hide Judge;
  }

  lemma EndRound(cfg: Config, c: Connection, ev: Event)
    requires c.status == Running && c.session.Some? && !c.session.value.closed
    requires ev.frame.Binary? && ev.firstSend && Judge(cfg, c.session, ev.frame.data) == End
    ensures var f := Finalised(c.session.value, ev.asrStart, ev.asrEnd, ev.end);
            var answer := AnswerTo(f, ev);
            && f.closed && f.id == c.session.value.id && f.buffer == c.session.value.buffer
            && f.sampleRate == c.session.value.sampleRate && f.channels == c.session.value.channels
            && Next(cfg, c, ev) ==
               Connection(if Wire(answer).Ok? then Running else Crashed, None,
                          c.replies + (if Wire(answer).Ok? then [answer] else []), c.begun,
                          c.done + [f])
  {
    hide Judge, Wire, AnswerTo;
    assert c.replies + [] == c.replies;
  }

  lemma FormatOf(cfg: Config, s: Session)
    requires Safe(cfg, s)
    ensures !s.closed && s.sampleRate == 16000 && s.channels == 1
  {
  }

  lemma NothingYet(maxBytes: nat)
    ensures AppendRun(Empty(maxBytes), []) == Empty(maxBytes)
  {
  }

  lemma DeliveryAccepted(cfg: Config, s: Session, arrivals: seq<Arrival>, k: nat)
    requires cfg.maxSessionBuffer > 0 && 1 <= k <= |arrivals| && !s.closed
    requires AllAccepted(Empty(cfg.maxSessionBuffer), arrivals)
    requires s.buffer == AppendRun(Empty(cfg.maxSessionBuffer), arrivals[..k - 1])
    ensures var a := arrivals[k - 1];
            && AddChunkError(s, a.sequence, a.payload).None?
            && Appended(s.buffer, a.sequence, a.payload) ==
               AppendRun(Empty(cfg.maxSessionBuffer), arrivals[..k])
  {
    assert arrivals[..k][..k - 1] == arrivals[..k - 1];
    assert AcceptedAt(Empty(cfg.maxSessionBuffer), arrivals, k - 1);
  }

  /** START and the first k deliveries leave an open session holding exactly those chunks. */
  lemma {:induction false} AfterDeliveries(cfg: Config, events: seq<Event>, id: Bytes, pcm: Bytes,
                                           size: nat, order: seq<nat>, clock: nat -> U64, k: nat)
    requires Admits(cfg, id, pcm, size) && Covers(order, ChunkCount(|pcm|, size))
    requires Delivers(events, id, pcm, size, order, clock)
    requires AllAccepted(Empty(cfg.maxSessionBuffer), ArrivalsOf(pcm, size, order))
    requires k <= |order|
    ensures var c := Run(cfg, events[..k + 1]);
            && c.status == Running && c.session.Some? && c.replies == [] && c.done == []
            && c.session.value.id == id && Safe(cfg, c.session.value)
            && c.session.value.buffer ==
               AppendRun(Empty(cfg.maxSessionBuffer), ArrivalsOf(pcm, size, order)[..k])
  {
    hide Judge, MessageAt, Chunk, ChunkCount, Safe, AppendRun, AllAccepted, AddChunkError, Next,
         Appended;
    var arrivals := ArrivalsOf(pcm, size, order);
    var soFar := events[..k + 1];
    assert soFar[..k] == events[..k] && soFar[k] == events[k];
    SessionSafety(cfg, soFar);
    if k == 0 {
      assert MessageNumber(order, ChunkCount(|pcm|, size), 0) == 0;
      JudgeMessage(cfg, None, id, pcm, size, clock, 0);
      assert events[..0] == [] && arrivals[..0] == [];
      OpenRound(cfg, events[0], id);
      NothingYet(cfg.maxSessionBuffer);
    } else {
      AfterDeliveries(cfg, events, id, pcm, size, order, clock, k - 1);
      var c := Run(cfg, events[..k]);
      assert MessageNumber(order, ChunkCount(|pcm|, size), k) == order[k - 1] + 1;
      FormatOf(cfg, c.session.value);
      JudgeMessage(cfg, c.session, id, pcm, size, clock, order[k - 1] + 1);
      DeliveryAccepted(cfg, c.session.value, arrivals, k);
      TakeRound(cfg, c, events[k], arrivals[k - 1].sequence, arrivals[k - 1].payload);
    }
  }

  /** For every utterance, chunk size, order of delivery and repetition: the session ends with
      exactly the utterance's bytes, the recogniser is given their samples, and the one reply
      of the run is its answer. */
  lemma ClientServerComposition(cfg: Config, events: seq<Event>, id: Bytes, pcm: Bytes, size: nat,
                                order: seq<nat>, clock: nat -> U64)
    requires Admits(cfg, id, pcm, size) && Covers(order, ChunkCount(|pcm|, size))
    requires Delivers(events, id, pcm, size, order, clock)
    ensures var c, last := Run(cfg, events), events[|events| - 1];
            && c.session.None? && |c.done| == 1
            && c.done[0].id == id && c.done[0].closed
            && c.done[0].sampleRate == 16000 && c.done[0].channels == 1
            && Reconstruction(c.done[0].buffer) == pcm
            && (if Wire(AnswerTo(c.done[0], last)).Ok? then
                  c.status == Running && c.replies == [AnswerTo(c.done[0], last)]
                else c.status == Crashed && c.replies == [])
  {
    hide Judge, MessageAt, Chunk, ChunkCount, Safe, AppendRun, AllAccepted, Wire, AnswerTo,
         Reconstruction, Next, Carries, Finalised, LengthBelow, JoinBelow, ChunkMap, Bounds;
    var arrivals, n := ArrivalsOf(pcm, size, order), ChunkCount(|pcm|, size);
    ChunksAreUtterance(pcm, size);
    ArrivalsCarry(pcm, size, order);
    ReassemblyIndependent(cfg.maxSessionBuffer, arrivals, ChunkMap(pcm, size), n);
    AfterDeliveries(cfg, events, id, pcm, size, order, clock, |order|);
    var k := |events| - 1;
    assert arrivals[..|order|] == arrivals;
    var c := Run(cfg, events[..k]);
    FormatOf(cfg, c.session.value);
    assert MessageNumber(order, n, k) == n + 1;
    JudgeMessage(cfg, c.session, id, pcm, size, clock, n + 1);
    EndRound(cfg, c, events[k]);
    assert Reconstruction(c.session.value.buffer) == pcm;
  }

  function AnswerOf(outcome: AsrOutcome): Response {
    match outcome
    case Heard(text) => Transcript(text)
    case Unavailable(reason) => ServerError(Ascii("ASR unavailable: ") + reason)
    case Failed(reason) => ServerError(Ascii("ASR failed: ") + reason)
  }

  /** An answer that can be encoded reaches the client as what it is. */
  lemma AnswerReachesClient(s: Session, ev: Event)
    requires s.sampleRate == 16000 && s.channels == 1
    requires Wire(AnswerTo(s, ev)).Ok?
    ensures Interpret(Wire(AnswerTo(s, ev)).value) ==
            Ok(AnswerOf(ev.transcribe(ToFloat(Reconstruction(s.buffer)))))
    ensures var text := AnswerOf(ev.transcribe(ToFloat(Reconstruction(s.buffer)))).text;
            var heard := ev.transcribe(ToFloat(Reconstruction(s.buffer))).Heard?;
            DecodeMessage(Wire(AnswerTo(s, ev)).value) ==
            Ok((Header(if heard then AsrResult else ErrorReply, 16000, PcmS16Le, 1, 0, ev.wallMs, s.id,
                       |text|), text))
  {
    hide Reconstruction, ToFloat, Ascii;
    var a := AnswerTo(s, ev);
    var frame := Wire(a).value;
    DecodeEncode(a.msgType.Code(), a.id, 0, a.wallMs, a.text, a.sampleRate, 0, a.channels);
    assert DecodeMessage(frame).Ok? && DecodeMessage(frame).value.1 == a.text;
    assert frame[HEADER_SIZE..] == a.text;
    assert frame[HEADER_SIZE..|frame|] == frame[HEADER_SIZE..];
  }

  /** What the client makes of the first frame sent to it. */
  function FirstResponse(replies: seq<Reply>): Option<Response> {
    if replies == [] || !replies[0].Answer? || Wire(replies[0]).Err? then None
    else match Interpret(Wire(replies[0]).value)
         case Ok(r) => Some(r)
         case Err(_) => None
  }

  /** The session that ended was given exactly these samples, and the client reads the
      recogniser's outcome on them: always, when its text fits a message. */
  ghost predicate Served(c: Connection, id: Bytes, u: seq<Sample>, last: Event) {
    var outcome := last.transcribe(Scaled(u));
    && |c.done| == 1 && c.done[0].id == id && c.done[0].closed
    && Reconstruction(c.done[0].buffer) == ToBytes(u)
    && ToFloat(Reconstruction(c.done[0].buffer)) == Scaled(u)
    && (FirstResponse(c.replies).Some? ==> FirstResponse(c.replies).value == AnswerOf(outcome))
    && (|AnswerOf(outcome).text| <= MAX_PAYLOAD_BYTES ==> FirstResponse(c.replies).Some?)
  }

  lemma AnswerEncodable(s: Session, ev: Event)
    requires s.sampleRate == 16000 && s.channels == 1 && |s.id| == SESSION_ID_SIZE
    ensures |AnswerOf(ev.transcribe(ToFloat(Reconstruction(s.buffer)))).text| <= MAX_PAYLOAD_BYTES ==>
              Wire(AnswerTo(s, ev)).Ok?
  {
    hide Reconstruction, ToFloat, Ascii;
  }

  /** A session sent in order and without loss is served. */
  lemma StreamedIsServed(cfg: Config, u: seq<Sample>, frameSize: nat, id: Bytes, clock: nat -> U64,
                         sent: seq<Bytes>, events: seq<Event>)
    requires frameSize >= 1 && Admits(cfg, id, ToBytes(u), ChunkBytes(frameSize))
    requires |sent| == |events| == ChunkCount(2 * |u|, ChunkBytes(frameSize)) + 2
    requires forall k :: 0 <= k < |sent| ==>
      && events[k].frame == Binary(sent[k]) && events[k].firstSend && events[k].secondSend
      && MessageAt(id, ToBytes(u), ChunkBytes(frameSize), 16000, 1, clock, k) == Ok(sent[k])
    ensures Served(Run(cfg, events), id, u, events[|events| - 1])
  {
    hide MessageAt, ChunkCount, Run, Reconstruction, ToFloat, Wire, AnswerTo, Interpret, Scaled;
    var pcm, size := ToBytes(u), ChunkBytes(frameSize);
    var n := ChunkCount(|pcm|, size);
    var order := seq(n, i requires 0 <= i < n => i);
    forall k: nat | k < n ensures k in order { assert order[k] == k; }
    forall i | 0 <= i < |events| ensures MessageNumber(order, n, i) == i {}
    ClientServerComposition(cfg, events, id, pcm, size, order, clock);
    FromToBytes(u);
    var f, last := Run(cfg, events).done[0], events[|events| - 1];
    if Wire(AnswerTo(f, last)).Ok? {
      AnswerReachesClient(f, last);
    }
    AnswerEncodable(f, last);
  }

  /** The whole desktop pipeline: simulate, stream, serve, read the reply. The network hands
      the messages over in order; env supplies everything else about each round. */
  method Pipeline(samples: seq<Sample>, s: Setup, cfg: Config, id: Bytes, clock: nat -> U64,
                  env: nat -> Event)
    returns (utterance: Option<seq<Sample>>, triggeredAt: nat, done: seq<ServerSession>,
             response: Option<Response>)
    requires s.Valid() && |id| == SESSION_ID_SIZE
    requires forall i :: env(i).firstSend && env(i).secondSend
    ensures var stream := Padded(samples, s.frameSize);
            && (utterance.Some? ==>
                var pushed := triggeredAt * s.frameSize;
                && FirstThirdHot(s, stream, triggeredAt) && pushed <= |stream|
                && utterance.value == stream[pushed - Min(pushed, Min(s.preRoll, s.ringCapacity))..])
            && (utterance.None? ==>
                forall k: nat :: k * s.frameSize <= |stream| ==> !ThirdHot(s, stream, k))
    ensures utterance.Some? && Admits(cfg, id, ToBytes(utterance.value), ChunkBytes(s.frameSize)) ==>
              var last := env(ChunkCount(2 * |utterance.value|, ChunkBytes(s.frameSize)) + 1);
              var outcome := last.transcribe(Scaled(utterance.value));
              && |done| == 1 && done[0].sessionId == id && done[0].closed
              && Reconstruction(done[0].Value().buffer) == ToBytes(utterance.value)
              && ToFloat(Reconstruction(done[0].Value().buffer)) == Scaled(utterance.value)
              && (response.Some? ==> response.value == AnswerOf(outcome))
              && (|AnswerOf(outcome).text| <= MAX_PAYLOAD_BYTES ==> response.Some?)
  {
    hide Padded, FirstThirdHot, ThirdHot, MessageAt, ChunkCount, ChunkBytes,
         Run, Reconstruction, ToFloat, Scaled, ToBytes, FirstResponse, AnswerOf;
    done, response := [], None;
    utterance, triggeredAt := RunSimulation(samples, s);
    if utterance.None? {
      return;
    }
    var u := utterance.value;
    var sent, error := StreamUtterance(u, s.frameSize, id, 16000, 1, clock);
    var events := seq(|sent|, i requires 0 <= i < |sent| => env(i).(frame := Binary(sent[i])));
    var server := new AudioStreamServer(cfg);
    var status, session, replies, begun;
    status, session, replies, begun, done := server.HandleConnection(events);
    response := FirstResponse(replies);
    if Admits(cfg, id, ToBytes(u), ChunkBytes(s.frameSize)) {
      StreamedIsServed(cfg, u, s.frameSize, id, clock, sent, events);
      assert |done| == |ValuesOf(done)| == 1;
      assert done[0].Value() == ValuesOf(done)[0];
    }
  }
}
