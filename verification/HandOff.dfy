/** The hand-off between KwsTask and StreamingTask (firmware main/app_main.cpp) as
    interleaved steps: one step is one call on shared state (the trigger machine, the request
    queue) or on the transport, except that StreamingTask's ForceState(kListening), which
    stores the state and then the count without a lock, is two. What the calls return is the
    scheduler's and the environment's choice. */
module HandOff {
  import opened Words
  import opened Trigger
  import opened FirmwareTrigger

  const QUEUE_CAPACITY: nat := 2
  const MAX_EXTRA_FRAMES: nat := 8000 / 30

  /** Where KwsTask stands: at its state check, with a window to score, at xQueueSend, or at
      one of the two ForceState calls that follow it. */
  datatype KwsPc = Check | Score | Send | ForceStreaming | ForceListening

  /** Where StreamingTask stands. At Reset it has stored kListening and is about to clear the
      count; there, and at Receive, it holds no request. */
  datatype StreamPc =
    | Receive
    | Connect
    | SendStart
    | SendPreRoll
    | Frames(i: nat, sequence: nat)
    | SendEnd(sequence: nat)
    | AwaitResult
    | ForceComplete
    | ForceError
    | Release
    | Reset

  /** request is StreamingTask's own variable: the request it works on. */
  datatype System = System(
    machine: Machine,
    queue: seq<Bytes>,
    kws: KwsPc,
    stream: StreamPc,
    request: Bytes)

  const START := System(INITIAL, [], Check, Receive, [])

  /** The steps, with what each call passes and what the other side makes of it: samples is
      what GetLast gave for the pre-roll, sent as chunk 0 if there are any; StreamIdle is a
      frame for which there was no audio, StreamChunk one that was sent. */
  datatype Action =
    | KwsPoll
    | KwsNoResult
    | KwsUpdate(p: real)
    | KwsSend(request: Bytes)
    | KwsForce(state: AppState)
    | StreamReceive(id: Bytes)
    | StreamConnect(ok: bool)
    | StreamStart(id: Bytes, ok: bool)
    | StreamPreRoll(id: Bytes, samples: nat, ok: bool)
    | StreamIdle
    | StreamChunk(id: Bytes, sequence: nat, ok: bool)
    | StreamEnd(id: Bytes, sequence: nat, ok: bool)
    | StreamResult(ok: bool)
    | StreamForce(state: AppState)
    | StreamReset

  /** The frame loop goes on, or has run its course. */
  function AfterFrame(i: nat, sequence: nat): StreamPc {
    if i + 1 < MAX_EXTRA_FRAMES then Frames(i + 1, sequence) else SendEnd(sequence)
  }

  /** The effect of a step, if the task it belongs to can take it. */
  function Apply(t: Tuning, s: System, a: Action): Option<System> {
    match a
    case KwsPoll =>
      if s.kws != Check then None
      else Some(if s.machine.state == Listening then s.(kws := Score) else s)
    case KwsNoResult => if s.kws == Score then Some(s.(kws := Check)) else None
    case KwsUpdate(p) =>
      if s.kws != Score then None
      else
        var m := Evaluated(t, s.machine, p);
        Some(s.(machine := m, kws := if m.state == KeywordDetected then Send else Check))
    case KwsSend(request) =>
      if s.kws != Send then None
      else if |s.queue| >= QUEUE_CAPACITY then Some(s.(kws := ForceListening))
      else Some(s.(queue := s.queue + [request], kws := ForceStreaming))
    case KwsForce(state) =>
      if (s.kws == ForceStreaming && state == Streaming) || (s.kws == ForceListening && state == Listening)
      then Some(s.(machine := Forced(s.machine, state), kws := Check))
      else None
    case StreamReceive(id) =>
      if s.stream == Receive && s.queue != [] && s.queue[0] == id then
        Some(s.(queue := s.queue[1..], stream := Connect, request := id))
      else None
    case StreamConnect(ok) =>
      if s.stream == Connect then Some(s.(stream := if ok then SendStart else ForceError)) else None
    case StreamStart(id, ok) =>
      if s.stream == SendStart && id == s.request then
        Some(s.(stream := if ok then SendPreRoll else ForceError))
      else None
    case StreamPreRoll(id, samples, ok) =>
      if s.stream == SendPreRoll && id == s.request then
        Some(s.(stream := if samples > 0 && !ok then ForceError else Frames(0, 1)))
      else None
    case StreamIdle =>
      if s.stream.Frames? then Some(s.(stream := AfterFrame(s.stream.i, s.stream.sequence))) else None
    case StreamChunk(id, sequence, ok) =>
      if s.stream.Frames? && id == s.request && sequence == s.stream.sequence then
        Some(s.(stream := if ok then AfterFrame(s.stream.i, sequence + 1) else SendEnd(sequence + 1)))
      else None
    case StreamEnd(id, sequence, _) =>
      if s.stream == SendEnd(sequence) && id == s.request then Some(s.(stream := AwaitResult)) else None
    case StreamResult(_) =>
      if s.stream == AwaitResult then Some(s.(stream := ForceComplete)) else None
    case StreamForce(state) =>
      if s.stream == ForceError && state == ErrorRecovery then
        Some(s.(machine := Forced(s.machine, ErrorRecovery), stream := Release))
      else if s.stream == ForceComplete && state == SessionComplete then
        Some(s.(machine := Forced(s.machine, SessionComplete), stream := Release))
      else if s.stream == Release && state == Listening then
        Some(s.(machine := s.machine.(state := Listening), stream := Reset))
      else None
    case StreamReset =>
      if s.stream != Reset then None
      else
        var counters := s.machine.counters.(consecutive := 0);
        Some(s.(machine := s.machine.(counters := counters), stream := Receive))
  }

  /** A schedule, if every step of it can be taken. */
  function Execute(t: Tuning, s: System, actions: seq<Action>): Option<System> {
    if actions == [] then Some(s)
    else
      match Execute(t, s, actions[..|actions| - 1])
      case None => None
      case Some(before) => Apply(t, before, actions[|actions| - 1])
  }

  /** Requests queued, plus the one StreamingTask is working on. */
  function Outstanding(s: System): nat {
    |s.queue| + if s.stream in {Receive, Reset} then 0 else 1
  }

  // ------------------------------------------------------------------- safety

  ghost predicate Inv(t: Tuning, s: System) {
    && Outstanding(s) <= 1
    && (s.machine.state == Listening ==> Outstanding(s) == 0)
    && (s.kws == Score ==> s.machine.state == Listening)
    && (s.kws == Send ==> s.machine.state == KeywordDetected && Outstanding(s) == 0)
    && s.kws != ForceListening
    && (s.machine.state != Listening || s.kws == ForceStreaming ==>
        s.machine.counters == Counters(0, t.cooldown))
    && (s.kws == ForceStreaming && Outstanding(s) == 0 ==> s.machine.state == Listening)
    && (s.machine.state == KeywordDetected ==> s.kws in {Send, ForceStreaming})
    && (s.machine.state in {ErrorRecovery, SessionComplete} ==> s.stream == Release)
    && (s.stream.Frames? ==> s.stream.i < MAX_EXTRA_FRAMES
                             && 1 <= s.stream.sequence <= s.stream.i + 1)
  }

  lemma StepKeepsInv(t: Tuning, s: System, a: Action)
    requires Inv(t, s) && Apply(t, s, a).Some?
    ensures Inv(t, Apply(t, s, a).value)
  {
  }

  lemma {:induction false} ReachableInv(t: Tuning, actions: seq<Action>)
    requires Execute(t, START, actions).Some?
    ensures Inv(t, Execute(t, START, actions).value)
  {
    if actions != [] {
      ReachableInv(t, actions[..|actions| - 1]);
      StepKeepsInv(t, Execute(t, START, actions[..|actions| - 1]).value, actions[|actions| - 1]);
    }
  }

  /** Under every interleaving: at most one request is outstanding, none while the state is
      kListening, xQueueSend always meets an empty queue, and the branch for a full one is
      never taken. */
  lemma HandOffSafety(t: Tuning, actions: seq<Action>)
    requires Execute(t, START, actions).Some?
    ensures var s := Execute(t, START, actions).value;
            && Outstanding(s) <= 1
            && (s.machine.state == Listening ==> Outstanding(s) == 0)
            && (s.kws == Send ==> s.queue == [] && s.stream in {Receive, Reset})
            && s.kws != ForceListening
  {
    ReachableInv(t, actions);
  }

  // ----------------------------------------------------------------- progress

  /** Nothing is in progress, yet the state says streaming. */
  ghost predicate Stranded(s: System) {
    s.machine.state == Streaming && Outstanding(s) == 0
  }

  /** KwsTask forces kStreaming although the state is back at kListening, which a call of
      state() would show. */
  ghost predicate LateForce(s: System, a: Action) {
    a == KwsForce(Streaming) && s.machine.state == Listening
  }

  ghost predicate HappensAt(t: Tuning, actions: seq<Action>, i: nat, what: (System, Action) -> bool)
    requires i < |actions|
  {
    Execute(t, START, actions[..i]).Some? && what(Execute(t, START, actions[..i]).value, actions[i])
  }

  /** Some step of the schedule is taken in such a situation. */
  ghost predicate Happens(t: Tuning, actions: seq<Action>, what: (System, Action) -> bool) {
    exists i :: 0 <= i < |actions| && HappensAt(t, actions, i, what)
  }

  lemma HappensExtend(t: Tuning, actions: seq<Action>, what: (System, Action) -> bool)
    requires actions != []
    ensures var n := |actions| - 1;
            Happens(t, actions, what) <==> Happens(t, actions[..n], what) || HappensAt(t, actions, n, what)
  {
    var n := |actions| - 1;
    var init := actions[..n];
    forall i | 0 <= i < n ensures HappensAt(t, actions, i, what) <==> HappensAt(t, init, i, what) {
      assert init[..i] == actions[..i];
    }
  }

  lemma StrandedStep(t: Tuning, s: System, a: Action)
    requires Inv(t, s) && Apply(t, s, a).Some?
    ensures Stranded(Apply(t, s, a).value) <==> Stranded(s) || LateForce(s, a)
    ensures Stranded(s) ==> Apply(t, s, a).value in {s, s.(stream := Receive)}
  {
  }

  /** The exact condition: a schedule ends stranded, for ever, if and only if some step of it
      forced kStreaming when the state was kListening. */
  lemma {:induction false} StrandedExactly(t: Tuning, actions: seq<Action>)
    requires Execute(t, START, actions).Some?
    ensures Stranded(Execute(t, START, actions).value) <==> Happens(t, actions, LateForce)
  {
    if actions != [] {
      hide Apply;
      var n := |actions| - 1;
      var s := Execute(t, START, actions[..n]).value;
      StrandedExactly(t, actions[..n]);
      ReachableInv(t, actions[..n]);
      StrandedStep(t, s, actions[n]);
      HappensExtend(t, actions, LateForce);
    }
  }

  /** Nothing rescues a stranded system: at most the count already at 0 is cleared again. */
  lemma {:induction false} StrandedForever(t: Tuning, s: System, actions: seq<Action>)
    requires Inv(t, s) && Stranded(s) && Execute(t, s, actions).Some?
    ensures var s' := Execute(t, s, actions).value;
            Inv(t, s') && Stranded(s') && s' in {s, s.(stream := Receive)}
  {
    if actions != [] {
      hide Apply;
      var n := |actions| - 1;
      var before := Execute(t, s, actions[..n]).value;
      StrandedForever(t, s, actions[..n]);
      StrandedStep(t, before, actions[n]);
      StepKeepsInv(t, before, actions[n]);
    }
  }

  /** The send and the force that follows it are one step. */
  ghost predicate Atomic(actions: seq<Action>) {
    forall i :: 0 <= i < |actions| && actions[i].KwsForce? ==> i > 0 && actions[i - 1].KwsSend?
  }

  lemma SentIsNotListening(t: Tuning, s: System, a: Action)
    requires Inv(t, s) && a.KwsSend? && Apply(t, s, a).Some?
    ensures Apply(t, s, a).value.machine.state != Listening
  {
  }

  /** With the two made atomic no force is late, so the state is never stranded and, outside
      kListening, a request is always in progress or about to be queued. */
  lemma AtomicNeverStranded(t: Tuning, actions: seq<Action>)
    requires Execute(t, START, actions).Some? && Atomic(actions)
    ensures !Happens(t, actions, LateForce)
    ensures var s := Execute(t, START, actions).value;
            && !Stranded(s)
            && (s.machine.state != Listening ==> Outstanding(s) == 1 || s.kws == Send)
  {
    hide Apply;
    forall i | 0 <= i < |actions| ensures !HappensAt(t, actions, i, LateForce) {
      if HappensAt(t, actions, i, LateForce) {
        assert actions[..i][..i - 1] == actions[..i - 1];
        ReachableInv(t, actions[..i - 1]);
        SentIsNotListening(t, Execute(t, START, actions[..i - 1]).value, actions[i - 1]);
      }
    }
    StrandedExactly(t, actions);
    ReachableInv(t, actions);
  }

  /** Steps StreamingTask has left until it releases the request. */
  function StreamRank(s: System): nat {
    match s.stream
    case Receive => if s.queue == [] then 0 else MAX_EXTRA_FRAMES + 8
    case Connect => MAX_EXTRA_FRAMES + 7
    case SendStart => MAX_EXTRA_FRAMES + 6
    case SendPreRoll => MAX_EXTRA_FRAMES + 5
    case Frames(i, _) => 4 + Max(0, MAX_EXTRA_FRAMES - i)
    case SendEnd(_) => 4
    case AwaitResult => 3
    case ForceComplete => 2
    case ForceError => 2
    case Release => 1
    case Reset => if s.queue == [] then 1 else MAX_EXTRA_FRAMES + 9
  }

  function Rank(s: System): (r: nat)
    ensures r <= MAX_EXTRA_FRAMES + 11
  {
    if s.kws == Send then MAX_EXTRA_FRAMES + if s.stream == Reset then 11 else 10
    else StreamRank(s) + if s.kws == ForceStreaming then 1 else 0
  }

  /** Outside kListening, unless stranded, some step other than KwsTask's poll can be taken. */
  lemma ProgressPossible(t: Tuning, s: System)
    requires Inv(t, s) && s.machine.state != Listening && !Stranded(s)
    ensures exists a :: a != KwsPoll && Apply(t, s, a).Some?
  {
    if s.kws == Send {
      assert Apply(t, s, KwsSend([])).Some?;
    } else {
      match s.stream
      case Receive => assert Apply(t, s, StreamReceive(s.queue[0])).Some?;
      case Connect => assert Apply(t, s, StreamConnect(true)).Some?;
      case SendStart => assert Apply(t, s, StreamStart(s.request, true)).Some?;
      case SendPreRoll => assert Apply(t, s, StreamPreRoll(s.request, 0, true)).Some?;
      case Frames(_, _) => assert Apply(t, s, StreamIdle).Some?;
      case SendEnd(sequence) => assert Apply(t, s, StreamEnd(s.request, sequence, true)).Some?;
      case AwaitResult => assert Apply(t, s, StreamResult(true)).Some?;
      case ForceComplete => assert Apply(t, s, StreamForce(SessionComplete)).Some?;
      case ForceError => assert Apply(t, s, StreamForce(ErrorRecovery)).Some?;
      case Release => assert Apply(t, s, StreamForce(Listening)).Some?;
      case Reset => assert Apply(t, s, StreamReset).Some?;
    }
  }

  /** And every such step lowers the rank or brings the state back to kListening. */
  lemma ProgressStep(t: Tuning, s: System, a: Action)
    requires Inv(t, s) && s.machine.state != Listening && !Stranded(s)
    requires Apply(t, s, a).Some?
    ensures var s' := Apply(t, s, a).value;
            if a == KwsPoll then s' == s
            else s'.machine.state == Listening || (Rank(s') < Rank(s) && !Stranded(s'))
  {
  }

  function Moves(actions: seq<Action>): nat {
    if actions == [] then 0
    else Moves(actions[..|actions| - 1]) + if actions[|actions| - 1] == KwsPoll then 0 else 1
  }

  ghost predicate ListeningAfter(t: Tuning, s: System, actions: seq<Action>, k: nat)
    requires k <= |actions|
  {
    Execute(t, s, actions[..k]).Some? && Execute(t, s, actions[..k]).value.machine.state == Listening
  }

  /** From any reachable state outside kListening that is not stranded, every schedule with
      more than Rank steps besides polling, at most 277, passes through kListening. */
  lemma {:induction false} ReturnsToListening(t: Tuning, s: System, actions: seq<Action>)
    requires Inv(t, s) && s.machine.state != Listening && !Stranded(s)
    requires Execute(t, s, actions).Some?
    ensures (exists k :: 0 <= k <= |actions| && ListeningAfter(t, s, actions, k))
            || var s' := Execute(t, s, actions).value;
               && Inv(t, s') && s'.machine.state != Listening && !Stranded(s')
               && Rank(s') + Moves(actions) <= Rank(s)
    ensures Moves(actions) > Rank(s) ==>
              exists k :: 0 <= k <= |actions| && ListeningAfter(t, s, actions, k)
  {
    if actions != [] {
      hide Apply, Rank;
      var n := |actions| - 1;
      ReturnsToListening(t, s, actions[..n]);
      if k :| 0 <= k <= n && ListeningAfter(t, s, actions[..n], k) {
        assert actions[..n][..k] == actions[..k];
        assert ListeningAfter(t, s, actions, k);
      } else {
        var before := Execute(t, s, actions[..n]).value;
        ProgressStep(t, before, actions[n]);
        StepKeepsInv(t, before, actions[n]);
        if Execute(t, s, actions).value.machine.state == Listening {
          assert actions[..n + 1] == actions;
          assert ListeningAfter(t, s, actions, n + 1);
        }
      }
    }
  }

  /** With send and force atomic the system returns to kListening over and over: whatever
      the schedule so far, so does every continuation of it with more than 277 steps besides
      polling. */
  lemma AtomicReturns(t: Tuning, actions: seq<Action>, more: seq<Action>)
    requires Execute(t, START, actions).Some? && Atomic(actions)
    requires Execute(t, Execute(t, START, actions).value, more).Some?
    requires Moves(more) > MAX_EXTRA_FRAMES + 11
    ensures exists k :: 0 <= k <= |more| && ListeningAfter(t, Execute(t, START, actions).value, more, k)
  {
    hide Apply, Rank, Moves, Atomic;
    var s := Execute(t, START, actions).value;
    ReachableInv(t, actions);
    AtomicNeverStranded(t, actions);
    if s.machine.state == Listening {
      assert more[..0] == [] && ListeningAfter(t, s, more, 0);
    } else {
      ReturnsToListening(t, s, more);
    }
  }

  /** Every step of a schedule that can be executed can be taken. */
  lemma {:induction false} StepTaken(t: Tuning, actions: seq<Action>, i: nat)
    requires Execute(t, START, actions).Some? && i < |actions|
    ensures Execute(t, START, actions[..i]).Some?
    ensures Apply(t, Execute(t, START, actions[..i]).value, actions[i]).Some?
    decreases |actions|
  {
    var n := |actions| - 1;
    if i < n {
      StepTaken(t, actions[..n], i);
      assert actions[..n][..i] == actions[..i];
    }
  }

  lemma ExecuteExtend(t: Tuning, s: System, actions: seq<Action>, a: Action)
    requires Execute(t, s, actions).Some?
    ensures Execute(t, s, actions + [a]) == Apply(t, Execute(t, s, actions).value, a)
  {
    assert (actions + [a])[..|actions|] == actions;
  }

  lemma FailedConnectionStrands(t: Tuning, actions: seq<Action>, r: Bytes)
    requires Execute(t, START, actions).Some?
    requires var s := Execute(t, START, actions).value; s.kws == Send && s.stream == Receive
    ensures var all := actions + [KwsSend(r)] + [StreamReceive(r)] + [StreamConnect(false)]
                       + [StreamForce(ErrorRecovery)] + [StreamForce(Listening)] + [KwsForce(Streaming)];
            Execute(t, START, all).Some? && Stranded(Execute(t, START, all).value)
  {
    hide Execute;
    ReachableInv(t, actions);
    var a1 := actions + [KwsSend(r)];
    ExecuteExtend(t, START, actions, KwsSend(r));
    var a2 := a1 + [StreamReceive(r)];
    ExecuteExtend(t, START, a1, StreamReceive(r));
    var a3 := a2 + [StreamConnect(false)];
    ExecuteExtend(t, START, a2, StreamConnect(false));
    var a4 := a3 + [StreamForce(ErrorRecovery)];
    ExecuteExtend(t, START, a3, StreamForce(ErrorRecovery));
    var a5 := a4 + [StreamForce(Listening)];
    ExecuteExtend(t, START, a4, StreamForce(Listening));
    ExecuteExtend(t, START, a5, KwsForce(Streaming));
  }

  /** Without atomicity the claim fails after every detection: if the connection cannot be
      made, StreamingTask can be back at kListening before KwsTask forces kStreaming. */
  lemma EveryDetectionCanStrand(t: Tuning, actions: seq<Action>, r: Bytes)
    requires Execute(t, START, actions).Some?
    requires Execute(t, START, actions).value.kws == Send
    ensures var idle := if Execute(t, START, actions).value.stream == Reset then [StreamReset] else [];
            var all := actions + idle + [KwsSend(r)] + [StreamReceive(r)] + [StreamConnect(false)]
                       + [StreamForce(ErrorRecovery)] + [StreamForce(Listening)] + [KwsForce(Streaming)];
            Execute(t, START, all).Some? && Stranded(Execute(t, START, all).value)
  {
    hide Execute, Stranded;
    ReachableInv(t, actions);
    if Execute(t, START, actions).value.stream == Reset {
      ExecuteExtend(t, START, actions, StreamReset);
      FailedConnectionStrands(t, actions + [StreamReset], r);
    } else {
      assert actions + [] == actions;
      FailedConnectionStrands(t, actions, r);
    }
  }

  /** KwsTask scores n windows at the threshold. */
  function Scoring(t: Tuning, n: nat): seq<Action> {
    if n == 0 then [] else Scoring(t, n - 1) + [KwsPoll] + [KwsUpdate(t.threshold)]
  }

  lemma NoSteps(t: Tuning, s: System)
    ensures Execute(t, s, []) == Some(s)
  {
  }

  /** Every tuning detects: N such windows bring KwsTask to its send. */
  lemma {:induction false} DetectionReachable(t: Tuning, n: nat)
    requires t.Valid() && n <= t.needed
    ensures Execute(t, START, Scoring(t, n)) ==
            Some(if n < t.needed then System(Machine(Counters(n, 0), Listening), [], Check, Receive, [])
                 else System(Machine(Counters(0, t.cooldown), KeywordDetected), [], Send, Receive, []))
  {
    hide Execute;
    NoSteps(t, START);
    if n > 0 {
      DetectionReachable(t, n - 1);
      ExecuteExtend(t, START, Scoring(t, n - 1), KwsPoll);
      ExecuteExtend(t, START, Scoring(t, n - 1) + [KwsPoll], KwsUpdate(t.threshold));
    }
  }

  // ------------------------------------------------ what each task does, on its own steps

  predicate OfStream(a: Action) {
    !(a.KwsPoll? || a.KwsNoResult? || a.KwsUpdate? || a.KwsSend? || a.KwsForce?)
  }

  /** StreamingTask's own steps of a schedule. */
  function Own(actions: seq<Action>): seq<Action> {
    if actions == [] then []
    else
      var last := actions[|actions| - 1];
      Own(actions[..|actions| - 1]) + if OfStream(last) then [last] else []
  }

  function Chunks(frames: seq<Action>): nat {
    if frames == [] then 0
    else Chunks(frames[..|frames| - 1]) + if frames[|frames| - 1].StreamChunk? then 1 else 0
  }

  predicate FailedChunk(a: Action) {
    a.StreamChunk? && !a.ok
  }

  /** Steps of the frame loop: chunks numbered 1, 2, ... with the session's id, none of them
      failed but perhaps the last. */
  ghost predicate FrameSteps(frames: seq<Action>, id: Bytes) {
    && |frames| <= 8000 / 30
    && (forall k :: 0 <= k < |frames| ==>
        frames[k] == StreamIdle
        || (frames[k].StreamChunk? && frames[k].id == id
            && frames[k].sequence == 1 + Chunks(frames[..k])))
    && (forall k :: 0 <= k < |frames| - 1 ==> !FailedChunk(frames[k]))
  }

  /** The loop is over: 8000 / 30 frames, or a chunk that could not be sent. */
  ghost predicate WholeLoop(frames: seq<Action>, id: Bytes) {
    && FrameSteps(frames, id)
    && (|frames| == 8000 / 30 || (frames != [] && FailedChunk(frames[|frames| - 1])))
  }

  /** The request is received, the connection made, START and the pre-roll, if any, sent. */
  ghost predicate Opened(run: seq<Action>, id: Bytes) {
    && |run| >= 4
    && run[..3] == [StreamReceive(id), StreamConnect(true), StreamStart(id, true)]
    && run[3].StreamPreRoll? && run[3].id == id && (run[3].samples > 0 ==> run[3].ok)
  }

  /** Then the frame loop, END with the number after the last chunk's, and the result. */
  ghost predicate Streamed(run: seq<Action>, id: Bytes) {
    && Opened(run, id) && |run| >= 6
    && var (frames, end, result) := (run[4..|run| - 2], run[|run| - 2], run[|run| - 1]);
       && WholeLoop(frames, id)
       && end.StreamEnd? && end.id == id && end.sequence == 1 + Chunks(frames)
       && result.StreamResult?
  }

  /** The connection, START or a non-empty pre-roll failed, and nothing was tried after it. */
  ghost predicate BrokenOff(run: seq<Action>, id: Bytes) {
    || run == [StreamReceive(id), StreamConnect(false)]
    || run == [StreamReceive(id), StreamConnect(true), StreamStart(id, false)]
    || (&& |run| == 4
        && run[..3] == [StreamReceive(id), StreamConnect(true), StreamStart(id, true)]
        && run[3].StreamPreRoll? && run[3].id == id && run[3].samples > 0 && !run[3].ok)
  }

  /** One whole session of StreamingTask. */
  ghost predicate IsSession(run: seq<Action>, id: Bytes) {
    && |run| >= 3
    && var (calls, forces) := (run[..|run| - 3], run[|run| - 3..]);
       || (BrokenOff(calls, id)
           && forces == [StreamForce(ErrorRecovery), StreamForce(Listening), StreamReset])
       || (Streamed(calls, id)
           && forces == [StreamForce(SessionComplete), StreamForce(Listening), StreamReset])
  }

  /** What StreamingTask has done of a session when it stands at pc. */
  ghost predicate DoneAt(pc: StreamPc, run: seq<Action>, id: Bytes) {
    match pc
    case Receive => false
    case Connect => run == [StreamReceive(id)]
    case SendStart => run == [StreamReceive(id), StreamConnect(true)]
    case SendPreRoll => run == [StreamReceive(id), StreamConnect(true), StreamStart(id, true)]
    case Frames(i, sequence) =>
      && Opened(run, id) && |run| == 4 + i && i < 8000 / 30
      && FrameSteps(run[4..], id) && sequence == 1 + Chunks(run[4..])
      && (forall k :: 4 <= k < |run| ==> !FailedChunk(run[k]))
    case SendEnd(sequence) =>
      Opened(run, id) && WholeLoop(run[4..], id) && sequence == 1 + Chunks(run[4..])
    case AwaitResult =>
      && Opened(run, id) && |run| >= 5
      && var (frames, end) := (run[4..|run| - 1], run[|run| - 1]);
         && WholeLoop(frames, id)
         && end.StreamEnd? && end.id == id && end.sequence == 1 + Chunks(frames)
    case ForceComplete => Streamed(run, id)
    case ForceError => BrokenOff(run, id)
    case Release =>
      && run != []
      && var (calls, force) := (run[..|run| - 1], run[|run| - 1]);
         || (BrokenOff(calls, id) && force == StreamForce(ErrorRecovery))
         || (Streamed(calls, id) && force == StreamForce(SessionComplete))
    case Reset =>
      && |run| >= 2
      && var (calls, forces) := (run[..|run| - 2], run[|run| - 2..]);
         || (BrokenOff(calls, id) && forces == [StreamForce(ErrorRecovery), StreamForce(Listening)])
         || (Streamed(calls, id) && forces == [StreamForce(SessionComplete), StreamForce(Listening)])
  }

  lemma ChunksExtend(frames: seq<Action>, a: Action)
    ensures Chunks(frames + [a]) == Chunks(frames) + if a.StreamChunk? then 1 else 0
  {
    assert (frames + [a])[..|frames|] == frames;
  }

  lemma FrameAppended(run: seq<Action>, id: Bytes, a: Action)
    requires Opened(run, id) && |run| - 4 < 8000 / 30
    requires FrameSteps(run[4..], id) && (forall k :: 4 <= k < |run| ==> !FailedChunk(run[k]))
    requires a == StreamIdle
             || (a.StreamChunk? && a.id == id && a.sequence == 1 + Chunks(run[4..]))
    ensures Opened(run + [a], id) && FrameSteps((run + [a])[4..], id)
    ensures Chunks((run + [a])[4..]) == Chunks(run[4..]) + if a.StreamChunk? then 1 else 0
  {
    hide Chunks;
    var frames, all := run[4..], (run + [a])[4..];
    assert all == frames + [a];
    ChunksExtend(frames, a);
    assert (run + [a])[..3] == run[..3];
    forall k | 0 <= k < |all|
      ensures all[k] == StreamIdle
              || (all[k].StreamChunk? && all[k].id == id && all[k].sequence == 1 + Chunks(all[..k]))
      ensures k < |all| - 1 ==> !FailedChunk(all[k])
    {
      assert all[..k] == frames[..k];
      if k == |frames| { assert frames[..k] == frames; } else { assert all[k] == run[4 + k]; }
    }
  }

  lemma LoopEnds(frames: seq<Action>, id: Bytes)
    requires FrameSteps(frames, id)
    ensures |frames| == 8000 / 30 || (frames != [] && FailedChunk(frames[|frames| - 1])) ==>
              WholeLoop(frames, id)
  {
  }

  /** The frame loop, one step on. */
  lemma FrameStep(t: Tuning, s: System, a: Action, run: seq<Action>)
    requires s.stream.Frames? && DoneAt(s.stream, run, s.request)
    requires Apply(t, s, a).Some? && OfStream(a)
    ensures DoneAt(Apply(t, s, a).value.stream, run + [a], s.request)
    ensures Apply(t, s, a).value.request == s.request
  {
    hide FrameSteps, Chunks, Opened;
    FrameAppended(run, s.request, a);
    var all := run + [a];
    assert all[|all| - 1] == a && all[4..][|all| - 5] == a;
    LoopEnds(all[4..], s.request);
  }

  lemma NoFrames(id: Bytes)
    ensures FrameSteps([], id) && Chunks([]) == 0
  {
  }

  /** The steps up to the frame loop. */
  lemma OpeningStep(t: Tuning, s: System, a: Action, run: seq<Action>)
    requires s.stream in {Connect, SendStart, SendPreRoll} && DoneAt(s.stream, run, s.request)
    requires Apply(t, s, a).Some? && OfStream(a)
    ensures DoneAt(Apply(t, s, a).value.stream, run + [a], s.request)
    ensures Apply(t, s, a).value.request == s.request
  {
    hide WholeLoop, Chunks, FrameSteps, Streamed;
    NoFrames(s.request);
    var all := run + [a];
    if s.stream == SendPreRoll {
      assert all[3] == a && all[..3] == run && all[4..] == [];
    }
  }

  /** END and the result. */
  lemma ClosingStep(t: Tuning, s: System, a: Action, run: seq<Action>)
    requires (s.stream.SendEnd? || s.stream.AwaitResult?) && DoneAt(s.stream, run, s.request)
    requires Apply(t, s, a).Some? && OfStream(a)
    ensures DoneAt(Apply(t, s, a).value.stream, run + [a], s.request)
    ensures Apply(t, s, a).value.request == s.request
  {
    hide WholeLoop, Chunks, BrokenOff;
    var all := run + [a];
    assert all[..3] == run[..3] && all[3] == run[3] && all[|all| - 1] == a;
    if s.stream.SendEnd? {
      assert all[4..|all| - 1] == run[4..];
    } else {
      assert all[4..|all| - 2] == run[4..|run| - 1] && all[|all| - 2] == run[|run| - 1];
    }
  }

  /** The forces. */
  lemma ForcingStep(t: Tuning, s: System, a: Action, run: seq<Action>)
    requires s.stream in {ForceComplete, ForceError, Release} && DoneAt(s.stream, run, s.request)
    requires Apply(t, s, a).Some? && OfStream(a)
    ensures DoneAt(Apply(t, s, a).value.stream, run + [a], s.request)
    ensures Apply(t, s, a).value.request == s.request
  {
    hide BrokenOff, Streamed;
    var all := run + [a];
    assert all[|all| - 1] == a && all[..|all| - 1] == run;
    if s.stream == Release {
      assert all[..|all| - 2] == run[..|run| - 1];
      assert all[|all| - 2..] == [run[|run| - 1], a];
    }
  }

  lemma OwnExtend(actions: seq<Action>, a: Action)
    ensures Own(actions + [a]) == Own(actions) + if OfStream(a) then [a] else []
  {
    assert (actions + [a])[..|actions|] == actions;
  }

  /** A step of KwsTask leaves StreamingTask where it stands. */
  lemma KwsLeavesStream(t: Tuning, s: System, a: Action)
    requires Apply(t, s, a).Some? && !OfStream(a)
    ensures Apply(t, s, a).value.stream == s.stream && Apply(t, s, a).value.request == s.request
  {
  }

  lemma Received(t: Tuning, s: System, a: Action)
    requires Apply(t, s, a).Some? && a.StreamReceive?
    ensures var s' := Apply(t, s, a).value;
            s'.request == a.id && OfStream(a) && DoneAt(s'.stream, [a], a.id)
  {
  }

  lemma StandsInside(t: Tuning, s: System, a: Action, run: seq<Action>)
    requires DoneAt(s.stream, run, s.request) && a != StreamReset && OfStream(a)
    requires Apply(t, s, a).Some?
    ensures s.stream != Receive && s.stream != Reset
  {
  }

  lemma SessionStep(t: Tuning, s: System, a: Action, run: seq<Action>)
    requires DoneAt(s.stream, run, s.request) && a != StreamReset
    requires Apply(t, s, a).Some? && OfStream(a)
    ensures DoneAt(Apply(t, s, a).value.stream, run + [a], s.request)
    ensures Apply(t, s, a).value.request == s.request
  {
    hide DoneAt;
    if s.stream.Frames? {
      FrameStep(t, s, a, run);
    } else if s.stream in {Connect, SendStart, SendPreRoll} {
      OpeningStep(t, s, a, run);
    } else if s.stream.SendEnd? || s.stream.AwaitResult? {
      ClosingStep(t, s, a, run);
    } else {
      StandsInside(t, s, a, run);
      ForcingStep(t, s, a, run);
    }
  }

  /** Since it received the request at step i, up to step n. */
  lemma {:induction false} InSession(t: Tuning, actions: seq<Action>, i: nat, n: nat)
    requires Execute(t, START, actions).Some? && i < n <= |actions|
    requires actions[i].StreamReceive?
    requires forall k :: i < k < n ==> actions[k] != StreamReset
    ensures Execute(t, START, actions[..n]).Some?
    ensures var s := Execute(t, START, actions[..n]).value;
            s.request == actions[i].id && DoneAt(s.stream, Own(actions[i..n]), s.request)
  {
    hide Apply, DoneAt;
    StepTaken(t, actions, n - 1);
    var before := Execute(t, START, actions[..n - 1]).value;
    var a := actions[n - 1];
    assert actions[..n][..n - 1] == actions[..n - 1];
    assert actions[i..n] == actions[i..n - 1] + [a];
    OwnExtend(actions[i..n - 1], a);
    if n == i + 1 {
      assert actions[i..n - 1] == [];
      Received(t, before, a);
    } else {
      InSession(t, actions, i, n - 1);
      if OfStream(a) {
        SessionStep(t, before, a, Own(actions[i..n - 1]));
      } else {
        KwsLeavesStream(t, before, a);
        assert Own(actions[i..n]) == Own(actions[i..n - 1]);
      }
    }
  }

  lemma LastStep(t: Tuning, s: System, run: seq<Action>)
    requires DoneAt(s.stream, run, s.request) && Apply(t, s, StreamReset).Some?
    ensures IsSession(run + [StreamReset], s.request)
  {
    hide Chunks, BrokenOff, Streamed;
    var all := run + [StreamReset];
    assert all[..|all| - 3] == run[..|run| - 2];
    assert all[|all| - 3..] == run[|run| - 2..] + [StreamReset];
  }

  /** In every schedule, StreamingTask's own steps from receiving a request to clearing the
      count are exactly one session with that request's id: connect, START, pre-roll, at most
      8000 / 30 frames up to the first chunk that fails, END, result, and the two forces; or,
      if connecting, START or a non-empty pre-roll fails, only the forces after it. */
  lemma StreamsWholeSessions(t: Tuning, actions: seq<Action>, i: nat, j: nat)
    requires Execute(t, START, actions).Some? && i < j < |actions|
    requires actions[i].StreamReceive? && actions[j] == StreamReset
    requires forall k :: i < k < j ==> actions[k] != StreamReset
    ensures IsSession(Own(actions[i..j + 1]), actions[i].id)
  {
    hide DoneAt, IsSession, Apply;
    InSession(t, actions, i, j);
    StepTaken(t, actions, j);
    assert actions[i..j + 1] == actions[i..j] + [StreamReset];
    OwnExtend(actions[i..j], StreamReset);
    LastStep(t, Execute(t, START, actions[..j]).value, Own(actions[i..j]));
  }

  lemma {:induction false} LastReceive(t: Tuning, actions: seq<Action>, n: nat) returns (i: nat)
    requires n <= |actions| && Execute(t, START, actions[..n]).Some?
    requires Execute(t, START, actions[..n]).value.stream != Receive
    ensures i < n && actions[i].StreamReceive?
    ensures forall k :: i < k < n ==> actions[k] != StreamReset
  {
    var a := actions[n - 1];
    assert actions[..n][..n - 1] == actions[..n - 1];
    if a.StreamReceive? {
      i := n - 1;
    } else {
      i := LastReceive(t, actions, n - 1);
    }
  }

  lemma {:induction false} ExecuteConcat(t: Tuning, s: System, first: seq<Action>, second: seq<Action>)
    requires Execute(t, s, first).Some?
    ensures Execute(t, s, first + second) == Execute(t, Execute(t, s, first).value, second)
  {
    hide Apply;
    if second == [] {
      assert first + second == first;
    } else {
      var n := |second| - 1;
      ExecuteConcat(t, s, first, second[..n]);
      assert (first + second)[..|first| + n] == first + second[..n];
    }
  }

  lemma ThreeSteps(t: Tuning, s: System, run: seq<Action>)
    requires |run| == 3 && Apply(t, s, run[0]).Some?
    requires Apply(t, Apply(t, s, run[0]).value, run[1]).Some?
    ensures Execute(t, s, run) == Apply(t, Apply(t, Apply(t, s, run[0]).value, run[1]).value, run[2])
  {
    hide Apply, Execute;
    NoSteps(t, s);
    ExecuteExtend(t, s, [], run[0]);
    ExecuteExtend(t, s, [] + [run[0]], run[1]);
    ExecuteExtend(t, s, [] + [run[0]] + [run[1]], run[2]);
    assert run == [] + [run[0]] + [run[1]] + [run[2]];
  }

  lemma OpeningRuns(t: Tuning, s: System, run: seq<Action>, id: Bytes)
    requires s.stream == Receive && s.queue != [] && s.queue[0] == id
    requires |run| == 4 && Opened(run, id)
    ensures Execute(t, s, run) ==
            Some(s.(queue := s.queue[1..], request := id, stream := Frames(0, 1)))
  {
    hide Execute;
    var first := run[..3];
    assert first[0] == StreamReceive(id) && first[1] == StreamConnect(true)
           && first[2] == StreamStart(id, true);
    ThreeSteps(t, s, first);
    assert run == first + [run[3]];
    ExecuteExtend(t, s, first, run[3]);
  }

  /** m steps of the frame loop. */
  lemma {:induction false} FramesRun(t: Tuning, s: System, frames: seq<Action>, m: nat)
    requires s.stream == Frames(0, 1) && FrameSteps(frames, s.request) && m <= |frames|
    ensures var last := m == 8000 / 30 || (m > 0 && FailedChunk(frames[m - 1]));
            Execute(t, s, frames[..m]) ==
            Some(s.(stream := if last then SendEnd(1 + Chunks(frames[..m]))
                              else Frames(m, 1 + Chunks(frames[..m]))))
  {
    hide Execute, Chunks;
    if m == 0 {
      NoSteps(t, s);
      NoFrames(s.request);
    } else {
      FramesRun(t, s, frames, m - 1);
      assert frames[..m] == frames[..m - 1] + [frames[m - 1]];
      ExecuteExtend(t, s, frames[..m - 1], frames[m - 1]);
      ChunksExtend(frames[..m - 1], frames[m - 1]);
      if m >= 2 { assert !FailedChunk(frames[m - 2]); }
    }
  }

  lemma BrokenRuns(t: Tuning, s: System, calls: seq<Action>, id: Bytes)
    requires s.stream == Receive && s.queue != [] && s.queue[0] == id && BrokenOff(calls, id)
    ensures Execute(t, s, calls) ==
            Some(s.(queue := s.queue[1..], request := id, stream := ForceError))
  {
    hide Execute;
    if |calls| == 2 {
      NoSteps(t, s);
      ExecuteExtend(t, s, [], calls[0]);
      ExecuteExtend(t, s, [] + [calls[0]], calls[1]);
      assert calls == [] + [calls[0]] + [calls[1]];
    } else {
      var first := calls[..3];
      assert first[0] == calls[0] && first[1] == calls[1] && first[2] == calls[2];
      ThreeSteps(t, s, first);
      if |calls| == 4 {
        ExecuteExtend(t, s, first, calls[3]);
        assert calls == first + [calls[3]];
      } else {
        assert first == calls;
      }
    }
  }

  lemma StreamedRuns(t: Tuning, s: System, calls: seq<Action>, id: Bytes)
    requires s.stream == Receive && s.queue != [] && s.queue[0] == id && Streamed(calls, id)
    ensures Execute(t, s, calls) ==
            Some(s.(queue := s.queue[1..], request := id, stream := ForceComplete))
  {
    hide Execute, Chunks, FrameSteps;
    var n := |calls|;
    var (opening, frames) := (calls[..4], calls[4..n - 2]);
    assert opening[..3] == calls[..3] && opening[3] == calls[3];
    OpeningRuns(t, s, opening, id);
    var inLoop := s.(queue := s.queue[1..], request := id, stream := Frames(0, 1));
    FramesRun(t, inLoop, frames, |frames|);
    assert frames[..|frames|] == frames;
    ExecuteConcat(t, s, opening, frames);
    ExecuteExtend(t, s, opening + frames, calls[n - 2]);
    ExecuteExtend(t, s, opening + frames + [calls[n - 2]], calls[n - 1]);
    assert calls == opening + frames + [calls[n - 2]] + [calls[n - 1]];
  }

  /** And every such session can happen: whatever the calls return, StreamingTask, once a
      request waits for it, can take exactly these steps, and is then ready for the next. */
  lemma EverySessionHappens(t: Tuning, s: System, run: seq<Action>, id: Bytes)
    requires s.stream == Receive && s.queue != [] && s.queue[0] == id && IsSession(run, id)
    ensures Execute(t, s, run) == Some(s.(
              machine := Machine(s.machine.counters.(consecutive := 0), Listening),
              queue := s.queue[1..], request := id))
  {
    hide Execute, BrokenOff, Streamed;
    var (calls, forces) := (run[..|run| - 3], run[|run| - 3..]);
    if BrokenOff(calls, id) && forces[0] == StreamForce(ErrorRecovery) {
      BrokenRuns(t, s, calls, id);
    } else {
      StreamedRuns(t, s, calls, id);
    }
    ThreeSteps(t, Execute(t, s, calls).value, forces);
    ExecuteConcat(t, s, calls, forces);
    assert run == calls + forces;
  }

  /** Outside of its sessions StreamingTask does nothing: every other step of it comes after a
      receive with no reset in between. */
  lemma {:induction false} OnlyInSessions(t: Tuning, actions: seq<Action>, j: nat) returns (i: nat)
    requires Execute(t, START, actions).Some? && j < |actions|
    requires OfStream(actions[j]) && !actions[j].StreamReceive?
    ensures i < j && actions[i].StreamReceive?
    ensures forall k :: i < k < j ==> actions[k] != StreamReset
  {
    StepTaken(t, actions, j);
    i := LastReceive(t, actions, j);
  }

  function SentRequests(actions: seq<Action>): seq<Bytes> {
    if actions == [] then []
    else
      var last := actions[|actions| - 1];
      SentRequests(actions[..|actions| - 1]) + if last.KwsSend? then [last.request] else []
  }

  function ReceivedRequests(actions: seq<Action>): seq<Bytes> {
    if actions == [] then []
    else
      var last := actions[|actions| - 1];
      ReceivedRequests(actions[..|actions| - 1]) + if last.StreamReceive? then [last.id] else []
  }

  lemma QueueStep(t: Tuning, s: System, a: Action)
    requires Inv(t, s) && Apply(t, s, a).Some?
    ensures var queue := Apply(t, s, a).value.queue;
            if a.KwsSend? then queue == s.queue + [a.request]
            else if a.StreamReceive? then s.queue == [a.id] + queue
            else queue == s.queue
  {
  }

  /** Requests are served in the order they were sent, none lost and none made up. */
  lemma {:induction false} RequestsInOrder(t: Tuning, actions: seq<Action>)
    requires Execute(t, START, actions).Some?
    ensures SentRequests(actions) ==
            ReceivedRequests(actions) + Execute(t, START, actions).value.queue
  {
    if actions != [] {
      hide Apply, Execute;
      var n := |actions| - 1;
      StepTaken(t, actions, n);
      assert actions == actions[..n] + [actions[n]];
      ExecuteExtend(t, START, actions[..n], actions[n]);
      RequestsInOrder(t, actions[..n]);
      ReachableInv(t, actions[..n]);
      QueueStep(t, Execute(t, START, actions[..n]).value, actions[n]);
    }
  }

  /** The step of KwsTask that comes after its step a, the machine being before and after. */
  ghost predicate KwsNext(a: Action, before: Machine, after: Machine, next: Action) {
    if a.KwsPoll? && before.state == Listening then next.KwsNoResult? || next.KwsUpdate?
    else if a.KwsUpdate? && after.state == KeywordDetected then next.KwsSend?
    else if a.KwsSend? then next == KwsForce(Streaming)
    else next.KwsPoll?
  }

  /** xQueueSend on a queue of capacity 2, full or not, and the force that follows. That the
      full case never comes up is HandOffSafety. */
  lemma SendOnAnyQueue(t: Tuning, s: System, request: Bytes)
    requires s.kws == Send
    ensures var sent := Apply(t, s, KwsSend(request));
            && sent.Some? && sent.value.machine == s.machine && sent.value.stream == s.stream
            && sent.value.queue == (if |s.queue| < 2 then s.queue + [request] else s.queue)
            && var state := if |s.queue| < 2 then Streaming else Listening;
               Apply(t, sent.value, KwsForce(state)) ==
               Some(sent.value.(kws := Check, machine := Machine(
                 if |s.queue| < 2 then s.machine.counters
                 else s.machine.counters.(consecutive := 0), state)))
  {
  }

  /** The pc a step of KwsTask leaves it at. */
  ghost predicate StandsAfter(a: Action, before: Machine, after: Machine, pc: KwsPc) {
    pc == if a.KwsPoll? && before.state == Listening then KwsPc.Score
          else if a.KwsUpdate? && after.state == KeywordDetected then Send
          else if a.KwsSend? then ForceStreaming
          else Check
  }

  lemma KwsStands(t: Tuning, s: System, a: Action)
    requires Inv(t, s) && Apply(t, s, a).Some?
    ensures var s' := Apply(t, s, a).value;
            if OfStream(a) then s'.kws == s.kws else StandsAfter(a, s.machine, s'.machine, s'.kws)
  {
  }

  lemma {:induction false} KwsStandsUntil(t: Tuning, actions: seq<Action>, i: nat, n: nat)
    requires Execute(t, START, actions).Some? && i < n <= |actions|
    requires !OfStream(actions[i]) && forall k :: i < k < n ==> OfStream(actions[k])
    ensures Execute(t, START, actions[..i]).Some? && Execute(t, START, actions[..i + 1]).Some?
    ensures Execute(t, START, actions[..n]).Some?
    ensures StandsAfter(actions[i], Execute(t, START, actions[..i]).value.machine,
                        Execute(t, START, actions[..i + 1]).value.machine,
                        Execute(t, START, actions[..n]).value.kws)
  {
    hide Apply, StandsAfter;
    StepTaken(t, actions, n - 1);
    ReachableInv(t, actions[..n - 1]);
    assert actions[..n][..n - 1] == actions[..n - 1];
    KwsStands(t, Execute(t, START, actions[..n - 1]).value, actions[n - 1]);
    if n > i + 1 { KwsStandsUntil(t, actions, i, n - 1); }
  }

  lemma KwsEnabled(t: Tuning, s: System, next: Action, a: Action, before: Machine, after: Machine)
    requires Inv(t, s) && StandsAfter(a, before, after, s.kws) && !OfStream(next)
    ensures Apply(t, s, next).Some? <==> KwsNext(a, before, after, next)
  {
  }

  /** KwsTask's own steps, in every schedule: after a poll that finds kListening a window is
      scored or given up, after a detection a request is sent and kStreaming forced, and after
      everything else the state is polled. These, and no others, can follow. */
  lemma KwsKeepsOrder(t: Tuning, actions: seq<Action>, i: nat, next: Action)
    requires Execute(t, START, actions).Some? && i < |actions|
    requires !OfStream(actions[i]) && forall k :: i < k < |actions| ==> OfStream(actions[k])
    requires !OfStream(next)
    ensures Execute(t, START, actions[..i]).Some? && Execute(t, START, actions[..i + 1]).Some?
    ensures Execute(t, START, actions + [next]).Some? <==>
            KwsNext(actions[i], Execute(t, START, actions[..i]).value.machine,
                    Execute(t, START, actions[..i + 1]).value.machine, next)
  {
    hide Execute, Apply, StandsAfter, KwsNext, Inv;
    KwsStandsUntil(t, actions, i, |actions|);
    assert actions[..|actions|] == actions;
    ReachableInv(t, actions);
    ExecuteExtend(t, START, actions, next);
    KwsEnabled(t, Execute(t, START, actions).value, next, actions[i],
               Execute(t, START, actions[..i]).value.machine,
               Execute(t, START, actions[..i + 1]).value.machine);
  }

  lemma PollOnly(t: Tuning, s: System, next: Action)
    requires s.kws == Check && !OfStream(next)
    ensures Apply(t, s, next).Some? <==> next.KwsPoll?
  {
  }

  lemma {:induction false} KwsAtCheck(t: Tuning, actions: seq<Action>)
    requires Execute(t, START, actions).Some? && (forall a :: a in actions ==> OfStream(a))
    ensures Execute(t, START, actions).value.kws == Check
  {
    if actions != [] {
      hide Apply, Inv;
      var n := |actions| - 1;
      assert actions[n] in actions;
      KwsAtCheck(t, actions[..n]);
      ReachableInv(t, actions[..n]);
      KwsStands(t, Execute(t, START, actions[..n]).value, actions[n]);
    }
  }

  /** Its first step is a poll. */
  lemma KwsStartsPolling(t: Tuning, actions: seq<Action>, next: Action)
    requires Execute(t, START, actions).Some? && (forall a :: a in actions ==> OfStream(a))
    requires !OfStream(next)
    ensures Execute(t, START, actions + [next]).Some? <==> next.KwsPoll?
  {
    hide Apply, Execute;
    KwsAtCheck(t, actions);
    ExecuteExtend(t, START, actions, next);
    PollOnly(t, Execute(t, START, actions).value, next);
  }

  // --------------------------------------------------- what the trigger machine sees

  /** The call a step makes on the trigger machine, if it makes one. A state is forced where it
      is stored; clearing a count that has started since amounts to forcing kListening again. */
  function TriggerCall(s: System, a: Action): Option<Event> {
    match a
    case KwsUpdate(p) => Some(Window(p))
    case KwsForce(state) => Some(Force(state))
    case StreamForce(state) => Some(Force(state))
    case StreamReset =>
      if s.machine.counters.consecutive > 0 then Some(Force(Listening)) else None
    case _ => None
  }

  function TriggerCalls(t: Tuning, actions: seq<Action>): seq<Event>
    requires Execute(t, START, actions).Some?
  {
    if actions == [] then []
    else
      var n := |actions| - 1;
      var call := TriggerCall(Execute(t, START, actions[..n]).value, actions[n]);
      TriggerCalls(t, actions[..n]) + if call.Some? then [call.value] else []
  }

  /** The second store of ForceState(kListening) clears a count that KwsTask, running in
      between, has already started. */
  ghost predicate LateReset(s: System, a: Action) {
    a == StreamReset && s.machine.counters.consecutive > 0
  }

  lemma CallStep(t: Tuning, s: System, a: Action)
    requires Inv(t, s) && Apply(t, s, a).Some?
    ensures var m := Apply(t, s, a).value.machine;
            match TriggerCall(s, a)
            case None => m == s.machine && !LateReset(s, a)
            case Some(e) =>
              && m == Step(t, s.machine, e)
              && (LateReset(s, a) <==>
                  e.Force? && s.machine.state == Listening && s.machine.counters.consecutive > 0)
  {
  }

  lemma GuardedExtend(t: Tuning, events: seq<Event>, e: Event)
    ensures Guarded(t, events + [e]) <==>
            && Guarded(t, events)
            && (e.Force? ==> Run(t, events).state != Listening || Run(t, events).counters.consecutive == 0)
  {
    var all := events + [e];
    assert all[..|events|] == events;
    forall i | 0 <= i < |events| ensures all[..i] == events[..i] && all[i] == events[i] {}
    if Guarded(t, all) {
      GuardedPrefix(t, all, |events|);
      assert all[|events|] == e;
    }
  }

  /** The calls are guarded exactly when no reset was late, and they make the machine's state. */
  lemma {:induction false} CallsGuarded(t: Tuning, actions: seq<Action>)
    requires Execute(t, START, actions).Some?
    ensures Guarded(t, TriggerCalls(t, actions)) <==> !Happens(t, actions, LateReset)
    ensures Run(t, TriggerCalls(t, actions)) == Execute(t, START, actions).value.machine
  {
    if actions != [] {
      hide Apply, Inv, Guarded, Happens;
      var n := |actions| - 1;
      var s := Execute(t, START, actions[..n]).value;
      CallsGuarded(t, actions[..n]);
      ReachableInv(t, actions[..n]);
      CallStep(t, s, actions[n]);
      HappensExtend(t, actions, LateReset);
      var calls, call := TriggerCalls(t, actions[..n]), TriggerCall(s, actions[n]);
      if call.Some? {
        GuardedExtend(t, calls, call.value);
        EventExtend(t, calls, call.value);
      } else {
        assert TriggerCalls(t, actions) == calls;
      }
    }
  }

  /** The firmware's detections are the Python machine's on the windows it hears. */
  ghost predicate DetectsAsPython(t: Tuning, actions: seq<Action>)
    requires Execute(t, START, actions).Some?
  {
    var calls := TriggerCalls(t, actions);
    Detections(t, calls) == Fired(t, Heard(t, calls))
  }

  /** Whatever the interleaving, late forces included, as long as no reset is late, the
      firmware detects as Python does, so its detections have the trigger's meaning. */
  lemma FirmwareDetections(t: Tuning, actions: seq<Action>)
    requires t.Valid() && Execute(t, START, actions).Some? && !Happens(t, actions, LateReset)
    ensures DetectsAsPython(t, actions)
    ensures var calls := TriggerCalls(t, actions);
            MeetsSpec(t, Heard(t, calls), Detections(t, calls))
  {
    hide Execute, MeetsSpec, Guarded, TriggerCalls;
    CallsGuarded(t, actions);
    FirmwareSimulatesPython(t, TriggerCalls(t, actions));
    DetectionsMeetSpec(t, TriggerCalls(t, actions));
  }

  /** Windows scored since StreamingTask stored kListening and has not yet cleared the count. */
  function WindowsInReset(t: Tuning, actions: seq<Action>): nat {
    if actions == [] then 0
    else
      var n := |actions| - 1;
      var before := Execute(t, START, actions[..n]);
      if before.None? || before.value.stream != Reset then 0
      else WindowsInReset(t, actions[..n]) + if actions[n].KwsUpdate? then 1 else 0
  }

  /** Between the two stores KwsTask scores no more windows than the cooldown has. */
  ghost predicate Prompt(t: Tuning, actions: seq<Action>) {
    forall i :: 0 <= i < |actions| && actions[i] == StreamReset ==>
      WindowsInReset(t, actions[..i]) <= t.cooldown
  }

  /** What a step that leaves StreamingTask at Reset does to the counters. */
  lemma ResetStep(t: Tuning, s: System, a: Action)
    requires Inv(t, s) && Apply(t, s, a).Some? && Apply(t, s, a).value.stream == Reset
    ensures var counters := Apply(t, s, a).value.machine.counters;
            && (s.stream != Reset ==> counters == Counters(0, t.cooldown))
            && (s.stream == Reset && !a.KwsUpdate? ==> counters == s.machine.counters)
            && (s.stream == Reset && a.KwsUpdate? && s.machine.counters.cooling > 0 ==>
                counters == Counters(0, s.machine.counters.cooling - 1))
  {
  }

  lemma ResetsAtReset(t: Tuning, s: System)
    requires Apply(t, s, StreamReset).Some?
    ensures s.stream == Reset
  {
  }

  /** The first C windows heard in a reset only count the cooldown down. */
  lemma {:induction false} CooldownCoversReset(t: Tuning, actions: seq<Action>)
    requires Execute(t, START, actions).Some? && Execute(t, START, actions).value.stream == Reset
    requires WindowsInReset(t, actions) <= t.cooldown
    ensures Execute(t, START, actions).value.machine.counters ==
            Counters(0, t.cooldown - WindowsInReset(t, actions))
  {
    hide Apply;
    var n := |actions| - 1;
    var before := Execute(t, START, actions[..n]).value;
    ReachableInv(t, actions[..n]);
    ResetStep(t, before, actions[n]);
    if before.stream == Reset {
      CooldownCoversReset(t, actions[..n]);
    }
  }

  /** So a reset is late only if KwsTask scores more than C windows within one ForceState. */
  lemma PromptNeverLate(t: Tuning, actions: seq<Action>)
    requires Execute(t, START, actions).Some? && Prompt(t, actions)
    ensures !Happens(t, actions, LateReset)
  {
    hide WindowsInReset, Apply, Execute;
    forall i | 0 <= i < |actions| ensures !HappensAt(t, actions, i, LateReset) {
      if HappensAt(t, actions, i, LateReset) {
        StepTaken(t, actions, i);
        ResetsAtReset(t, Execute(t, START, actions[..i]).value);
        CooldownCoversReset(t, actions[..i]);
      }
    }
  }

  lemma CallsExtend(t: Tuning, actions: seq<Action>, a: Action)
    requires Execute(t, START, actions).Some? && Execute(t, START, actions + [a]).Some?
    ensures var call := TriggerCall(Execute(t, START, actions).value, a);
            TriggerCalls(t, actions + [a]) ==
            TriggerCalls(t, actions) + if call.Some? then [call.value] else []
  {
    hide TriggerCall, Apply;
    assert (actions + [a])[..|actions|] == actions;
  }

  function AtThreshold(t: Tuning, n: nat): seq<Event> {
    Windows(seq(n, _ => t.threshold))
  }

  lemma AtThresholdExtend(t: Tuning, events: seq<Event>, n: nat)
    requires n > 0
    ensures events + AtThreshold(t, n) == (events + AtThreshold(t, n - 1)) + [Window(t.threshold)]
  {
  }

  lemma NoWindows(t: Tuning, events: seq<Event>)
    ensures events + AtThreshold(t, 0) == events
  {
  }

  /** Windows that do not fire are all heard. */
  lemma {:induction false} ScoringRuns(t: Tuning, actions: seq<Action>, n: nat)
    requires Execute(t, START, actions).Some? && Execute(t, START, actions).value.kws == Check
    requires Run(t, TriggerCalls(t, actions) + AtThreshold(t, n)).state == Listening
    ensures var (calls, all) := (TriggerCalls(t, actions), actions + Scoring(t, n));
            && Execute(t, START, all) ==
               Some(Execute(t, START, actions).value.(machine := Run(t, calls + AtThreshold(t, n))))
            && TriggerCalls(t, all) == calls + AtThreshold(t, n)
  {
    hide Execute, TriggerCalls, Run, AtThreshold;
    var calls := TriggerCalls(t, actions);
    CallsGuarded(t, actions);
    if n == 0 {
      NoWindows(t, calls);
      assert actions + Scoring(t, 0) == actions;
    } else {
      AtThresholdExtend(t, calls, n);
      EventExtend(t, calls + AtThreshold(t, n - 1), Window(t.threshold));
      ScoringRuns(t, actions, n - 1);
      var a0 := actions + Scoring(t, n - 1);
      var a1 := a0 + [KwsPoll];
      var a2 := a1 + [KwsUpdate(t.threshold)];
      ExecuteExtend(t, START, a0, KwsPoll);
      ExecuteExtend(t, START, a1, KwsUpdate(t.threshold));
      CallsExtend(t, a0, KwsPoll);
      CallsExtend(t, a1, KwsUpdate(t.threshold));
      assert actions + Scoring(t, n) == a2;
    }
  }

  lemma ThresholdIsWindows(t: Tuning, n: nat)
    ensures AtThreshold(t, n) == Windows(seq(n, _ => t.threshold))
  {
  }

  /** A late reset costs detections: the windows that complete the count make Python fire and
      leave the firmware listening. */
  lemma LateResetDiverges(t: Tuning, actions: seq<Action>)
    requires t.Valid() && Execute(t, START, actions).Some? && !Happens(t, actions, LateReset)
    requires var s := Execute(t, START, actions).value;
             s.stream == Reset && s.kws == Check && s.machine.counters.consecutive > 0
    ensures var n := Max(0, t.needed - Execute(t, START, actions).value.machine.counters.consecutive);
            var all := actions + [StreamReset] + Scoring(t, n);
            Execute(t, START, all).Some? && !DetectsAsPython(t, all)
  {
    hide Execute, TriggerCalls, Run, Guarded, Heard, Fired, Detections, Happens, AtThreshold;
    ReachableInv(t, actions);
    CallsGuarded(t, actions);
    var s, calls := Execute(t, START, actions).value, TriggerCalls(t, actions);
    var n := Max(0, t.needed - s.machine.counters.consecutive);
    ForceMidCountDiverges(t, calls);
    ExecuteExtend(t, START, actions, StreamReset);
    CallsExtend(t, actions, StreamReset);
    ThresholdIsWindows(t, n);
    ScoringRuns(t, actions + [StreamReset], n);
  }

  /** A session fails to connect, and KwsTask scores C + 1 windows at the threshold while
      StreamingTask stands between the two stores of ForceState(kListening). */
  function Starved(t: Tuning): seq<Action> {
    Scoring(t, t.needed) + [KwsSend([])] + [KwsForce(Streaming)] + [StreamReceive([])]
    + [StreamConnect(false)] + [StreamForce(ErrorRecovery)] + [StreamForce(Listening)] + Scoring(t, t.cooldown) + [KwsPoll] + [KwsUpdate(t.threshold)]
  }

  lemma {:induction false} ScoringNeverResets(t: Tuning, n: nat)
    ensures StreamReset !in Scoring(t, n)
  {
    if n > 0 { ScoringNeverResets(t, n - 1); }
  }

  lemma NoResetNoLateReset(t: Tuning, actions: seq<Action>)
    requires StreamReset !in actions
    ensures !Happens(t, actions, LateReset)
  {
    forall i | 0 <= i < |actions| ensures !HappensAt(t, actions, i, LateReset) {
      assert actions[i] in actions;
    }
  }

  lemma {:induction false} FirmwareCoolsDown(t: Tuning, events: seq<Event>, n: nat)
    requires Run(t, events) == Machine(Counters(0, t.cooldown), Listening) && n <= t.cooldown
    ensures Run(t, events + AtThreshold(t, n)) == Machine(Counters(0, t.cooldown - n), Listening)
  {
    hide Run, AtThreshold;
    if n == 0 {
      NoWindows(t, events);
    } else {
      FirmwareCoolsDown(t, events, n - 1);
      AtThresholdExtend(t, events, n);
      EventExtend(t, events + AtThreshold(t, n - 1), Window(t.threshold));
    }
  }

  /** Every tuning with N >= 2 has a schedule that starts a count within a reset. */
  lemma LateResetReachable(t: Tuning)
    requires t.Valid() && t.needed >= 2
    ensures Execute(t, START, Starved(t)) ==
            Some(System(Machine(Counters(1, 0), Listening), [], Check, Reset, []))
    ensures !Happens(t, Starved(t), LateReset)
  {
    hide Execute, Run, Happens, TriggerCalls;
    var a0 := Scoring(t, t.needed);
    DetectionReachable(t, t.needed);
    var a1 := a0 + [KwsSend([])];
    ExecuteExtend(t, START, a0, KwsSend([]));
    var a2 := a1 + [KwsForce(Streaming)];
    ExecuteExtend(t, START, a1, KwsForce(Streaming));
    var a3 := a2 + [StreamReceive([])];
    ExecuteExtend(t, START, a2, StreamReceive([]));
    var a4 := a3 + [StreamConnect(false)];
    ExecuteExtend(t, START, a3, StreamConnect(false));
    var a5 := a4 + [StreamForce(ErrorRecovery)];
    ExecuteExtend(t, START, a4, StreamForce(ErrorRecovery));
    var a6 := a5 + [StreamForce(Listening)];
    ExecuteExtend(t, START, a5, StreamForce(Listening));
    CallsGuarded(t, a6);
    FirmwareCoolsDown(t, TriggerCalls(t, a6), t.cooldown);
    ScoringRuns(t, a6, t.cooldown);
    var a7 := a6 + Scoring(t, t.cooldown);
    ExecuteExtend(t, START, a7, KwsPoll);
    ExecuteExtend(t, START, a7 + [KwsPoll], KwsUpdate(t.threshold));
    ScoringNeverResets(t, t.needed);
    ScoringNeverResets(t, t.cooldown);
    NoResetNoLateReset(t, Starved(t));
  }

  lemma {:induction false} CountBelowNeeded(t: Tuning, events: seq<Event>)
    requires t.Valid()
    ensures Run(t, events).counters.consecutive < t.needed
  {
    if events != [] { CountBelowNeeded(t, events[..|events| - 1]); }
  }

  /** The exact condition on the tuning: the firmware detects as Python does under every
      interleaving if and only if a single window is enough to trigger. */
  lemma DetectsAsPythonExactly(t: Tuning)
    requires t.Valid()
    ensures (forall actions :: Execute(t, START, actions).Some? ==> DetectsAsPython(t, actions))
            <==> t.needed == 1
  {
    hide Execute, DetectsAsPython;
    if t.needed == 1 {
      forall actions | Execute(t, START, actions).Some? ensures DetectsAsPython(t, actions) {
        forall i | 0 <= i < |actions| ensures !HappensAt(t, actions, i, LateReset) {
          if HappensAt(t, actions, i, LateReset) {
            CallsGuarded(t, actions[..i]);
            CountBelowNeeded(t, TriggerCalls(t, actions[..i]));
          }
        }
        FirmwareDetections(t, actions);
      }
    } else {
      LateResetReachable(t);
      LateResetDiverges(t, Starved(t));
      assert exists actions :: Execute(t, START, actions).Some? && !DetectsAsPython(t, actions);
    }
  }
}
