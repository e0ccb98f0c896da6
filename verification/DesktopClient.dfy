/** The desktop simulation (desktop/desktop_kws_client.py): frames are read, kept for the
    pre-roll and scored until the trigger fires; then pre-roll and remaining audio are
    spliced into one utterance. */
module DesktopClient {
  import opened Words
  import opened Pcm
  import opened Circular
  import opened Trigger
  import opened WavSource
  import opened DesktopRing

  /** The source's constants are 480, 12800, 32000 and 16192 samples; any positive ones do.
      Either the trigger is forced from a frame on, or a model scores each window. */
  datatype Setup = Setup(
    frameSize: nat,
    preRoll: nat,
    ringCapacity: nat,
    window: nat,
    forceTrigger: bool,
    triggerFrame: Option<int>,
    model: Option<seq<Sample> -> real>)
  {
    predicate Valid() {
      frameSize >= 1 && ringCapacity >= 1 && window >= 1
    }
  }

  const TUNING := Tuning(0.8, 3, 75)

  function Probability(s: Setup, frameIndex: nat, window: seq<Sample>): real {
    if s.forceTrigger && (s.triggerFrame.None? || frameIndex >= s.triggerFrame.value) then 0.99
    else if s.model.Some? then s.model.value(window)
    else 0.0
  }

  /** Samples in the first k frames. */
  function Upto(s: Setup, k: nat): nat {
    k * s.frameSize
  }

  /** Frame k of the stream completes a window. */
  predicate Scored(s: Setup, k: nat) {
    Upto(s, k) >= s.window
  }

  lemma Earlier(s: Setup, k: nat)
    requires k >= 1
    ensures Upto(s, k) == Upto(s, k - 1) + s.frameSize
  {
  }

  /** The probabilities seen up to and including frame k of the stream. */
  function Scores(s: Setup, stream: seq<Sample>, k: nat): seq<real>
    requires Upto(s, k) <= |stream|
  {
    if k == 0 then []
    else
      Earlier(s, k);
      Scores(s, stream, k - 1) +
      if Scored(s, k) then [Probability(s, k, LastOf(stream[..Upto(s, k)], s.window))] else []
  }

  /** The trigger fires at frame k. */
  predicate FiresAt(s: Setup, stream: seq<Sample>, k: nat)
    requires Upto(s, k) <= |stream|
  {
    k >= 1 && Scored(s, k) && Scores(s, stream, k) != [] &&
    var fired := Fired(TUNING, Scores(s, stream, k));
    fired[|fired| - 1]
  }

  /** Frame t is the first at which the trigger fires. */
  ghost predicate TriggersAt(s: Setup, stream: seq<Sample>, t: nat) {
    && Upto(s, t) <= |stream| && FiresAt(s, stream, t)
    && forall k: nat :: k < t ==> Upto(s, k) <= |stream| && !FiresAt(s, stream, k)
  }

  /** Where the utterance begins when frame t triggers. */
  function Start(s: Setup, t: nat): nat {
    var pushed := Upto(s, t);
    pushed - Min(pushed, Min(s.preRoll, s.ringCapacity))
  }

  lemma ScoresStep(s: Setup, stream: seq<Sample>, k: nat, p: real)
    requires Upto(s, k) <= Upto(s, k + 1) <= |stream|
    requires Scored(s, k + 1)
    requires p == Probability(s, k + 1, LastOf(stream[..Upto(s, k + 1)], s.window))
    ensures FiresAt(s, stream, k + 1) <==>
            Updated(TUNING, After(TUNING, Scores(s, stream, k)), p).1
    ensures After(TUNING, Scores(s, stream, k + 1)) ==
            Updated(TUNING, After(TUNING, Scores(s, stream, k)), p).0
  {
    var before := Scores(s, stream, k);
    assert Scores(s, stream, k + 1) == before + [p];
    assert (before + [p])[..|before|] == before;
  }

  lemma NoScores(s: Setup, stream: seq<Sample>)
    ensures Upto(s, 0) == 0 && !FiresAt(s, stream, 0)
    ensures Scores(s, stream, 0) == [] && After(TUNING, []) == IDLE
    ensures LastOf<Sample>([], s.ringCapacity) == []
  {
  }

  lemma SkippedScore(s: Setup, stream: seq<Sample>, k: nat)
    requires 1 <= k && Upto(s, k - 1) <= Upto(s, k) <= |stream| && !Scored(s, k)
    ensures Scores(s, stream, k) == Scores(s, stream, k - 1) && !FiresAt(s, stream, k)
  {
  }

  lemma NextFrame(stream: seq<Sample>, at: nat, frame: seq<Sample>, rest: seq<Sample>)
    requires at <= |stream| && stream[at..] == frame + rest
    ensures at + |frame| <= |stream|
    ensures stream[..at + |frame|] == stream[..at] + frame && stream[at + |frame|..] == rest
  {
    assert |stream[at..]| == |frame| + |rest|;
    assert stream == stream[..at] + (frame + rest);
  }

  /** Keeping the last n at every push is keeping the last n of everything pushed. */
  lemma LastOfPush(all: seq<Sample>, frame: seq<Sample>, n: nat)
    ensures LastOf(LastOf(all, n) + frame, n) == LastOf(all + frame, n)
  {
  }

  /** Pre-roll and remaining audio meet without loss or repetition. */
  lemma Splice(s: Setup, stream: seq<Sample>, t: nat)
    requires Upto(s, t) <= |stream|
    ensures LastOf(LastOf(stream[..Upto(s, t)], s.ringCapacity), s.preRoll) + stream[Upto(s, t)..]
            == stream[Start(s, t)..]
  {
    hide Upto;
  }

  lemma UptoGrows(s: Setup, m: nat, n: nat)
    requires s.frameSize >= 1
    ensures m <= n <==> Upto(s, m) <= Upto(s, n)
  {
    if m > n {
      assert m * s.frameSize == n * s.frameSize + (m - n) * s.frameSize;
      MulAtLeast(s.frameSize, m - n);
    } else {
      assert n * s.frameSize == m * s.frameSize + (n - m) * s.frameSize;
    }
  }

  lemma Regroup(a: seq<Sample>, b: seq<Sample>, c: seq<Sample>)
    ensures a + (b + c) == a + b + c
  {
  }

  /** All the audio still to be read, joined. */
  method SourceRemaining(source: WavAudioSource, frameSize: nat) returns (rest: seq<Sample>)
    requires source.Valid() && frameSize >= 1
    modifies source
    ensures source.Valid() && source.Rest(frameSize) == []
    ensures rest == old(source.Rest(frameSize))
  {
    hide Padded;
    ghost var all := source.Rest(frameSize);
    rest := [];
    while true
      invariant source.Valid()
      invariant |rest| + |source.Rest(frameSize)| == |all|
      invariant all == rest + source.Rest(frameSize)
      decreases |all| - |rest|
    {
      var frame := source.Read(frameSize);
      if frame.None? {
        break;
      }
      Regroup(rest, frame.value, source.Rest(frameSize));
      rest := rest + frame.value;
    }
  }

  /** The frame loop: read, remember, score, until the trigger fires or the audio ends. */
  method Listen(source: WavAudioSource, ring: RingBuffer, s: Setup, ghost stream: seq<Sample>)
    returns (triggered: bool, frameIndex: nat)
    requires s.Valid() && source.Valid() && ring.Valid()
    requires ring.buffer.Length == s.ringCapacity && ring.Recent() == []
    requires source.Rest(s.frameSize) == stream
    modifies source, ring, ring.buffer
    ensures source.Valid() && ring.Valid() && Upto(s, frameIndex) <= |stream|
    ensures source.Rest(s.frameSize) == stream[Upto(s, frameIndex)..]
    ensures ring.Recent() == LastOf(stream[..Upto(s, frameIndex)], s.ringCapacity)
    ensures if triggered then TriggersAt(s, stream, frameIndex)
            else Upto(s, frameIndex) == |stream|
                 && forall k: nat :: k <= frameIndex ==>
                      Upto(s, k) <= |stream| && !FiresAt(s, stream, k)
  {
    hide Fired, After, Updated, Scores, Probability, Upto, FiresAt, LastOf;
    var trigger := new TriggerStateMachine(0.8, 3, 75);
    var accumulated: seq<Sample> := [];
    frameIndex, triggered := 0, false;
    NoScores(s, stream);
    assert stream[0..] == stream;
    while true
      invariant fresh(trigger) && trigger.tuning == TUNING
      invariant source.Valid() && ring.Valid()
      invariant Upto(s, frameIndex) <= |stream|
      invariant source.Rest(s.frameSize) == stream[Upto(s, frameIndex)..]
      invariant accumulated == stream[..Upto(s, frameIndex)]
      invariant ring.Recent() == LastOf(accumulated, s.ringCapacity)
      invariant trigger.Value() == After(TUNING, Scores(s, stream, frameIndex))
      invariant forall k: nat :: k <= frameIndex ==>
        Upto(s, k) <= |stream| && !FiresAt(s, stream, k)
      decreases |stream| - Upto(s, frameIndex)
    {
      var frame := source.Read(s.frameSize);
      if frame.None? {
        return;
      }
      ring.Push(frame.value);
      Earlier(s, frameIndex + 1);
      NextFrame(stream, Upto(s, frameIndex), frame.value, source.Rest(s.frameSize));
      LastOfPush(accumulated, frame.value, s.ringCapacity);
      accumulated := accumulated + frame.value;
      frameIndex := frameIndex + 1;
      if |accumulated| < s.window {
        SkippedScore(s, stream, frameIndex);
        continue;
      }
      var window := LastOf(accumulated, s.window);
      var probability := Probability(s, frameIndex, window);
      ScoresStep(s, stream, frameIndex - 1, probability);
      triggered := trigger.Update(probability);
      if triggered {
        return;
      }
    }
  }

  /** The last three scores up to frame k are all at or above the threshold. */
  predicate ThreeAbove(s: Setup, stream: seq<Sample>, k: nat)
    requires Upto(s, k) <= |stream|
  {
    && k >= 1 && Scored(s, k) && |Scores(s, stream, k)| >= 3
    && var scores := Scores(s, stream, k);
       forall i :: |scores| - 3 <= i < |scores| ==> scores[i] >= TUNING.threshold
  }

  /** A trigger among the scores so far is a frame at which the trigger fired. */
  lemma {:induction false} FiredFrame(s: Setup, stream: seq<Sample>, k: nat, i: nat) returns (f: nat)
    requires s.frameSize >= 1 && Upto(s, k) <= |stream|
    requires i < |Scores(s, stream, k)| && Fired(TUNING, Scores(s, stream, k))[i]
    ensures f <= k && Upto(s, f) <= |stream| && FiresAt(s, stream, f)
    ensures i < |Scores(s, stream, k)| - 1 || !Scored(s, k) ==> f < k
  {
    hide Upto;
    if k == 0 {
      NoScores(s, stream);
      assert false;
    } else {
      Earlier(s, k);
      var before, now := Scores(s, stream, k - 1), Scores(s, stream, k);
      if Scored(s, k) && i == |now| - 1 {
        f := k;
      } else {
        assert now[..|before|] == before;
        FiredPrefix(TUNING, now, |before|);
        assert Fired(TUNING, now)[..|before|][i] == Fired(TUNING, now)[i];
        f := FiredFrame(s, stream, k - 1, i);
      }
    }
  }

  lemma FiringMeansThree(s: Setup, stream: seq<Sample>, k: nat)
    requires Upto(s, k) <= |stream| && FiresAt(s, stream, k)
    ensures ThreeAbove(s, stream, k)
  {
    hide Upto, Scores, Fired;
    var _ := MachineMeetsSpec(TUNING, Scores(s, stream, k));
  }

  lemma ThreeMeansFired(s: Setup, stream: seq<Sample>, k: nat) returns (f: nat)
    requires s.frameSize >= 1 && Upto(s, k) <= |stream| && ThreeAbove(s, stream, k)
    ensures f <= k && Upto(s, f) <= |stream| && FiresAt(s, stream, f)
  {
    hide Upto, Scores, Fired;
    var scores := Scores(s, stream, k);
    var _ := MachineMeetsSpec(TUNING, scores);
    var last := |scores| - 1;
    if Fired(TUNING, scores)[last] {
      f := k;
    } else {
      assert !NoneFired(Fired(TUNING, scores), last - 77, last);
      var i: nat :| i < last && Fired(TUNING, scores)[i];
      f := FiredFrame(s, stream, k, i);
    }
  }

  /** What triggers the simulation: frame t does if and only if it is the first whose last
      three scores are all at or above the threshold. No counter is mentioned. */
  lemma TriggersMeaning(s: Setup, stream: seq<Sample>, t: nat)
    requires s.Valid() && Upto(s, t) <= |stream|
    ensures TriggersAt(s, stream, t) <==>
            && ThreeAbove(s, stream, t)
            && forall k: nat :: k < t ==> Upto(s, k) <= |stream| && !ThreeAbove(s, stream, k)
  {
    hide Upto, FiresAt, ThreeAbove;
    forall k: nat | k < t ensures Upto(s, k) <= |stream| { UptoGrows(s, k, t); }
    if k: nat :| k <= t && FiresAt(s, stream, k) { FiringMeansThree(s, stream, k); }
    forall k: nat | k <= t && FiresAt(s, stream, k) ensures ThreeAbove(s, stream, k) {
      FiringMeansThree(s, stream, k);
    }
    forall k: nat | k <= t && ThreeAbove(s, stream, k)
      ensures exists f: nat :: f <= k && Upto(s, f) <= |stream| && FiresAt(s, stream, f)
    {
      var f := ThreeMeansFired(s, stream, k);
    }
  }

  /** Frame k would be scored, and scored 0.99. */
  predicate Eligible(s: Setup, k: nat) {
    k >= 1 && Scored(s, k) && (s.triggerFrame.None? || k >= s.triggerFrame.value)
  }

  /** The first eligible frame, or t + 1 when there is none up to t. */
  lemma {:induction false} FirstEligible(s: Setup, stream: seq<Sample>, t: nat) returns (m: nat)
    requires s.Valid()
    ensures 1 <= m <= t + 1
    ensures m <= t ==> Eligible(s, m)
    ensures !Eligible(s, m - 1)
    decreases t
  {
    if t == 0 {
      m := 1;
    } else {
      m := FirstEligible(s, stream, t - 1);
      if m == t && !Eligible(s, t) { m := t + 1; }
    }
  }

  lemma EligibleGrows(s: Setup, j: nat, k: nat)
    requires s.frameSize >= 1 && Eligible(s, j) && j <= k
    ensures Eligible(s, k)
  {
    UptoGrows(s, j, k);
  }

  /** Before the first eligible frame nothing is counted; from it on, every frame is. */
  lemma {:induction false} ForcedScores(s: Setup, stream: seq<Sample>, m: nat, k: nat)
    requires s.Valid() && s.forceTrigger && s.model.None?
    requires Upto(s, k) <= |stream|
    requires m >= 1 && !Eligible(s, m - 1) && (m <= k ==> Eligible(s, m))
    requires k < m + 2
    ensures After(TUNING, Scores(s, stream, k)) == Counters(Max(0, k - m + 1), 0)
    ensures !FiresAt(s, stream, k)
  {
    hide Upto, Fired, After;
    if k == 0 {
      NoScores(s, stream);
    } else {
      Earlier(s, k);
      ForcedScores(s, stream, m, k - 1);
      if Eligible(s, k) && k < m { EligibleGrows(s, k, m - 1); }
      if k >= m { EligibleGrows(s, m, k); }
      if Scored(s, k) {
        ScoresStep(s, stream, k - 1, Probability(s, k, LastOf(stream[..Upto(s, k)], s.window)));
      } else {
        SkippedScore(s, stream, k);
      }
    }
  }

  lemma ForcedFirst(s: Setup, stream: seq<Sample>, m: nat, t: nat)
    requires s.Valid() && s.forceTrigger && s.model.None?
    requires Upto(s, t) <= |stream| && t == m + 2
    requires Eligible(s, m) && !Eligible(s, m - 1)
    ensures TriggersAt(s, stream, t)
  {
    hide Upto, Fired, After, Scores;
    forall k: nat | k < t ensures Upto(s, k) <= |stream| && !FiresAt(s, stream, k) {
      UptoGrows(s, k, t);
      ForcedScores(s, stream, m, k);
    }
    EligibleGrows(s, m, t);
    Earlier(s, t);
    ForcedScores(s, stream, m, t - 1);
    ScoresStep(s, stream, t - 1, Probability(s, t, LastOf(stream[..Upto(s, t)], s.window)));
  }

  lemma ForcedByEligible(s: Setup, stream: seq<Sample>, t: nat)
    requires s.Valid() && s.forceTrigger && s.model.None?
    requires Upto(s, t) <= |stream|
    ensures TriggersAt(s, stream, t) <==> t >= 3 && Eligible(s, t - 2) && !Eligible(s, t - 3)
  {
    hide Upto;
    if t >= 3 && Eligible(s, t - 2) && !Eligible(s, t - 3) {
      ForcedFirst(s, stream, t - 2, t);
    }
    if TriggersAt(s, stream, t) {
      var m := FirstEligible(s, stream, t);
      if m + 2 <= t {
        UptoGrows(s, m + 2, t);
        ForcedFirst(s, stream, m, m + 2);
      } else {
        ForcedScores(s, stream, m, t);
        assert false;
      }
    }
  }

  /** A forced trigger fires on the third scored frame from the requested one on, whatever the
      audio: frame t if and only if t - 2 is the first frame that is both scored and not
      before the request. */
  lemma ForcedTrigger(s: Setup, stream: seq<Sample>, t: nat)
    requires s.Valid() && s.forceTrigger && s.model.None?
    requires Upto(s, t) <= |stream|
    ensures TriggersAt(s, stream, t) <==>
            && t >= 3 && (t - 2) * s.frameSize >= s.window
            && (s.triggerFrame.None? || t - 2 >= s.triggerFrame.value)
            && (t >= 4 && (t - 3) * s.frameSize >= s.window ==>
                s.triggerFrame.Some? && t - 3 < s.triggerFrame.value)
  {
    hide TriggersAt;
    ForcedByEligible(s, stream, t);
  }

  // ------------------------------------------------ the trigger, written out

  /** Frame k completes a window, and either the trigger is forced there or the model gives
      the last samples up to its end at least 0.8. */
  ghost predicate Hot(s: Setup, stream: seq<Sample>, k: nat) {
    && 1 <= k && s.window <= k * s.frameSize <= |stream|
    && if s.forceTrigger && (s.triggerFrame.None? || k >= s.triggerFrame.value) then true
       else s.model.Some?
            && s.model.value(stream[k * s.frameSize - s.window..k * s.frameSize]) >= 0.8
  }

  /** The third of three hot frames in a row. */
  ghost predicate ThirdHot(s: Setup, stream: seq<Sample>, t: nat) {
    t >= 3 && Hot(s, stream, t - 2) && Hot(s, stream, t - 1) && Hot(s, stream, t)
  }

  ghost predicate FirstThirdHot(s: Setup, stream: seq<Sample>, t: nat) {
    ThirdHot(s, stream, t) && forall k: nat :: k < t ==> !ThirdHot(s, stream, k)
  }

  lemma HotMeans(s: Setup, stream: seq<Sample>, k: nat)
    requires 1 <= k && Upto(s, k) <= |stream|
    ensures Hot(s, stream, k) <==>
            Scored(s, k)
            && Probability(s, k, LastOf(stream[..Upto(s, k)], s.window)) >= TUNING.threshold
  {
    if Scored(s, k) {
      assert LastOf(stream[..Upto(s, k)], s.window) == stream[Upto(s, k) - s.window..Upto(s, k)];
    }
  }

  lemma ScoredStep(s: Setup, stream: seq<Sample>, k: nat)
    requires 1 <= k && Upto(s, k - 1) <= Upto(s, k) <= |stream| && Scored(s, k)
    ensures Scores(s, stream, k) ==
            Scores(s, stream, k - 1) + [Probability(s, k, LastOf(stream[..Upto(s, k)], s.window))]
  {
  }

  lemma {:induction false} ScoresCount(s: Setup, stream: seq<Sample>, k: nat)
    requires s.Valid() && Upto(s, k) <= |stream|
    ensures |Scores(s, stream, k)| <= k
    ensures !Scored(s, k) ==> Scores(s, stream, k) == []
  {
    if k == 0 {
      NoScores(s, stream);
    } else {
      Earlier(s, k);
      ScoresCount(s, stream, k - 1);
      UptoGrows(s, k - 1, k);
    }
  }

  /** The scores up to frame k end in those of the last three frames, if the first of these is
      scored; otherwise there are fewer than three. */
  lemma LastThree(s: Setup, stream: seq<Sample>, k: nat)
    requires s.Valid() && k >= 3 && Upto(s, k) <= |stream|
    requires Upto(s, k - 3) <= Upto(s, k - 2) <= Upto(s, k - 1) <= Upto(s, k)
    requires (Scored(s, k - 2) ==> Scored(s, k - 1)) && (Scored(s, k - 1) ==> Scored(s, k))
    ensures var scores := Scores(s, stream, k);
            if Scored(s, k - 2) then
              && |scores| >= 3
              && scores[|scores| - 3..] ==
                 [Probability(s, k - 2, LastOf(stream[..Upto(s, k - 2)], s.window)),
                  Probability(s, k - 1, LastOf(stream[..Upto(s, k - 1)], s.window)),
                  Probability(s, k, LastOf(stream[..Upto(s, k)], s.window))]
            else |scores| < 3
  {
    hide Upto, Probability, LastOf;
    if Scored(s, k - 2) {
      ScoredStep(s, stream, k - 2);
      ScoredStep(s, stream, k - 1);
      ScoredStep(s, stream, k);
    } else {
      ScoresCount(s, stream, k - 2);
    }
  }

  lemma TailAbove(scores: seq<real>, tail: seq<real>, threshold: real)
    requires |scores| >= 3 && tail == scores[|scores| - 3..]
    ensures (forall i :: |scores| - 3 <= i < |scores| ==> scores[i] >= threshold) <==>
            tail[0] >= threshold && tail[1] >= threshold && tail[2] >= threshold
  {
    assert tail[0] == scores[|scores| - 3] && tail[1] == scores[|scores| - 2]
           && tail[2] == scores[|scores| - 1];
  }

  lemma ScoredGrows(s: Setup, j: nat, k: nat)
    requires s.Valid() && j <= k
    ensures Scored(s, j) ==> Scored(s, k)
  {
    UptoGrows(s, j, k);
  }

  lemma ThreeAboveMeans(s: Setup, stream: seq<Sample>, k: nat)
    requires s.Valid() && Upto(s, k) <= |stream|
    ensures ThreeAbove(s, stream, k) <==> ThirdHot(s, stream, k)
  {
    hide Upto, Scored, Scores, Probability, Hot, LastOf;
    if k < 3 {
      ScoresCount(s, stream, k);
    } else {
      Earlier(s, k);
      Earlier(s, k - 1);
      Earlier(s, k - 2);
      ScoredGrows(s, k - 2, k - 1);
      ScoredGrows(s, k - 1, k);
      HotMeans(s, stream, k);
      HotMeans(s, stream, k - 1);
      HotMeans(s, stream, k - 2);
      LastThree(s, stream, k);
      var scores := Scores(s, stream, k);
      if Scored(s, k - 2) {
        TailAbove(scores, scores[|scores| - 3..], TUNING.threshold);
      }
    }
  }

  /** The whole of the trigger, with neither counters nor scores: frame t triggers if and only
      if it is the first that ends three hot frames in a row. */
  lemma TriggersWrittenOut(s: Setup, stream: seq<Sample>, t: nat)
    requires s.Valid() && t * s.frameSize <= |stream|
    ensures TriggersAt(s, stream, t) <==> FirstThirdHot(s, stream, t)
  {
    hide FiresAt, ThreeAbove, ThirdHot;
    TriggersMeaning(s, stream, t);
    forall k: nat | k <= t
      ensures Upto(s, k) <= |stream| && (ThreeAbove(s, stream, k) <==> ThirdHot(s, stream, k))
    {
      UptoGrows(s, k, t);
      ThreeAboveMeans(s, stream, k);
    }
  }

  /** No trigger in any frame of the stream. */
  lemma NeverTriggers(s: Setup, stream: seq<Sample>, n: nat)
    requires s.Valid() && n * s.frameSize <= |stream|
    requires forall k: nat :: k <= n ==> Upto(s, k) <= |stream| && !FiresAt(s, stream, k)
    ensures forall k: nat :: k <= n ==> !ThirdHot(s, stream, k)
  {
    hide FiresAt, ThreeAbove, ThirdHot;
    forall k: nat | k <= n ensures !ThirdHot(s, stream, k) {
      UptoGrows(s, k, n);
      ThreeAboveMeans(s, stream, k);
      if ThreeAbove(s, stream, k) { var f := ThreeMeansFired(s, stream, k); }
    }
  }

  /** The whole simulation up to the utterance it would stream; triggeredAt is the frame
      index it logs. The utterance is a suffix of the padded recording: it begins
      min(pre-roll, capacity, samples so far) before the trigger, and nothing is lost or
      repeated where pre-roll and remaining audio meet. There is none exactly when no frame of
      the padded recording ends three hot ones. */
  method RunSimulation(samples: seq<Sample>, s: Setup)
    returns (utterance: Option<seq<Sample>>, triggeredAt: nat)
    requires s.Valid()
    ensures var stream := Padded(samples, s.frameSize);
            && (utterance.Some? ==>
                var pushed := triggeredAt * s.frameSize;
                && FirstThirdHot(s, stream, triggeredAt) && pushed <= |stream|
                && utterance.value == stream[pushed - Min(pushed, Min(s.preRoll, s.ringCapacity))..])
            && (utterance.None? ==>
                forall k: nat :: k * s.frameSize <= |stream| ==> !ThirdHot(s, stream, k))
  {
    hide FiresAt, LastOf, Padded, TriggersAt, ThirdHot;
    ghost var stream := Padded(samples, s.frameSize);
    var source := new WavAudioSource(samples);
    assert samples[0..] == samples;
    var ring := new RingBuffer(s.ringCapacity);
    var triggered, frameIndex := Listen(source, ring, s, stream);
    if !triggered {
      NeverTriggers(s, stream, frameIndex);
      forall k: nat | k * s.frameSize <= |stream| ensures !ThirdHot(s, stream, k) {
        UptoGrows(s, k, frameIndex);
      }
      return None, 0;
    }
    var preRoll := ring.GetLast(s.preRoll);
    var remaining := SourceRemaining(source, s.frameSize);
    Splice(s, stream, frameIndex);
    TriggersWrittenOut(s, stream, frameIndex);
    utterance, triggeredAt := Some(preRoll + remaining), frameIndex;
  }
}
