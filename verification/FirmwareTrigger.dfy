/** The firmware's trigger machine (trigger_state_machine.cpp): the same counters, frozen
    while the application is not listening, and its agreement with the Python machine. */
module FirmwareTrigger {
  import opened Words
  import opened Trigger

  datatype AppState = Listening | KeywordDetected | Streaming | SessionComplete | ErrorRecovery

  datatype Machine = Machine(counters: Counters, state: AppState)

  const INITIAL := Machine(IDLE, Listening)

  function Evaluated(t: Tuning, m: Machine, p: real): Machine {
    if m.state != Listening then m
    else
      var (counters, fires) := Updated(t, m.counters, p);
      Machine(counters, if fires then KeywordDetected else Listening)
  }

  /** Forcing kListening restarts the count but leaves the cooldown running. */
  function Forced(m: Machine, state: AppState): Machine {
    Machine(if state == Listening then m.counters.(consecutive := 0) else m.counters, state)
  }

  class TriggerStateMachine {
    const tuning: Tuning
    var consecutiveCount: nat
    var cooldownRemaining: nat
    var state: AppState

    constructor (threshold: real, consecutivePositiveWindows: int, cooldownWindows: int)
      ensures tuning == Clamped(threshold, consecutivePositiveWindows, cooldownWindows)
      ensures tuning.threshold == threshold
      ensures tuning.needed == if consecutivePositiveWindows >= 1 then consecutivePositiveWindows else 1
      ensures tuning.cooldown == if cooldownWindows >= 0 then cooldownWindows else 0
      ensures Value() == INITIAL && state == Listening && consecutiveCount == 0 && cooldownRemaining == 0
    {
      tuning := Tuning(threshold,
                       if consecutivePositiveWindows > 0 then consecutivePositiveWindows else 1,
                       if cooldownWindows > 0 then cooldownWindows else 0);
      consecutiveCount, cooldownRemaining, state := 0, 0, Listening;
    }

    ghost function Value(): Machine
      reads this
    {
      Machine(Counters(consecutiveCount, cooldownRemaining), state)
    }

    method Update(probability: real) returns (after: AppState)
      modifies this
      ensures Value() == Evaluated(tuning, old(Value()), probability)
      ensures after == state
      ensures old(state) != Listening ==>
                state == old(state) && consecutiveCount == old(consecutiveCount)
                && cooldownRemaining == old(cooldownRemaining)
      ensures old(state) == Listening ==> state in {Listening, KeywordDetected}
    {
      if state != Listening {
        return state;
      }
      if cooldownRemaining > 0 {
        cooldownRemaining := cooldownRemaining - 1;
        consecutiveCount := 0;
        return state;
      }
      if probability >= tuning.threshold {
        consecutiveCount := consecutiveCount + 1;
      } else {
        consecutiveCount := 0;
      }
      if consecutiveCount >= tuning.needed {
        consecutiveCount := 0;
        cooldownRemaining := tuning.cooldown;
        state := KeywordDetected;
      }
      return state;
    }

    method ForceState(next: AppState)
      modifies this
      ensures Value() == Forced(old(Value()), next)
      ensures state == next && cooldownRemaining == old(cooldownRemaining)
      ensures consecutiveCount == if next == Listening then 0 else old(consecutiveCount)
    {
      state := next;
      if next == Listening {
        consecutiveCount := 0;
      }
    }
  }

  /** What happens to the machine: a window is evaluated, or a state is forced. */
  datatype Event = Window(p: real) | Force(state: AppState)

  function Step(t: Tuning, m: Machine, e: Event): Machine {
    match e
    case Window(p) => Evaluated(t, m, p)
    case Force(s) => Forced(m, s)
  }

  function Run(t: Tuning, events: seq<Event>): Machine {
    if events == [] then INITIAL
    else Step(t, Run(t, events[..|events| - 1]), events[|events| - 1])
  }

  /** The windows evaluated while listening, and for each whether it was a detection. */
  function Heard(t: Tuning, events: seq<Event>): seq<real> {
    if events == [] then []
    else
      var (before, e) := (Run(t, events[..|events| - 1]), events[|events| - 1]);
      Heard(t, events[..|events| - 1]) +
      if e.Window? && before.state == Listening then [e.p] else []
  }

  function Detections(t: Tuning, events: seq<Event>): seq<bool> {
    if events == [] then []
    else
      var (before, e) := (Run(t, events[..|events| - 1]), events[|events| - 1]);
      Detections(t, events[..|events| - 1]) +
      if e.Window? && before.state == Listening
      then [Evaluated(t, before, e.p).state == KeywordDetected] else []
  }

  /** No state is forced while a count is running; in particular this holds when the machine
      leaves kListening only by detecting. */
  ghost predicate Guarded(t: Tuning, events: seq<Event>) {
    forall i :: 0 <= i < |events| && events[i].Force? ==>
      Run(t, events[..i]).state != Listening || Run(t, events[..i]).counters.consecutive == 0
  }

  lemma GuardedPrefix(t: Tuning, events: seq<Event>, n: nat)
    requires Guarded(t, events) && n <= |events|
    ensures Guarded(t, events[..n])
  {
    forall i | 0 <= i < n ensures events[..n][..i] == events[..i] {}
  }

  /** Simulation: the firmware's detections are the Python machine's on the windows heard,
      the cooldown standing still in between, and the counters agree throughout. */
  lemma {:induction false} FirmwareSimulatesPython(t: Tuning, events: seq<Event>)
    requires Guarded(t, events)
    ensures Detections(t, events) == Fired(t, Heard(t, events))
    ensures Run(t, events).counters == After(t, Heard(t, events))
    ensures Run(t, events).state != Listening ==> Run(t, events).counters.consecutive == 0
  {
    if events != [] {
      var init, e := events[..|events| - 1], events[|events| - 1];
      GuardedPrefix(t, events, |init|);
      FirmwareSimulatesPython(t, init);
      var heard := Heard(t, events);
      if e.Window? && Run(t, init).state == Listening {
        assert heard[..|heard| - 1] == Heard(t, init);
      } else {
        assert heard == Heard(t, init) && Detections(t, events) == Detections(t, init);
      }
    }
  }

  /** The detections therefore have the meaning of the trigger: N windows heard in a row, and
      none in the N + C - 1 heard before. */
  lemma DetectionsMeetSpec(t: Tuning, events: seq<Event>)
    requires t.Valid() && Guarded(t, events)
    ensures MeetsSpec(t, Heard(t, events), Detections(t, events))
  {
    hide MeetsSpec, Tracks, Fired, After;
    FirmwareSimulatesPython(t, events);
    var _ := MachineMeetsSpec(t, Heard(t, events));
  }

  function Windows(ps: seq<real>): seq<Event> {
    seq(|ps|, i requires 0 <= i < |ps| => Window(ps[i]))
  }

  lemma EventExtend(t: Tuning, events: seq<Event>, e: Event)
    ensures Run(t, events + [e]) == Step(t, Run(t, events), e)
    ensures e.Force? ==>
              && Heard(t, events + [e]) == Heard(t, events)
              && Detections(t, events + [e]) == Detections(t, events)
    ensures e.Window? && Run(t, events).state == Listening ==>
              && Heard(t, events + [e]) == Heard(t, events) + [e.p]
              && Detections(t, events + [e]) ==
                 Detections(t, events) + [Run(t, events + [e]).state == KeywordDetected]
  {
    assert (events + [e])[..|events|] == events;
  }

  /** Windows at the threshold only count up, while there are fewer than N: in Python, ... */
  lemma {:induction false} PythonCountsUp(t: Tuning, heard: seq<real>, n: nat)
    requires After(t, heard).cooling == 0 && After(t, heard).consecutive + n < t.needed
    ensures After(t, heard + seq(n, _ => t.threshold)) == Counters(After(t, heard).consecutive + n, 0)
  {
    var ps := seq(n, _ => t.threshold);
    if n == 0 {
      assert heard + ps == heard;
    } else {
      PythonCountsUp(t, heard, n - 1);
      assert (heard + ps)[..|heard| + n - 1] == heard + seq(n - 1, _ => t.threshold);
    }
  }

  /** ... and in the firmware, ... */
  lemma {:induction false} FirmwareCountsUp(t: Tuning, events: seq<Event>, n: nat)
    requires Run(t, events).state == Listening && Run(t, events).counters.cooling == 0
    requires Run(t, events).counters.consecutive + n < t.needed
    ensures Run(t, events + Windows(seq(n, _ => t.threshold))) ==
            Machine(Counters(Run(t, events).counters.consecutive + n, 0), Listening)
  {
    var ps := seq(n, _ => t.threshold);
    if n == 0 {
      assert events + Windows(ps) == events;
    } else {
      FirmwareCountsUp(t, events, n - 1);
      assert (events + Windows(ps))[..|events| + n - 1] ==
             events + Windows(seq(n - 1, _ => t.threshold));
    }
  }

  /** ... which hears all of them and detects nothing. */
  lemma {:induction false} CountingDetectsNothing(t: Tuning, events: seq<Event>, n: nat)
    requires Run(t, events).state == Listening && Run(t, events).counters.cooling == 0
    requires Run(t, events).counters.consecutive + n < t.needed
    ensures var all := events + Windows(seq(n, _ => t.threshold));
            && Heard(t, all) == Heard(t, events) + seq(n, _ => t.threshold)
            && Detections(t, all) == Detections(t, events) + seq(n, _ => false)
  {
    hide Run, Heard, Detections;
    var all := events + Windows(seq(n, _ => t.threshold));
    if n == 0 {
      assert all == events;
    } else {
      var init := events + Windows(seq(n - 1, _ => t.threshold));
      CountingDetectsNothing(t, events, n - 1);
      FirmwareCountsUp(t, events, n - 1);
      FirmwareCountsUp(t, events, n);
      EventExtend(t, init, Window(t.threshold));
      assert all == init + [Window(t.threshold)];
      assert seq(n - 1, _ => t.threshold) + [t.threshold] == seq(n, _ => t.threshold);
      assert seq(n - 1, _ => false) + [false] == seq(n, _ => false);
    }
  }

  lemma FiredLast(t: Tuning, probs: seq<real>, p: real)
    ensures Fired(t, probs + [p])[|probs|] == Updated(t, After(t, probs), p).1
  {
    assert (probs + [p])[..|probs|] == probs;
  }

  /** The guard is needed: forcing kListening in the middle of a count makes the machines
      disagree, for the windows that complete the count make Python fire and leave the
      firmware listening. */
  lemma ForceMidCountDiverges(t: Tuning, events: seq<Event>)
    requires t.Valid() && Guarded(t, events)
    requires Run(t, events).state == Listening
    requires Run(t, events).counters.consecutive > 0
    ensures var ps := seq(Max(0, t.needed - Run(t, events).counters.consecutive), _ => t.threshold);
            var all := events + [Force(Listening)] + Windows(ps);
            && Heard(t, all) == Heard(t, events) + ps && ps != []
            && Fired(t, Heard(t, all))[|Heard(t, all)| - 1]
            && Run(t, all).state == Listening
            && Detections(t, all) != Fired(t, Heard(t, all))
  {
    hide Heard, Detections, Guarded, Fired, After, Run, Windows;
    FirmwareSimulatesPython(t, events);
    var heard := Heard(t, events);
    CountersBound(t, heard);
    var n := t.needed - Run(t, events).counters.consecutive;
    EventExtend(t, events, Force(Listening));
    PythonCountsUp(t, heard, n - 1);
    FirmwareCountsUp(t, events + [Force(Listening)], n);
    CountingDetectsNothing(t, events + [Force(Listening)], n);
    FiredLast(t, heard + seq(n - 1, _ => t.threshold), t.threshold);
    assert heard + seq(n, _ => t.threshold) ==
           heard + seq(n - 1, _ => t.threshold) + [t.threshold];
    assert (Detections(t, events) + seq(n, _ => false))[|heard| + n - 1] == false;
  }
}
