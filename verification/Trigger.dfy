/** The trigger: N consecutive windows at or above the threshold fire it, and C windows of
    cooldown follow (desktop/desktop_kws_client.py). A probability is a real. */
module Trigger {
  import opened Words

  /** N >= 1 and C >= 0 after the constructor's clamping. */
  datatype Tuning = Tuning(threshold: real, needed: nat, cooldown: nat) {
    predicate Valid() { needed >= 1 }
  }

  function Clamped(threshold: real, needed: int, cooldown: int): (t: Tuning)
    ensures t.Valid()
  {
    Tuning(threshold, Max(1, needed), Max(0, cooldown))
  }

  datatype Counters = Counters(consecutive: nat, cooling: nat)

  const IDLE := Counters(0, 0)

  /** One window: the counters afterwards, and whether it fires. */
  function Updated(t: Tuning, c: Counters, p: real): (Counters, bool) {
    if c.cooling > 0 then (Counters(0, c.cooling - 1), false)
    else
      var count := if p >= t.threshold then c.consecutive + 1 else 0;
      if count >= t.needed then (Counters(0, t.cooldown), true)
      else (Counters(count, 0), false)
  }

  /** The counters after a trace, and for each of its windows whether it fired. */
  function After(t: Tuning, probs: seq<real>): Counters {
    if probs == [] then IDLE
    else Updated(t, After(t, probs[..|probs| - 1]), probs[|probs| - 1]).0
  }

  function Fired(t: Tuning, probs: seq<real>): (f: seq<bool>)
    ensures |f| == |probs|
  {
    if probs == [] then []
    else Fired(t, probs[..|probs| - 1]) +
         [Updated(t, After(t, probs[..|probs| - 1]), probs[|probs| - 1]).1]
  }

  lemma {:induction false} FiredPrefix(t: Tuning, probs: seq<real>, n: nat)
    requires n <= |probs|
    ensures Fired(t, probs)[..n] == Fired(t, probs[..n])
    decreases |probs|
  {
    if n < |probs| {
      var init := probs[..|probs| - 1];
      FiredPrefix(t, init, n);
      assert init[..n] == probs[..n];
      assert Fired(t, probs)[..n] == Fired(t, init)[..n];
    } else {
      assert probs[..n] == probs;
    }
  }

  ghost predicate AllAbove(t: Tuning, probs: seq<real>, from: int, to: int) {
    forall i :: from <= i < to && 0 <= i < |probs| ==> probs[i] >= t.threshold
  }

  ghost predicate NoneFired(fired: seq<bool>, from: int, to: int) {
    forall i :: from <= i < to && 0 <= i < |fired| ==> !fired[i]
  }

  /** The intended meaning, with no counters in it: window j fires if and only if there are N
      windows up to it, the last N are all at or above the threshold, and none of the
      N + C - 1 windows before it fired. */
  ghost predicate MeetsSpec(t: Tuning, probs: seq<real>, fired: seq<bool>) {
    && |fired| == |probs|
    && forall j :: 0 <= j < |probs| ==>
         (fired[j] <==> && j + 1 >= t.needed
                        && AllAbove(t, probs, j + 1 - t.needed, j + 1)
                        && NoneFired(fired, j - (t.needed + t.cooldown - 1), j))
  }

  /** last is where the most recent trigger fired; -1 when none has. */
  ghost predicate LastFire(fired: seq<bool>, last: int) {
    && -1 <= last < |fired|
    && (last >= 0 ==> fired[last])
    && NoneFired(fired, last + 1, |fired|)
  }

  /** What the counters know about the trace that led to them. */
  ghost predicate Tracks(t: Tuning, probs: seq<real>, fired: seq<bool>, c: Counters, last: int) {
    var k, n := |probs|, c.consecutive;
    && |fired| == k && LastFire(fired, last)
    && n < t.needed && n <= k && AllAbove(t, probs, k - n, k)
    && (last < 0 ==> c.cooling == 0)
    && (last >= 0 ==> c.cooling == Max(0, t.cooldown - (k - 1 - last)))
    && (c.cooling > 0 ==> n == 0)
    // the run is as long as it can be
    && (last >= 0 && c.cooling == 0 ==> last + t.cooldown <= k - 1 - n)
    && (n < k && c.cooling == 0 && !(last >= 0 && last + t.cooldown == k - 1 - n)
        ==> probs[k - 1 - n] < t.threshold)
  }

  lemma TracksNext(t: Tuning, probs: seq<real>, fired: seq<bool>, c: Counters, last: int, p: real)
    returns (last': int)
    requires t.Valid() && Tracks(t, probs, fired, c, last)
    ensures var (c', fires) := Updated(t, c, p);
            && Tracks(t, probs + [p], fired + [fires], c', last')
            && (fires <==> && |probs| + 1 >= t.needed
                           && AllAbove(t, probs + [p], |probs| + 1 - t.needed, |probs| + 1)
                           && NoneFired(fired, |probs| - (t.needed + t.cooldown - 1), |probs|))
  {
    var (c', fires) := Updated(t, c, p);
    var k := |probs|;
    last' := if fires then k else last;
    var longer := probs + [p];
    if !fires && k + 1 >= t.needed && AllAbove(t, longer, k + 1 - t.needed, k + 1) {
      assert longer[k] == p;
      if c.cooling > 0 {
        assert fired[last];
      } else {
        var stop := k - 1 - c.consecutive;
        assert stop >= k + 1 - t.needed;
        assert longer[stop] == probs[stop];
        assert last >= 0 && last + t.cooldown == stop;
        assert fired[last];
      }
    }
  }

  lemma SpecNext(t: Tuning, probs: seq<real>, fired: seq<bool>, p: real, fires: bool)
    requires MeetsSpec(t, probs, fired)
    requires fires <==> && |probs| + 1 >= t.needed
                        && AllAbove(t, probs + [p], |probs| + 1 - t.needed, |probs| + 1)
                        && NoneFired(fired, |probs| - (t.needed + t.cooldown - 1), |probs|)
    ensures MeetsSpec(t, probs + [p], fired + [fires])
  {
    var longer, all := probs + [p], fired + [fires];
    assert forall i {:trigger fired[i]} :: 0 <= i < |fired| ==> all[i] == fired[i];
    assert forall i {:trigger probs[i]} :: 0 <= i < |probs| ==> longer[i] == probs[i];
    forall j | 0 <= j < |longer|
      ensures all[j] <==> && j + 1 >= t.needed
                          && AllAbove(t, longer, j + 1 - t.needed, j + 1)
                          && NoneFired(all, j - (t.needed + t.cooldown - 1), j)
    {
      assert NoneFired(all, j - (t.needed + t.cooldown - 1), j) <==>
             NoneFired(fired, j - (t.needed + t.cooldown - 1), j);
      if j < |probs| {
        assert AllAbove(t, probs, j + 1 - t.needed, j + 1) <==>
               AllAbove(t, longer, j + 1 - t.needed, j + 1);
      }
    }
  }

  lemma {:induction false} MachineMeetsSpec(t: Tuning, probs: seq<real>) returns (last: int)
    requires t.Valid()
    ensures Tracks(t, probs, Fired(t, probs), After(t, probs), last)
    ensures MeetsSpec(t, probs, Fired(t, probs))
  {
    if probs == [] {
      last := -1;
    } else {
      hide Tracks, MeetsSpec, AllAbove, NoneFired, Updated;
      var init, p := probs[..|probs| - 1], probs[|probs| - 1];
      var before := MachineMeetsSpec(t, init);
      last := TracksNext(t, init, Fired(t, init), After(t, init), before, p);
      SpecNext(t, init, Fired(t, init), p, Updated(t, After(t, init), p).1);
      assert probs == init + [p];
    }
  }

  /** The meaning pins the triggers down: the machine's are the only ones that meet it. */
  lemma {:induction false} SpecUnique(t: Tuning, probs: seq<real>, f: seq<bool>, g: seq<bool>, n: nat)
    requires MeetsSpec(t, probs, f) && MeetsSpec(t, probs, g) && n <= |probs|
    ensures f[..n] == g[..n]
  {
    if n > 0 {
      var j := n - 1;
      SpecUnique(t, probs, f, g, j);
      forall i | 0 <= i < j ensures f[i] == g[i] { assert f[..j][i] == g[..j][i]; }
      assert NoneFired(f, j - (t.needed + t.cooldown - 1), j) <==>
             NoneFired(g, j - (t.needed + t.cooldown - 1), j);
      assert f[..n] == f[..j] + [f[j]] && g[..n] == g[..j] + [g[j]];
    }
  }

  function Count(fired: seq<bool>): nat {
    if fired == [] then 0
    else Count(fired[..|fired| - 1]) + if fired[|fired| - 1] then 1 else 0
  }

  lemma {:induction false} CountersBound(t: Tuning, probs: seq<real>)
    requires t.Valid()
    ensures var c := After(t, probs);
            && c.cooling <= t.cooldown && c.consecutive < t.needed
            && (c.cooling > 0 ==> c.consecutive == 0)
  {
    if probs != [] { CountersBound(t, probs[..|probs| - 1]); }
  }

  lemma CountStep(m: nat, m': nat, period: nat, fires: bool)
    requires m' == m + if fires then 1 else 0
    ensures m' * period == m * period + if fires then period else 0
  {
  }

  /** Each trigger uses up a period of N + C windows, less the cooldown still to run. */
  lemma {:induction false} CountBound(t: Tuning, probs: seq<real>, period: nat)
    requires t.Valid() && period == t.needed + t.cooldown
    ensures var c := After(t, probs);
            Count(Fired(t, probs)) * period + c.consecutive - c.cooling <= |probs|
  {
    if probs != [] {
      var init, p := probs[..|probs| - 1], probs[|probs| - 1];
      CountBound(t, init, period);
      CountersBound(t, init);
      var f, fires := Fired(t, probs), Updated(t, After(t, init), p).1;
      assert f[..|f| - 1] == Fired(t, init) && f[|f| - 1] == fires;
      CountStep(Count(Fired(t, init)), Count(f), period, fires);
    }
  }

  /** Any two triggers are at least N + C windows apart. */
  lemma TriggerSpacing(t: Tuning, probs: seq<real>, i: nat, j: nat)
    requires t.Valid() && i < j < |probs| && Fired(t, probs)[i] && Fired(t, probs)[j]
    ensures j - i >= t.needed + t.cooldown
  {
    hide Fired, After, Tracks;
    var last := MachineMeetsSpec(t, probs);
    assert NoneFired(Fired(t, probs), j - (t.needed + t.cooldown - 1), j);
  }

  /** n windows hold k triggers only if k * (N + C) <= n + C. */
  lemma TriggerRate(t: Tuning, probs: seq<real>)
    requires t.Valid()
    ensures Count(Fired(t, probs)) * (t.needed + t.cooldown) <= |probs| + t.cooldown
  {
    hide Fired, After, Count;
    CountBound(t, probs, t.needed + t.cooldown);
    CountersBound(t, probs);
  }

  /** The Python object. */
  class TriggerStateMachine {
    const tuning: Tuning
    var consecutiveCount: nat
    var cooldownRemaining: nat

    constructor (threshold: real, consecutivePositiveWindows: int, cooldownWindows: int)
      ensures tuning == Clamped(threshold, consecutivePositiveWindows, cooldownWindows)
      ensures tuning.threshold == threshold
      ensures tuning.needed == if consecutivePositiveWindows >= 1 then consecutivePositiveWindows else 1
      ensures tuning.cooldown == if cooldownWindows >= 0 then cooldownWindows else 0
      ensures Value() == IDLE && consecutiveCount == 0 && cooldownRemaining == 0
    {
      tuning := Tuning(threshold, Max(1, consecutivePositiveWindows), Max(0, cooldownWindows));
      consecutiveCount := 0;
      cooldownRemaining := 0;
    }

    ghost function Value(): Counters
      reads this
    {
      Counters(consecutiveCount, cooldownRemaining)
    }

    method Update(probability: real) returns (fires: bool)
      modifies this
      ensures (Value(), fires) == Updated(tuning, old(Value()), probability)
    {
      if cooldownRemaining > 0 {
        cooldownRemaining := cooldownRemaining - 1;
        consecutiveCount := 0;
        return false;
      }
      if probability >= tuning.threshold {
        consecutiveCount := consecutiveCount + 1;
      } else {
        consecutiveCount := 0;
      }
      if consecutiveCount >= tuning.needed {
        consecutiveCount := 0;
        cooldownRemaining := tuning.cooldown;
        return true;
      }
      return false;
    }

    method Reset()
      modifies this
      ensures Value() == IDLE && consecutiveCount == 0 && cooldownRemaining == 0
    {
      consecutiveCount := 0;
      cooldownRemaining := 0;
    }
  }

  /** simulate_trigger_sequence: the indices of the windows that fire. */
  method SimulateTriggerSequence(probs: seq<real>, threshold: real, consecutiveWindows: int,
                                 cooldownWindows: int)
    returns (triggers: seq<nat>)
    ensures forall a, b :: 0 <= a < b < |triggers| ==> triggers[a] < triggers[b]
    ensures var fired := Fired(Clamped(threshold, consecutiveWindows, cooldownWindows), probs);
            forall i :: i in triggers <==> 0 <= i < |probs| && fired[i]
  {
    var sm := new TriggerStateMachine(threshold, consecutiveWindows, cooldownWindows);
    triggers := [];
    for i := 0 to |probs|
      invariant fresh(sm) && sm.tuning == Clamped(threshold, consecutiveWindows, cooldownWindows)
      invariant sm.Value() == After(sm.tuning, probs[..i])
      invariant forall a, b :: 0 <= a < b < |triggers| ==> triggers[a] < triggers[b]
      invariant forall a :: 0 <= a < |triggers| ==> triggers[a] < i
      invariant forall k :: k in triggers <==> 0 <= k < i && Fired(sm.tuning, probs[..i])[k]
    {
      assert probs[..i + 1][..i] == probs[..i];
      var fires := sm.Update(probs[i]);
      if fires {
        triggers := triggers + [i];
      }
    }
    assert probs[..|probs|] == probs;
  }
}
