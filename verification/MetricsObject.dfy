/**
 * The accumulator object and the interleaved system: each method of the object is a run of
 * atomic steps, so that the object shows what the system does when nothing interferes.
 */
module MetricsObject {
  import opened Metrics
  import opened MetricsRuns

  function AsSeq(c: Counters): (r: seq<int>)
    ensures |r| == COUNTERS
    ensures r[STARTED] == c.started && r[ENDED] == c.ended && r[FAILED] == c.failed && r[SENT] == c.sent
            && r[RECEIVED] == c.received && r[STARTS] == c.starts && r[STOPS] == c.stops
  {
    [c.started, c.ended, c.failed, c.sent, c.received, c.starts, c.stops]
  }

  /** A state of the system in which the accumulator has these fields and no rollup is under way. */
  function StateOf(f: Fields, recorders: seq<Recorder>, snaps: seq<Snapshot>): State {
    State(AsSeq(f.counters), f.active, f.peak, f.timing, recorders, NoRollup, snaps)
  }

  /** The steps lead from s to t. */
  ghost predicate Reaches(s: State, steps: seq<Step>, t: State)
    decreases |steps|
  {
    if steps == [] then s == t else Enabled(s, steps[0]) && Reaches(Next(s, steps[0]), steps[1..], t)
  }

  lemma ReachesNow(s: State)
    ensures Reaches(s, [], s)
  {
  }

  lemma ReachesStep(s: State, step: Step, rest: seq<Step>, t: State)
    requires Enabled(s, step) && Reaches(Next(s, step), rest, t)
    ensures Reaches(s, [step] + rest, t)
  {
    assert ([step] + rest)[1..] == rest;
  }

  lemma {:induction false} ReachesOn(s: State, a: seq<Step>, t: State, b: seq<Step>, u: State)
    requires Reaches(s, a, t) && Reaches(t, b, u)
    ensures Reaches(s, a + b, u)
    decreases |a|
  {
    if a == [] {
      assert a + b == b;
    } else {
      ReachesOn(Next(s, a[0]), a[1..], t, b, u);
      assert (a + b)[1..] == a[1..] + b;
    }
  }

  // ---- Recording -----------------------------------------------------------------------------

  /** The loop loads the peak once and, when the level is higher, swaps it in. */
  function LoopSteps(f: Fields, w: nat): seq<Step> {
    [LoadPeak(w)] + (if f.active + 1 <= f.peak then [] else [CompareAndSwap(w)] + [])
  }

  function StartedSteps(f: Fields, w: nat): seq<Step> {
    [Add(STARTED, 1)] + ([RaiseActive] + LoopSteps(f, w))
  }

  lemma LoopIsRun(f: Fields, recorders: seq<Recorder>, snaps: seq<Snapshot>)
    ensures var level := f.active + 1; var raised := Fields(f.counters, level, f.peak, f.timing);
            Reaches(StateOf(raised, recorders + [Raising(level)], snaps), LoopSteps(f, |recorders|),
                    StateOf(raised.(peak := if f.peak < level then level else f.peak), recorders + [Finished(level)], snaps))
  {
    var level, w := f.active + 1, |recorders|;
    var raised := Fields(f.counters, level, f.peak, f.timing);
    var s := StateOf(raised, recorders + [Raising(level)], snaps);
    var s1 := Next(s, LoadPeak(w));
    if level <= f.peak {
      assert s1.recorders == recorders + [Finished(level)];
      ReachesNow(s1);
      ReachesStep(s, LoadPeak(w), [], s1);
    } else {
      assert s1.recorders == recorders + [Comparing(level, f.peak)];
      var s2 := Next(s1, CompareAndSwap(w));
      assert s2.recorders == recorders + [Finished(level)];
      ReachesNow(s2);
      ReachesStep(s1, CompareAndSwap(w), [], s2);
      ReachesStep(s, LoadPeak(w), [CompareAndSwap(w)] + [], s2);
    }
  }

  lemma ConnectionStartedIsRun(f: Fields, recorders: seq<Recorder>, snaps: seq<Snapshot>)
    ensures Reaches(StateOf(f, recorders, snaps), StartedSteps(f, |recorders|),
                    StateOf(Started(f), recorders + [Finished(f.active + 1)], snaps))
  {
    var counted := f.(counters := Started(f).counters);
    var s, t := StateOf(f, recorders, snaps), StateOf(Started(f), recorders + [Finished(f.active + 1)], snaps);
    var s1 := StateOf(counted, recorders, snaps);
    assert Next(s, Add(STARTED, 1)) == s1;
    LoopIsRun(counted, recorders, snaps);
    ReachesStep(s1, RaiseActive, LoopSteps(f, |recorders|), t);
    ReachesStep(s, Add(STARTED, 1), [RaiseActive] + LoopSteps(f, |recorders|), t);
  }

  lemma ConnectionEndedIsRun(f: Fields, recorders: seq<Recorder>, snaps: seq<Snapshot>, ms: int)
    ensures Reaches(StateOf(f, recorders, snaps), [Add(ENDED, 1)] + ([LowerActive] + ([Duration(ms)] + [])),
                    StateOf(Ended(f, ms), recorders, snaps))
  {
    var s, t := StateOf(f, recorders, snaps), StateOf(Ended(f, ms), recorders, snaps);
    var s1 := StateOf(f.(counters := Ended(f, ms).counters), recorders, snaps);
    assert Next(s, Add(ENDED, 1)) == s1;
    var s2 := Next(s1, LowerActive);
    assert Next(s2, Duration(ms)) == t;
    ReachesNow(t);
    ReachesStep(s2, Duration(ms), [], t);
    ReachesStep(s1, LowerActive, [Duration(ms)] + [], t);
    ReachesStep(s, Add(ENDED, 1), [LowerActive] + ([Duration(ms)] + []), t);
  }

  function AddIfPositive(counter: nat, n: int): seq<Step> {
    if n > 0 then [Add(counter, n)] + [] else []
  }

  lemma AddBytesIsRun(f: Fields, recorders: seq<Recorder>, snaps: seq<Snapshot>, sent: int, received: int)
    ensures Reaches(StateOf(f, recorders, snaps), AddIfPositive(SENT, sent) + AddIfPositive(RECEIVED, received),
                    StateOf(Transferred(f, sent, received), recorders, snaps))
  {
    var s, t := StateOf(f, recorders, snaps), StateOf(Transferred(f, sent, received), recorders, snaps);
    var mid := StateOf(Transferred(f, sent, 0), recorders, snaps);
    ReachesNow(mid);
    ReachesNow(t);
    if sent > 0 {
      assert Next(s, Add(SENT, sent)) == mid;
      ReachesStep(s, Add(SENT, sent), [], mid);
    }
    if received > 0 {
      assert Next(mid, Add(RECEIVED, received)) == t;
      ReachesStep(mid, Add(RECEIVED, received), [], t);
    }
    ReachesOn(s, AddIfPositive(SENT, sent), mid, AddIfPositive(RECEIVED, received), t);
  }

  lemma ColdStartedIsRun(f: Fields, recorders: seq<Recorder>, snaps: seq<Snapshot>, ms: int)
    ensures Reaches(StateOf(f, recorders, snaps), [Add(STARTS, 1)] + ([ColdStart(ms)] + []), StateOf(StartedCold(f, ms), recorders, snaps))
  {
    var s, t := StateOf(f, recorders, snaps), StateOf(StartedCold(f, ms), recorders, snaps);
    var s1 := Next(s, Add(STARTS, 1));
    assert Next(s1, ColdStart(ms)) == t;
    ReachesNow(t);
    ReachesStep(s1, ColdStart(ms), [], t);
    ReachesStep(s, Add(STARTS, 1), [ColdStart(ms)] + [], t);
  }

  lemma ContainerStoppedIsRun(f: Fields, recorders: seq<Recorder>, snaps: seq<Snapshot>, now: int)
    ensures Reaches(StateOf(f, recorders, snaps), [Add(STOPS, 1)] + ([Step.Stopped(now)] + []),
                    StateOf(Metrics.Stopped(f, now), recorders, snaps))
  {
    var s, t := StateOf(f, recorders, snaps), StateOf(Metrics.Stopped(f, now), recorders, snaps);
    var s1 := Next(s, Add(STOPS, 1));
    assert Next(s1, Step.Stopped(now)) == t;
    ReachesNow(t);
    ReachesStep(s1, Step.Stopped(now), [], t);
    ReachesStep(s, Add(STOPS, 1), [Step.Stopped(now)] + [], t);
  }

  // ---- Rollup --------------------------------------------------------------------------------------

  function Swaps(n: nat): seq<Step> {
    if n == 0 then [] else [SwapCounter] + Swaps(n - 1)
  }

  /** The counters from number k on are swapped out one after the other. */
  lemma {:induction false} SwapsAreRun(s: State, all: seq<int>, k: nat)
    requires k <= |all| == |s.counters| && s.rollup == Swapping(all[..k])
    requires forall i :: 0 <= i < |all| ==> s.counters[i] == if i < k then 0 else all[i]
    ensures Reaches(s, Swaps(|all| - k), s.(counters := seq(|all|, _ => 0), rollup := Swapping(all)))
    decreases |all| - k
  {
    var t := s.(counters := seq(|all|, _ => 0), rollup := Swapping(all));
    if k == |all| {
      assert all[..k] == all && s.counters == t.counters;
    } else {
      var n := Next(s, SwapCounter);
      assert all[..k] + [all[k]] == all[..k + 1];
      SwapsAreRun(n, all, k + 1);
      ReachesStep(s, SwapCounter, Swaps(|all| - k - 1), t);
    }
  }

  function ClosingSteps(windowEnd: int): seq<Step> {
    [LoadActive] + ([SwapPeak] + ([EndWindow(windowEnd)] + []))
  }

  function WindowSnapshot(f: Fields, windowEnd: int): Snapshot {
    Snapshot(AsSeq(f.counters), f.active, WindowPeak(f), ReportFor(f.timing, windowEnd))
  }

  lemma ClosingIsRun(f: Fields, recorders: seq<Recorder>, snaps: seq<Snapshot>, windowEnd: int)
    ensures Reaches(StateOf(f, recorders, snaps).(counters := AsSeq(ZERO), rollup := Swapping(AsSeq(f.counters))), ClosingSteps(windowEnd),
                    StateOf(Rolled(f, windowEnd), recorders, snaps + [WindowSnapshot(f, windowEnd)]))
  {
    var s := StateOf(f, recorders, snaps).(counters := AsSeq(ZERO), rollup := Swapping(AsSeq(f.counters)));
    var t := StateOf(Rolled(f, windowEnd), recorders, snaps + [WindowSnapshot(f, windowEnd)]);
    var s1 := Next(s, LoadActive);
    var s2 := Next(s1, SwapPeak);
    assert Next(s2, EndWindow(windowEnd)) == t;
    ReachesNow(t);
    ReachesStep(s2, EndWindow(windowEnd), [], t);
    ReachesStep(s1, SwapPeak, [EndWindow(windowEnd)] + [], t);
    ReachesStep(s, LoadActive, [SwapPeak] + ([EndWindow(windowEnd)] + []), t);
  }

  lemma RollupIsRun(f: Fields, recorders: seq<Recorder>, snaps: seq<Snapshot>, windowEnd: int)
    ensures Reaches(StateOf(f, recorders, snaps), [BeginRollup] + (Swaps(COUNTERS) + ClosingSteps(windowEnd)),
                    StateOf(Rolled(f, windowEnd), recorders, snaps + [WindowSnapshot(f, windowEnd)]))
  {
    var s := StateOf(f, recorders, snaps);
    var t := StateOf(Rolled(f, windowEnd), recorders, snaps + [WindowSnapshot(f, windowEnd)]);
    var s1 := Next(s, BeginRollup);
    var all := AsSeq(f.counters);
    assert all[..0] == [];
    SwapsAreRun(s1, all, 0);
    assert seq(|all|, _ => 0) == AsSeq(ZERO);
    var s2 := s1.(counters := AsSeq(ZERO), rollup := Swapping(all));
    ClosingIsRun(f, recorders, snaps, windowEnd);
    ReachesOn(s1, Swaps(COUNTERS), s2, ClosingSteps(windowEnd), t);
    ReachesStep(s, BeginRollup, Swaps(COUNTERS) + ClosingSteps(windowEnd), t);
  }
}
