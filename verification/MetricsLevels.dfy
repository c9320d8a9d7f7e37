/** What the levels, the peaks and the running flag of an accumulator mean in terms of the steps taken. */
module MetricsLevels {
  import opened Metrics
  import opened MetricsRuns

  // ---- The running flag ------------------------------------------------------------------

  /** Step k is the observation that began the running interval in progress: the first one since the last stop. */
  ghost predicate BeganInterval(steps: seq<Step>, k: nat) {
    && k < |steps| && steps[k].Running?
    && (forall j :: k < j < |steps| ==> !steps[j].Stopped?)
    && (forall j :: 0 <= j < k && steps[j].Running? ==> exists m :: j < m < k && steps[m].Stopped?)
  }

  lemma BeganGrows(steps: seq<Step>, k: nat)
    requires steps != [] && BeganInterval(steps[..|steps| - 1], k) && !steps[|steps| - 1].Stopped?
    ensures BeganInterval(steps, k)
  {
    var front := steps[..|steps| - 1];
    assert forall j :: 0 <= j < |front| ==> front[j] == steps[j];
    forall j | 0 <= j < k && steps[j].Running? ensures exists m :: j < m < k && steps[m].Stopped? {
      assert front[j].Running?;
      var m :| j < m < k && front[m].Stopped?;
      assert steps[m].Stopped?;
    }
  }

  /** Nothing runs: every observation has been followed by a stop. */
  ghost predicate AllStopped(steps: seq<Step>) {
    forall j :: 0 <= j < |steps| && steps[j].Running? ==> exists m :: j < m < |steps| && steps[m].Stopped?
  }

  lemma AllStoppedGrows(steps: seq<Step>)
    requires steps != [] && (steps[|steps| - 1].Stopped? || (AllStopped(steps[..|steps| - 1]) && !steps[|steps| - 1].Running?))
    ensures AllStopped(steps)
  {
    var front := steps[..|steps| - 1];
    forall j | 0 <= j < |steps| && steps[j].Running? ensures exists m :: j < m < |steps| && steps[m].Stopped? {
      if steps[|front|].Stopped? {
        assert j < |front|;
      } else {
        assert front[j].Running?;
        var m :| j < m < |front| && front[m].Stopped?;
        assert steps[m].Stopped?;
      }
    }
  }

  lemma ObservedAfterStops(steps: seq<Step>)
    requires steps != [] && steps[|steps| - 1].Running? && AllStopped(steps[..|steps| - 1])
    ensures BeganInterval(steps, |steps| - 1)
  {
    var front := steps[..|steps| - 1];
    forall j | 0 <= j < |front| && steps[j].Running? ensures exists m :: j < m < |front| && steps[m].Stopped? {
      assert front[j].Running?;
      var m :| j < m < |front| && front[m].Stopped?;
      assert steps[m].Stopped?;
    }
  }

  /** Uptime runs exactly since the first observation after the last stop, whatever rollups come in between. */
  lemma {:induction false} RunsSinceObservation(steps: seq<Step>)
    requires IsRun(steps)
    ensures if After(steps).timing.running then exists k: nat :: BeganInterval(steps, k) && RunningSince(steps) == steps[k].at
            else AllStopped(steps)
  {
    if steps != [] {
      var front, last := steps[..|steps| - 1], steps[|steps| - 1];
      RunsSinceObservation(front);
      var before := After(front).timing.running;
      assert After(steps) == Next(After(front), last);
      if last.Stopped? || (!before && !last.Running?) {
        AllStoppedGrows(steps);
      } else if before {
        var k: nat :| BeganInterval(front, k) && RunningSince(front) == front[k].at;
        BeganGrows(steps, k);
      } else {
        ObservedAfterStops(steps);
      }
    }
  }

  // ---- Levels and peaks -------------------------------------------------------------------------

  function Raised(steps: seq<Step>): nat {
    if steps == [] then 0 else Raised(steps[..|steps| - 1]) + (if steps[|steps| - 1].RaiseActive? then 1 else 0)
  }

  function Lowered(steps: seq<Step>): nat {
    if steps == [] then 0 else Lowered(steps[..|steps| - 1]) + (if steps[|steps| - 1].LowerActive? then 1 else 0)
  }

  /** The level is the number of connections started and not yet ended. */
  lemma {:induction false} LevelIsNet(steps: seq<Step>)
    requires IsRun(steps)
    ensures After(steps).active == Raised(steps) - Lowered(steps)
  {
    if steps != [] {
      LevelIsNet(steps[..|steps| - 1]);
    }
  }

  /** At some point of the run that many connections were open. */
  ghost predicate Reached(steps: seq<Step>, level: int) {
    exists k :: 0 <= k <= |steps| && Raised(steps[..k]) - Lowered(steps[..k]) == level
  }

  lemma ReachedGrows(steps: seq<Step>, level: int)
    requires steps != [] && Reached(steps[..|steps| - 1], level)
    ensures Reached(steps, level)
  {
    var front := steps[..|steps| - 1];
    var k :| 0 <= k <= |front| && Raised(front[..k]) - Lowered(front[..k]) == level;
    assert front[..k] == steps[..k];
  }

  lemma ReachedNow(steps: seq<Step>)
    requires IsRun(steps)
    ensures Reached(steps, After(steps).active)
  {
    LevelIsNet(steps);
    assert steps[..|steps|] == steps;
  }

  ghost predicate RollupReached(steps: seq<Step>, rollup: Rollup) {
    && (rollup.PeakNext? ==> Reached(steps, rollup.active))
    && (rollup.Closing? ==> Reached(steps, rollup.active) && Reached(steps, rollup.peak))
  }

  /** Every level that the accumulator holds, or has reported, was reached. */
  ghost predicate LevelsReached(steps: seq<Step>, s: State) {
    && Reached(steps, s.active) && Reached(steps, s.peak)
    && (forall w :: 0 <= w < |s.recorders| ==> Reached(steps, s.recorders[w].level))
    && RollupReached(steps, s.rollup)
    && (forall n :: 0 <= n < |s.snaps| ==> Reached(steps, s.snaps[n].active) && Reached(steps, s.snaps[n].peak))
  }

  lemma LevelsGrow(steps: seq<Step>, s: State)
    requires steps != [] && LevelsReached(steps[..|steps| - 1], s)
    ensures LevelsReached(steps, s)
  {
    forall level | Reached(steps[..|steps| - 1], level) ensures Reached(steps, level) {
      ReachedGrows(steps, level);
    }
  }

  lemma StepReaches(steps: seq<Step>, s: State, step: Step)
    requires LevelsReached(steps, s) && Enabled(s, step) && Reached(steps, Next(s, step).active)
    ensures LevelsReached(steps, Next(s, step))
  {
  }

  /** No peak and no level is ever reported, or held for a report, that was not really reached. */
  lemma {:induction false} PeaksWereReached(steps: seq<Step>)
    requires IsRun(steps)
    ensures LevelsReached(steps, After(steps))
  {
    ReachedNow(steps);
    if steps == [] {
      assert Start().active == 0;
    } else {
      var front := steps[..|steps| - 1];
      PeaksWereReached(front);
      LevelsGrow(steps, After(front));
      StepReaches(steps, After(front), steps[|steps| - 1]);
    }
  }

  // ---- A window's gauge -------------------------------------------------------------------------------

  predicate HoldsLevel(rollup: Rollup, level: int) {
    (rollup.PeakNext? || rollup.Closing?) && rollup.active == level && (rollup.Closing? ==> rollup.peak >= level)
  }

  lemma {:induction false} LoadedLevelHolds(steps: seq<Step>, j: nat, m: nat)
    requires IsRun(steps) && j < m <= |steps| && steps[j].LoadActive?
    requires forall k :: j < k < m ==> !steps[k].EndWindow?
    ensures HoldsLevel(After(steps[..m]).rollup, After(steps[..j]).active)
    decreases m
  {
    var k := m - 1;
    PrefixIsRun(steps, k);
    if k > j {
      LoadedLevelHolds(steps, j, k);
      HoldsOn(After(steps[..k]), steps[k], After(steps[..j]).active);
    }
  }

  lemma HoldsOn(s: State, step: Step, level: int)
    requires Enabled(s, step) && !step.EndWindow? && HoldsLevel(s.rollup, level)
    ensures HoldsLevel(Next(s, step).rollup, level)
  {
  }

  /** A window reports as open the connections that were open when its rollup looked, and a peak at least as high. */
  lemma {:induction false} WindowReportsOpen(steps: seq<Step>, j: nat, m: nat)
    requires IsRun(steps) && j < m < |steps| && steps[j].LoadActive?
    requires steps[m].EndWindow? && forall k :: j < k < m ==> !steps[k].EndWindow?
    ensures var snaps := After(steps[..m + 1]).snaps;
            && snaps != [] && snaps[|snaps| - 1].active == Raised(steps[..j]) - Lowered(steps[..j])
            && snaps[|snaps| - 1].peak >= snaps[|snaps| - 1].active
  {
    LoadedLevelHolds(steps, j, m);
    PrefixIsRun(steps, j);
    PrefixIsRun(steps, m);
    LevelIsNet(steps[..j]);
  }
}
