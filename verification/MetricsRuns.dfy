/**
 * The accumulator under concurrency: every atomic operation and every mutex section is one
 * step, recording goroutines and the rollup interleave freely within one port registration.
 */
module MetricsRuns {
  import opened Metrics

  /** The counters reset by a rollup, in the order in which it swaps them. */
  const STARTED := 0
  const ENDED := 1
  const FAILED := 2
  const SENT := 3
  const RECEIVED := 4
  const STARTS := 5
  const STOPS := 6
  const COUNTERS: nat := 7

  /** A goroutine in the compare-and-swap loop of ConnectionStarted. */
  datatype Recorder = Raising(level: int) | Comparing(level: int, seen: int) | Finished(level: int)

  datatype Snapshot = Snapshot(counters: seq<int>, active: int, peak: int, report: Report)

  /** How far the rollup under way has got. */
  datatype Rollup =
    | NoRollup
    | Swapping(counters: seq<int>)
    | PeakNext(counters: seq<int>, active: int)
    | Closing(counters: seq<int>, active: int, peak: int)

  datatype State = State(
    counters: seq<int>,
    active: int,
    peak: int,
    timing: Timing,
    recorders: seq<Recorder>,
    rollup: Rollup,
    snaps: seq<Snapshot>)

  datatype Step =
    // recording
    | Add(counter: nat, n: int)
    | RaiseActive
    | LowerActive
    | LoadPeak(w: nat)
    | CompareAndSwap(w: nat)
    | Duration(ms: int)
    | ColdStart(ms: int)
    | Running(at: int)
    | Stopped(now: int)
    // rollup
    | BeginRollup
    | SwapCounter
    | LoadActive
    | SwapPeak
    | EndWindow(windowEnd: int)

  function Start(): State {
    State(seq(COUNTERS, _ => 0), 0, 0, FRESH, [], NoRollup, [])
  }

  predicate Enabled(s: State, step: Step) {
    match step
    case Add(k, _) => k < |s.counters|
    case LoadPeak(w) => w < |s.recorders| && s.recorders[w].Raising?
    case CompareAndSwap(w) => w < |s.recorders| && s.recorders[w].Comparing?
    case BeginRollup => s.rollup.NoRollup?
    case SwapCounter => s.rollup.Swapping? && |s.rollup.counters| < |s.counters|
    case LoadActive => s.rollup.Swapping? && |s.rollup.counters| == |s.counters|
    case SwapPeak => s.rollup.PeakNext?
    case EndWindow(_) => s.rollup.Closing?
    case _ => true
  }

  function Max(a: int, b: int): int {
    if a < b then b else a
  }

  function Next(s: State, step: Step): State
    requires Enabled(s, step)
  {
    match step
    case Add(k, n) => s.(counters := s.counters[k := s.counters[k] + n])
    case RaiseActive => s.(active := s.active + 1, recorders := s.recorders + [Raising(s.active + 1)])
    case LowerActive => s.(active := s.active - 1)
    case LoadPeak(w) =>
      var level := s.recorders[w].level;
      s.(recorders := s.recorders[w := if level <= s.peak then Finished(level) else Comparing(level, s.peak)])
    case CompareAndSwap(w) =>
      var r := s.recorders[w];
      if s.peak == r.seen then s.(peak := r.level, recorders := s.recorders[w := Finished(r.level)])
      else s.(recorders := s.recorders[w := Raising(r.level)])
    case Duration(ms) => s.(timing := RecordDuration(s.timing, ms))
    case ColdStart(ms) => s.(timing := RecordColdStart(s.timing, ms))
    case Running(at) => s.(timing := MarkRunning(s.timing, at))
    case Stopped(now) => s.(timing := MarkStopped(s.timing, now))
    case BeginRollup => s.(rollup := Swapping([]))
    case SwapCounter =>
      var k := |s.rollup.counters|;
      s.(rollup := Swapping(s.rollup.counters + [s.counters[k]]), counters := s.counters[k := 0])
    case LoadActive => s.(rollup := PeakNext(s.rollup.counters, s.active))
    case SwapPeak => s.(rollup := Closing(s.rollup.counters, s.rollup.active, Max(s.peak, s.rollup.active)), peak := s.rollup.active)
    case EndWindow(windowEnd) =>
      s.(snaps := s.snaps + [Snapshot(s.rollup.counters, s.rollup.active, s.rollup.peak, ReportFor(s.timing, windowEnd))],
         timing := CloseWindow(s.timing, windowEnd),
         rollup := NoRollup)
  }

  function After(steps: seq<Step>): State {
    if steps == [] then Start()
    else
      var before := After(steps[..|steps| - 1]);
      if Enabled(before, steps[|steps| - 1]) then Next(before, steps[|steps| - 1]) else before
  }

  ghost predicate IsRun(steps: seq<Step>) {
    steps == [] || (IsRun(steps[..|steps| - 1]) && Enabled(After(steps[..|steps| - 1]), steps[|steps| - 1]))
  }

  lemma {:induction false} PrefixIsRun(steps: seq<Step>, k: nat)
    requires IsRun(steps) && k < |steps|
    ensures IsRun(steps[..k]) && Enabled(After(steps[..k]), steps[k])
    ensures After(steps[..k + 1]) == Next(After(steps[..k]), steps[k])
    decreases |steps|
  {
    if k == |steps| - 1 {
      assert steps[..k + 1] == steps;
    } else {
      PrefixIsRun(steps[..|steps| - 1], k);
      assert steps[..|steps| - 1][..k] == steps[..k] && steps[..|steps| - 1][..k + 1] == steps[..k + 1];
    }
  }

  // ---- Counters: nothing is lost and nothing counted twice -------------------------------------

  function RecordedCount(steps: seq<Step>, k: nat): int {
    if steps == [] then 0
    else
      var last := steps[|steps| - 1];
      RecordedCount(steps[..|steps| - 1], k) + (if last.Add? && last.counter == k then last.n else 0)
  }

  function CountIn(counters: seq<int>, k: nat): int {
    if k < |counters| then counters[k] else 0
  }

  function ReportedCount(snaps: seq<Snapshot>, k: nat): int {
    if snaps == [] then 0
    else ReportedCount(snaps[..|snaps| - 1], k) + CountIn(snaps[|snaps| - 1].counters, k)
  }

  /** What a rollup under way has swapped out but not yet reported. */
  function InHand(rollup: Rollup, k: nat): int {
    if rollup.NoRollup? then 0 else CountIn(rollup.counters, k)
  }

  function Accounted(s: State, k: nat): int {
    ReportedCount(s.snaps, k) + InHand(s.rollup, k) + CountIn(s.counters, k)
  }

  lemma StepAccounts(s: State, step: Step, k: nat)
    requires Enabled(s, step)
    ensures Accounted(Next(s, step), k) == Accounted(s, k) + (if step.Add? && step.counter == k then step.n else 0)
  {
    var n := Next(s, step);
    if step.EndWindow? {
      assert n.snaps[..|s.snaps|] == s.snaps;
    }
  }

  /** Over every interleaving: reported, in the hands of a rollup, or still in the counter adds up to all that was recorded. */
  lemma {:induction false} CountsAreConserved(steps: seq<Step>, k: nat)
    requires IsRun(steps) && k < COUNTERS
    ensures var s := After(steps);
            RecordedCount(steps, k) == ReportedCount(s.snaps, k) + InHand(s.rollup, k) + CountIn(s.counters, k)
  {
    if steps == [] {
      assert CountIn(Start().counters, k) == 0;
    } else {
      CountsAreConserved(steps[..|steps| - 1], k);
      StepAccounts(After(steps[..|steps| - 1]), steps[|steps| - 1], k);
    }
  }

  // ---- Samples: every window reports exactly its own ---------------------------------------------

  function DurationsSince(steps: seq<Step>): seq<int> {
    if steps == [] then []
    else
      var front := DurationsSince(steps[..|steps| - 1]);
      match steps[|steps| - 1]
      case Duration(ms) => front + [ms]
      case EndWindow(_) => []
      case _ => front
  }

  function ColdStartsSince(steps: seq<Step>): seq<int> {
    if steps == [] then []
    else
      var front := ColdStartsSince(steps[..|steps| - 1]);
      match steps[|steps| - 1]
      case ColdStart(ms) => front + [ms]
      case EndWindow(_) => []
      case _ => front
  }

  lemma {:induction false} SamplesAreWindowed(steps: seq<Step>)
    requires IsRun(steps)
    ensures Recorded(After(steps).timing, DurationsSince(steps), ColdStartsSince(steps))
  {
    if steps != [] {
      var front, last := steps[..|steps| - 1], steps[|steps| - 1];
      SamplesAreWindowed(front);
      var t := After(front).timing;
      match last
      case Duration(ms) => RecordedMore(t, DurationsSince(front), ColdStartsSince(front), ms);
      case ColdStart(ms) => RecordedMore(t, DurationsSince(front), ColdStartsSince(front), ms);
      case _ =>
    }
  }

  function LastReport(snaps: seq<Snapshot>): Report
    requires snaps != []
  {
    snaps[|snaps| - 1].report
  }

  lemma ClosingReport(s: State, windowEnd: int)
    requires Enabled(s, EndWindow(windowEnd))
    ensures Next(s, EndWindow(windowEnd)).snaps != []
    ensures LastReport(Next(s, EndWindow(windowEnd)).snaps) == ReportFor(s.timing, windowEnd)
  {
  }

  /** The snapshot that ends a window averages and bounds exactly the samples recorded since the one before. */
  lemma WindowReportsItsSamples(steps: seq<Step>, windowEnd: int)
    requires IsRun(steps) && Enabled(After(steps), EndWindow(windowEnd))
    ensures Next(After(steps), EndWindow(windowEnd)).snaps != []
    ensures var report := LastReport(Next(After(steps), EndWindow(windowEnd)).snaps);
            ReportsDurations(report, DurationsSince(steps)) && ReportsColdStarts(report, ColdStartsSince(steps))
  {
    var s := After(steps);
    ClosingReport(s, windowEnd);
    SamplesAreWindowed(steps);
    DurationReport(s.timing, DurationsSince(steps), ColdStartsSince(steps), windowEnd);
    ColdStartReport(s.timing, DurationsSince(steps), ColdStartsSince(steps), windowEnd);
  }

  // ---- Uptime ------------------------------------------------------------------------------------

  /** When the running interval in progress began, as observed; meaningful while running. */
  function RunningSince(steps: seq<Step>): int {
    if steps == [] then 0
    else
      var front := steps[..|steps| - 1];
      if steps[|steps| - 1].Running? && !After(front).timing.running then steps[|steps| - 1].at else RunningSince(front)
  }

  /** Total length in nanoseconds of the running intervals that have ended. */
  function EndedRunning(steps: seq<Step>): int {
    if steps == [] then 0
    else
      var front := steps[..|steps| - 1];
      EndedRunning(front)
      + (if steps[|steps| - 1].Stopped? && After(front).timing.running then steps[|steps| - 1].now - RunningSince(front) else 0)
  }

  /** How many segments were cut: at each stop and at each window end while running. */
  function Cuts(steps: seq<Step>): nat {
    if steps == [] then 0
    else
      var front := steps[..|steps| - 1];
      Cuts(front) + (if (steps[|steps| - 1].Stopped? || steps[|steps| - 1].EndWindow?) && After(front).timing.running then 1 else 0)
  }

  function ReportedUptime(snaps: seq<Snapshot>): int {
    if snaps == [] then 0 else ReportedUptime(snaps[..|snaps| - 1]) + snaps[|snaps| - 1].report.uptime
  }

  /** Reported uptime minus true running time, given the ended intervals and the start of the current one. */
  function ErrorOf(s: State, ended: int, since: int): int {
    MILLISECOND * (ReportedUptime(s.snaps) + s.timing.uptimeAccum)
    - (ended + (if s.timing.running then s.timing.upAt - since else 0))
  }

  /** The true running time covered so far: ended intervals, and the current one up to its last cut. */
  function UptimeError(steps: seq<Step>): int {
    ErrorOf(After(steps), EndedRunning(steps), RunningSince(steps))
  }

  lemma StopCut(s: State, now: int, ended: int, since: int)
    requires s.timing.running
    ensures -MILLISECOND < ErrorOf(Next(s, Stopped(now)), ended + now - since, since) - ErrorOf(s, ended, since) < MILLISECOND
  {
    MillisError(now - s.timing.upAt);
    var n := Next(s, Stopped(now));
    assert n.snaps == s.snaps && !n.timing.running;
    assert n.timing.uptimeAccum == s.timing.uptimeAccum + Millis(now - s.timing.upAt);
  }

  lemma WindowCut(s: State, windowEnd: int, ended: int, since: int)
    requires Enabled(s, EndWindow(windowEnd))
    ensures var change := ErrorOf(Next(s, EndWindow(windowEnd)), ended, since) - ErrorOf(s, ended, since);
            if s.timing.running then -MILLISECOND < change < MILLISECOND else change == 0
  {
    var n := Next(s, EndWindow(windowEnd));
    MillisError(windowEnd - s.timing.upAt);
    assert n.snaps[..|s.snaps|] == s.snaps;
    assert ReportedUptime(n.snaps) == ReportedUptime(s.snaps) + UptimeAt(s.timing, windowEnd);
  }

  lemma NoCut(s: State, step: Step, ended: int, since: int)
    requires Enabled(s, step) && !step.EndWindow? && (step.Stopped? ==> !s.timing.running)
    ensures ErrorOf(Next(s, step), ended, if step.Running? && !s.timing.running then step.at else since)
         == ErrorOf(s, ended, since)
  {
    assert Next(s, step).snaps == s.snaps;
  }

  lemma UptimeErrorStep(steps: seq<Step>)
    requires IsRun(steps) && steps != []
    ensures var front := steps[..|steps| - 1]; var change := UptimeError(steps) - UptimeError(front);
            if Cuts(steps) == Cuts(front) then change == 0
            else Cuts(steps) == Cuts(front) + 1 && -MILLISECOND < change < MILLISECOND
  {
    var front, last := steps[..|steps| - 1], steps[|steps| - 1];
    var s, ended, since := After(front), EndedRunning(front), RunningSince(front);
    assert After(steps) == Next(s, last);
    if last.EndWindow? {
      WindowCut(s, last.windowEnd, ended, since);
    } else if last.Stopped? && s.timing.running {
      StopCut(s, last.now, ended, since);
    } else {
      NoCut(s, last, ended, since);
    }
  }

  /** Reported uptime differs from true running time by less than one millisecond per segment cut, and not at all without cuts. */
  lemma {:induction false} UptimeIsAccurate(steps: seq<Step>)
    requires IsRun(steps)
    ensures Cuts(steps) == 0 ==> UptimeError(steps) == 0
    ensures Cuts(steps) > 0 ==> -MILLISECOND * Cuts(steps) < UptimeError(steps) < MILLISECOND * Cuts(steps)
  {
    if steps != [] {
      UptimeIsAccurate(steps[..|steps| - 1]);
      UptimeErrorStep(steps);
    }
  }

  // ---- The peak covers every level reached ------------------------------------------------------------

  /** The step ends a recorder's compare-and-swap loop, its connection having reached the given level. */
  predicate EndsLoop(s: State, step: Step, level: int)
    requires Enabled(s, step)
  {
    match step
    case LoadPeak(w) => s.recorders[w].level == level && level <= s.peak
    case CompareAndSwap(w) => s.recorders[w].level == level && s.peak == s.recorders[w].seen
    case _ => false
  }

  /** A comparison is only ever attempted with a value below the level to be set. */
  ghost predicate Comparisons(s: State) {
    forall w :: 0 <= w < |s.recorders| && s.recorders[w].Comparing? ==> s.recorders[w].seen < s.recorders[w].level
  }

  lemma {:induction false} ComparisonsHold(steps: seq<Step>)
    requires IsRun(steps)
    ensures Comparisons(After(steps))
  {
    if steps != [] {
      ComparisonsHold(steps[..|steps| - 1]);
    }
  }

  lemma PeakRises(s: State, step: Step)
    requires Comparisons(s) && Enabled(s, step) && !step.SwapPeak?
    ensures Next(s, step).peak >= s.peak
  {
  }

  lemma LoopEndCovers(s: State, step: Step, level: int)
    requires Enabled(s, step) && EndsLoop(s, step, level)
    ensures Next(s, step).peak >= level
  {
  }

  lemma {:induction false} PeakRisesAt(steps: seq<Step>, k: nat)
    requires IsRun(steps) && k < |steps| && !steps[k].SwapPeak?
    ensures After(steps[..k + 1]).peak >= After(steps[..k]).peak
  {
    PrefixIsRun(steps, k);
    ComparisonsHold(steps[..k]);
    PeakRises(After(steps[..k]), steps[k]);
  }

  lemma {:induction false} PeakStays(steps: seq<Step>, i: nat, j: nat, level: int)
    requires IsRun(steps) && i < j <= |steps| && After(steps[..i + 1]).peak >= level
    requires forall k :: i < k < j ==> !steps[k].SwapPeak?
    ensures After(steps[..j]).peak >= level
    decreases j
  {
    if j > i + 1 {
      var k := j - 1;
      PeakStays(steps, i, k, level);
      PeakRisesAt(steps, k);
    }
  }

  /** Until the next swap the peak does not fall below a level whose loop has ended. */
  lemma {:induction false} PeakHolds(steps: seq<Step>, i: nat, j: nat, level: int)
    requires IsRun(steps) && i < j <= |steps|
    requires Enabled(After(steps[..i]), steps[i]) && EndsLoop(After(steps[..i]), steps[i], level)
    requires forall k :: i < k < j ==> !steps[k].SwapPeak?
    ensures After(steps[..j]).peak >= level
  {
    PrefixIsRun(steps, i);
    LoopEndCovers(After(steps[..i]), steps[i], level);
    PeakStays(steps, i, j, level);
  }

  /** A rollup past its peak swap keeps the swapped value until it closes the window. */
  lemma {:induction false} ClosingHolds(steps: seq<Step>, j: nat, m: nat, peak: int)
    requires IsRun(steps) && j < m <= |steps|
    requires After(steps[..j + 1]).rollup.Closing? && After(steps[..j + 1]).rollup.peak == peak
    requires forall k :: j < k < m ==> !steps[k].EndWindow?
    ensures After(steps[..m]).rollup.Closing? && After(steps[..m]).rollup.peak == peak
    decreases m
  {
    if m > j + 1 {
      ClosingHolds(steps, j, m - 1, peak);
      PrefixIsRun(steps, m - 1);
    }
  }

  /**
   * Every concurrency level reached by a started connection is covered by the peak reported by
   * the first rollup that swaps the peak (step j) after the connection's loop ended (step i).
   */
  lemma LevelIsCovered(steps: seq<Step>, i: nat, j: nat, m: nat, level: int)
    requires IsRun(steps) && i < j < m < |steps|
    requires Enabled(After(steps[..i]), steps[i]) && EndsLoop(After(steps[..i]), steps[i], level)
    requires steps[j].SwapPeak? && (forall k :: i < k < j ==> !steps[k].SwapPeak?)
    requires steps[m].EndWindow? && (forall k :: j < k < m ==> !steps[k].EndWindow?)
    ensures var snaps := After(steps[..m + 1]).snaps; snaps != [] && snaps[|snaps| - 1].peak >= level
  {
    PeakHolds(steps, i, j, level);
    PrefixIsRun(steps, j);
    ClosingHolds(steps, j, m, After(steps[..j + 1]).rollup.peak);
    PrefixIsRun(steps, m);
  }
}
