/** One port's accumulator: the part guarded by its mutex, and the object as one goroutine uses it. */
module Metrics {
  import opened Text

  const MILLISECOND := 1_000_000

  /** `Duration.Milliseconds()` of a number of nanoseconds: truncation toward zero. */
  function Millis(ns: int): int {
    if ns >= 0 then ns / MILLISECOND else -(-ns / MILLISECOND)
  }

  /** Truncation loses less than a millisecond, in either direction, and never overshoots. */
  lemma MillisError(ns: int)
    ensures ns >= 0 ==> 0 <= 1_000_000 * Millis(ns) <= ns
    ensures ns <= 0 ==> ns <= 1_000_000 * Millis(ns) <= 0
    ensures -MILLISECOND < MILLISECOND * Millis(ns) - ns < MILLISECOND
  {
  }

  // ---- The mutex-guarded fields ------------------------------------------------------

  datatype Timing = Timing(
    durationCount: int,
    durationTotal: int,
    durationMax: int,
    durationMin: int,
    coldCount: int,
    coldTotal: int,
    coldMax: int,
    running: bool,
    upAt: int,
    uptimeAccum: int)

  const FRESH := Timing(0, 0, 0, MAX_INT, 0, 0, 0, false, 0, 0)

  /** The guarded part of a snapshot; averages exist only for windows with samples. */
  datatype Report = Report(
    durationAvg: Option<real>,
    durationMax: Option<int>,
    durationMin: Option<int>,
    coldAvg: Option<real>,
    coldMax: Option<int>,
    uptime: int)

  function RecordDuration(t: Timing, ms: int): Timing {
    t.(durationCount := t.durationCount + 1,
       durationTotal := t.durationTotal + ms,
       durationMax := if ms > t.durationMax then ms else t.durationMax,
       durationMin := if ms < t.durationMin then ms else t.durationMin)
  }

  function RecordColdStart(t: Timing, ms: int): Timing {
    t.(coldCount := t.coldCount + 1,
       coldTotal := t.coldTotal + ms,
       coldMax := if ms > t.coldMax then ms else t.coldMax)
  }

  function MarkRunning(t: Timing, at: int): Timing {
    if t.running then t else t.(running := true, upAt := at)
  }

  function MarkStopped(t: Timing, now: int): Timing {
    if t.running then t.(running := false, uptimeAccum := t.uptimeAccum + Millis(now - t.upAt)) else t
  }

  function UptimeAt(t: Timing, windowEnd: int): int {
    t.uptimeAccum + (if t.running then Millis(windowEnd - t.upAt) else 0)
  }

  function ReportFor(t: Timing, windowEnd: int): Report {
    Report(
      if t.durationCount > 0 then Some(t.durationTotal as real / t.durationCount as real) else None,
      if t.durationCount > 0 then Some(t.durationMax) else None,
      if t.durationCount > 0 then Some(t.durationMin) else None,
      if t.coldCount > 0 then Some(t.coldTotal as real / t.coldCount as real) else None,
      if t.coldCount > 0 then Some(t.coldMax) else None,
      UptimeAt(t, windowEnd))
  }

  function CloseWindow(t: Timing, windowEnd: int): Timing {
    FRESH.(running := t.running, upAt := if t.running then windowEnd else t.upAt)
  }

  // ---- What a window's report says about the samples recorded in it -----------------------------

  function SumOf(xs: seq<int>): int {
    if xs == [] then 0 else SumOf(xs[..|xs| - 1]) + xs[|xs| - 1]
  }

  /** m is the largest sample, or zero when none is positive. */
  ghost predicate IsMax(xs: seq<int>, m: int) {
    (forall i :: 0 <= i < |xs| ==> xs[i] <= m) && m >= 0 && (m == 0 || m in xs)
  }

  ghost predicate IsMin(xs: seq<int>, m: int) {
    (forall i :: 0 <= i < |xs| ==> m <= xs[i]) && m <= MAX_INT && (m == MAX_INT || m in xs)
  }

  /** t has recorded exactly these connection durations and cold starts since the last window was closed. */
  ghost predicate Recorded(t: Timing, durations: seq<int>, colds: seq<int>) {
    && t.durationCount == |durations| && t.durationTotal == SumOf(durations)
    && IsMax(durations, t.durationMax) && IsMin(durations, t.durationMin)
    && t.coldCount == |colds| && t.coldTotal == SumOf(colds) && IsMax(colds, t.coldMax)
  }

  lemma RecordedMore(t: Timing, durations: seq<int>, colds: seq<int>, ms: int)
    requires Recorded(t, durations, colds)
    ensures Recorded(RecordDuration(t, ms), durations + [ms], colds)
    ensures Recorded(RecordColdStart(t, ms), durations, colds + [ms])
  {
    assert (durations + [ms])[..|durations|] == durations;
    assert (colds + [ms])[..|colds|] == colds;
  }

  lemma AverageTimesCount(total: int, count: int)
    requires count > 0
    ensures total as real / count as real * count as real == total as real
  {
  }

  /** The report averages and bounds exactly these connection durations. */
  ghost predicate ReportsDurations(r: Report, durations: seq<int>) {
    if durations == [] then r.durationAvg.None? && r.durationMax.None? && r.durationMin.None?
    else
      && r.durationAvg.Some? && r.durationAvg.value * |durations| as real == SumOf(durations) as real
      && r.durationMax.Some? && IsMax(durations, r.durationMax.value)
      && r.durationMin.Some? && IsMin(durations, r.durationMin.value)
  }

  /** The report averages and bounds exactly these cold starts. */
  ghost predicate ReportsColdStarts(r: Report, colds: seq<int>) {
    if colds == [] then r.coldAvg.None? && r.coldMax.None?
    else
      && r.coldAvg.Some? && r.coldAvg.value * |colds| as real == SumOf(colds) as real
      && r.coldMax.Some? && IsMax(colds, r.coldMax.value)
  }

  lemma DurationReport(t: Timing, durations: seq<int>, colds: seq<int>, windowEnd: int)
    requires Recorded(t, durations, colds)
    ensures ReportsDurations(ReportFor(t, windowEnd), durations)
  {
    if durations != [] {
      AverageTimesCount(t.durationTotal, t.durationCount);
    }
  }

  lemma ColdStartReport(t: Timing, durations: seq<int>, colds: seq<int>, windowEnd: int)
    requires Recorded(t, durations, colds)
    ensures ReportsColdStarts(ReportFor(t, windowEnd), colds)
  {
    if colds != [] {
      AverageTimesCount(t.coldTotal, t.coldCount);
    }
  }

  // ---- The object, as used by one goroutine at a time ----------------------------------------------

  /** The counters a rollup resets, in the order in which it swaps them. */
  datatype Counters = Counters(
    started: int,
    ended: int,
    failed: int,
    sent: int,
    received: int,
    starts: int,
    stops: int)

  const ZERO := Counters(0, 0, 0, 0, 0, 0, 0)

  /** The fields of one accumulator. */
  datatype Fields = Fields(counters: Counters, active: int, peak: int, timing: Timing)

  function Started(f: Fields): Fields {
    f.(counters := f.counters.(started := f.counters.started + 1),
       active := f.active + 1,
       peak := if f.peak < f.active + 1 then f.active + 1 else f.peak)
  }

  function Ended(f: Fields, durationMs: int): Fields {
    f.(counters := f.counters.(ended := f.counters.ended + 1), active := f.active - 1, timing := RecordDuration(f.timing, durationMs))
  }

  function Transferred(f: Fields, sent: int, received: int): Fields {
    f.(counters := f.counters.(sent := f.counters.sent + (if sent > 0 then sent else 0),
                               received := f.counters.received + (if received > 0 then received else 0)))
  }

  function StartedCold(f: Fields, durationMs: int): Fields {
    f.(counters := f.counters.(starts := f.counters.starts + 1), timing := RecordColdStart(f.timing, durationMs))
  }

  function Stopped(f: Fields, now: int): Fields {
    f.(counters := f.counters.(stops := f.counters.stops + 1), timing := MarkStopped(f.timing, now))
  }

  /** The next peak is seeded with what is still open. */
  function Rolled(f: Fields, windowEnd: int): Fields {
    Fields(ZERO, f.active, f.active, CloseWindow(f.timing, windowEnd))
  }

  function WindowPeak(f: Fields): int {
    if f.peak < f.active then f.active else f.peak
  }

  class PortAccumulator {
    var counters: Counters
    var active: int
    var peak: int
    var timing: Timing

    ghost function View(): Fields
      reads this
    {
      Fields(counters, active, peak, timing)
    }

    constructor ()
      ensures View() == Fields(ZERO, 0, 0, FRESH)
    {
      counters, active, peak, timing := ZERO, 0, 0, FRESH;
    }

    /** The compare-and-swap loop, undisturbed: the peak rises to the new level and never falls. */
    method ConnectionStarted()
      modifies this
      ensures View() == Started(old(View())) && peak >= old(peak) && peak >= active
    {
      counters := counters.(started := counters.started + 1);
      active := active + 1;
      var newActive := active;
      var done := false;
      while !done
        invariant counters == Started(old(View())).counters
        invariant active == old(active) + 1 && timing == old(timing) && newActive == active
        invariant !done ==> peak == old(peak)
        invariant done ==> peak == if old(peak) < newActive then newActive else old(peak)
        decreases !done
      {
        var cur := peak;
        if newActive <= cur {
          break;
        }
        if peak == cur {
          peak := newActive;
          done := true;
        }
      }
    }

    method ConnectionEnded(durationMs: int)
      modifies this
      ensures View() == Ended(old(View()), durationMs)
    {
      counters := counters.(ended := counters.ended + 1);
      active := active - 1;
      timing := timing.(durationCount := timing.durationCount + 1, durationTotal := timing.durationTotal + durationMs);
      if durationMs > timing.durationMax {
        timing := timing.(durationMax := durationMs);
      }
      if durationMs < timing.durationMin {
        timing := timing.(durationMin := durationMs);
      }
    }

    method AddBytes(sent: int, received: int)
      modifies this`counters
      ensures View() == Transferred(old(View()), sent, received)
    {
      if sent > 0 {
        counters := counters.(sent := counters.sent + sent);
      }
      if received > 0 {
        counters := counters.(received := counters.received + received);
      }
    }

    method ColdStarted(durationMs: int)
      modifies this`counters, this`timing
      ensures View() == StartedCold(old(View()), durationMs)
    {
      counters := counters.(starts := counters.starts + 1);
      timing := timing.(coldCount := timing.coldCount + 1, coldTotal := timing.coldTotal + durationMs);
      if durationMs > timing.coldMax {
        timing := timing.(coldMax := durationMs);
      }
    }

    method OnContainerRunning(at: int)
      modifies this`timing
      ensures View() == old(View()).(timing := MarkRunning(old(timing), at))
    {
      if !timing.running {
        timing := timing.(running := true);
        timing := timing.(upAt := at);
      }
    }

    method ContainerStopped(now: int)
      modifies this`counters, this`timing
      ensures View() == Stopped(old(View()), now)
    {
      counters := counters.(stops := counters.stops + 1);
      if timing.running {
        timing := timing.(uptimeAccum := timing.uptimeAccum + Millis(now - timing.upAt));
        timing := timing.(running := false);
      }
    }

    /** A rollup, undisturbed. */
    method Rollup(windowEnd: int) returns (window: Counters, peakInWindow: int, report: Report)
      modifies this
      ensures View() == Rolled(old(View()), windowEnd)
      ensures window == old(counters) && peakInWindow == WindowPeak(old(View())) && report == ReportFor(old(timing), windowEnd)
    {
      window := counters;
      counters := ZERO;
      peakInWindow := peak;
      peak := active;
      if peakInWindow < active {
        peakInWindow := active;
      }
      report := ReportFor(timing, windowEnd);
      timing := FRESH.(running := timing.running, upAt := if timing.running then windowEnd else timing.upAt);
    }
  }
}
