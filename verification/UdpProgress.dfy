/**
 * What runs of the flow-establishment protocol achieve: flow workers always drain once
 * external events cease, flows appear only after an answered probe, and probing is bounded.
 */
module UdpProgress {
  import opened UdpListening
  import opened UdpProtocol

  // ---- A ranking that every worker step lowers ------------------------------------------

  function Sum(xs: seq<nat>): nat {
    if xs == [] then 0 else Sum(xs[..|xs| - 1]) + xs[|xs| - 1]
  }

  lemma {:induction false} SumUpdate(xs: seq<nat>, i: nat, x: nat)
    requires i < |xs|
    ensures Sum(xs[i := x]) == Sum(xs) - xs[i] + x
    decreases |xs|
  {
    var ys := xs[i := x];
    if i == |xs| - 1 {
      assert ys[..|ys| - 1] == xs[..|xs| - 1];
    } else {
      assert ys[..|ys| - 1] == xs[..|xs| - 1][i := x];
      SumUpdate(xs[..|xs| - 1], i, x);
    }
  }

  lemma {:induction false} SumBound(xs: seq<nat>, b: nat)
    requires forall i :: 0 <= i < |xs| ==> xs[i] <= b
    ensures Sum(xs) <= b * |xs|
  {
    if xs != [] {
      SumBound(xs[..|xs| - 1], b);
    }
  }

  /** Steps a worker may still take up to its publication, counting the probes it may make. */
  function Ahead(pc: Pc, retries: nat): nat {
    match pc
    case Dialling => retries + 3
    case Elected => retries + 2
    case Probing(attempts, budget) => if attempts < budget then budget - attempts + 1 else 1
    case Publishing(_) => 1
    case _ => 0
  }

  const MAX_BEHIND: nat := 5

  /** Steps left after publication; only a broadcast can raise it, from Sleeping to Awake. */
  function Behind(pc: Pc): (r: nat)
    ensures r <= MAX_BEHIND
  {
    match pc
    case Awake => 5
    case Sleeping => 4
    case Direct => 3
    case Registering => 2
    case CleaningUp => 1
    case _ => 0
  }

  function AheadAll(workers: seq<Worker>, retries: nat): (r: seq<nat>)
    ensures |r| == |workers| && forall i :: 0 <= i < |r| ==> r[i] == Ahead(workers[i].pc, retries)
  {
    seq(|workers|, i requires 0 <= i < |workers| => Ahead(workers[i].pc, retries))
  }

  function BehindAll(workers: seq<Worker>): (r: seq<nat>)
    ensures |r| == |workers| && forall i :: 0 <= i < |r| ==> r[i] == Behind(workers[i].pc)
  {
    seq(|workers|, i requires 0 <= i < |workers| => Behind(workers[i].pc))
  }

  /** A publication counts for more than all the wake-ups it can cause. */
  function Rank(workers: seq<Worker>, retries: nat): nat {
    Sum(AheadAll(workers, retries)) * (MAX_BEHIND * |workers| + 1) + Sum(BehindAll(workers))
  }

  function Measure(s: State): nat {
    Rank(s.workers, Retries(s.sh.startTimeout))
  }

  lemma GotoSums(s: State, w: nat, pc: Pc)
    requires w < |s.workers|
    ensures var r := Retries(s.sh.startTimeout); var t := Goto(s, w, pc);
            && Sum(AheadAll(t.workers, r)) == Sum(AheadAll(s.workers, r)) - Ahead(s.workers[w].pc, r) + Ahead(pc, r)
            && Sum(BehindAll(t.workers)) == Sum(BehindAll(s.workers)) - Behind(s.workers[w].pc) + Behind(pc)
  {
    var r := Retries(s.sh.startTimeout);
    var t := Goto(s, w, pc);
    SumUpdate(AheadAll(s.workers, r), w, Ahead(pc, r));
    SumUpdate(BehindAll(s.workers), w, Behind(pc));
    assert AheadAll(t.workers, r) == AheadAll(s.workers, r)[w := Ahead(pc, r)];
    assert BehindAll(t.workers) == BehindAll(s.workers)[w := Behind(pc)];
  }

  lemma BroadcastSums(workers: seq<Worker>, retries: nat)
    ensures Sum(AheadAll(Broadcast(workers), retries)) == Sum(AheadAll(workers, retries))
    ensures Sum(BehindAll(Broadcast(workers))) <= MAX_BEHIND * |workers|
  {
    assert AheadAll(Broadcast(workers), retries) == AheadAll(workers, retries);
    SumBound(BehindAll(Broadcast(workers)), MAX_BEHIND);
  }

  /** If the worker itself comes closer to publication, wake-ups cannot outweigh it. */
  lemma AheadDominates(a: nat, a': nat, b: nat, b': nat, k: nat)
    requires a' < a && b' < k
    ensures a' * k + b' < a * k + b
  {
    assert a' * k + k <= a * k by { assert (a' + 1) * k <= a * k; }
  }

  /** The pc a worker step leads to. */
  function TargetPc(s: State, step: Step): Pc
    requires IsWorkerStep(step) && Enabled(s, step)
  {
    match step
    case DialFails(_) => CleaningUp
    case ChooseRole(_) => PcForRole(RoleFor(s.sh))
    case BeginProbing(_) => Probing(0, Retries(s.sh.startTimeout))
    case Probe(w, outcome) => AfterProbe(s.workers[w].pc, outcome)
    case PublishOutcome(w) => if s.workers[w].pc.responded then Registering else CleaningUp
    case Recheck(_) => PcForRole(RoleAfterWake(s.sh))
    case SendDirect(_, sent) => if sent then Registering else CleaningUp
    case _ => Done
  }

  lemma WorkerStepShape(s: State, step: Step)
    requires IsWorkerStep(step) && Enabled(s, step)
    ensures Next(s, step).sh.startTimeout == s.sh.startTimeout
    ensures var moved := Goto(s, step.w, TargetPc(s, step)).workers;
            Next(s, step).workers == if step.PublishOutcome? then Broadcast(moved) else moved
  {
  }

  lemma WorkerStepAdvances(s: State, step: Step)
    requires ProbesInBudget(s) && IsWorkerStep(step) && Enabled(s, step)
    ensures var r := Retries(s.sh.startTimeout); var pc, pc' := s.workers[step.w].pc, TargetPc(s, step);
            || Ahead(pc', r) < Ahead(pc, r)
            || (!step.PublishOutcome? && Ahead(pc', r) == Ahead(pc, r) && Behind(pc') < Behind(pc))
  {
  }

  lemma WorkerStepLowersMeasure(s: State, step: Step)
    requires Inv(s) && IsWorkerStep(step) && Enabled(s, step)
    ensures Measure(Next(s, step)) < Measure(s)
  {
    var r := Retries(s.sh.startTimeout);
    var pc, pc' := s.workers[step.w].pc, TargetPc(s, step);
    var moved := Goto(s, step.w, pc').workers;
    var workers := Next(s, step).workers;
    WorkerStepShape(s, step);
    WorkerStepAdvances(s, step);
    GotoSums(s, step.w, pc');
    BroadcastSums(moved, r);
    RankDrops(s.workers, workers, r);
  }

  lemma RankDrops(before: seq<Worker>, after: seq<Worker>, r: nat)
    requires |after| == |before|
    requires || Sum(AheadAll(after, r)) < Sum(AheadAll(before, r))
             || (Sum(AheadAll(after, r)) == Sum(AheadAll(before, r)) && Sum(BehindAll(after)) < Sum(BehindAll(before)))
    ensures Rank(after, r) < Rank(before, r)
  {
    SumBound(BehindAll(after), MAX_BEHIND);
    if Sum(AheadAll(after, r)) < Sum(AheadAll(before, r)) {
      AheadDominates(Sum(AheadAll(before, r)), Sum(AheadAll(after, r)), Sum(BehindAll(before)), Sum(BehindAll(after)),
                     MAX_BEHIND * |before| + 1);
    }
  }

  lemma BackgroundKeepsMeasure(s: State, step: Step)
    requires IsBackground(step) && Enabled(s, step)
    ensures Measure(Next(s, step)) == Measure(s)
  {
    assert Next(s, step).workers == s.workers;
  }

  /** While some worker is live, some worker step is enabled: no state is a deadlock. */
  lemma LiveWorkersCanMove(s: State, w: nat)
    requires Inv(s) && w < |s.workers| && Live(s.workers[w])
    ensures exists step :: IsWorkerStep(step) && Enabled(s, step)
  {
    if s.workers[w].pc == Sleeping {
      var v :| 0 <= v < |s.workers| && Leading(s.workers[v]);
      MoveOf(s, v);
    } else {
      MoveOf(s, w);
    }
  }

  lemma MoveOf(s: State, w: nat)
    requires ProbesInBudget(s) && w < |s.workers| && Live(s.workers[w]) && s.workers[w].pc != Sleeping
    ensures exists step :: IsWorkerStep(step) && Enabled(s, step)
  {
    var step := match s.workers[w].pc
      case Dialling => ChooseRole(w)
      case Awake => Recheck(w)
      case Elected => BeginProbing(w)
      case Probing(_, _) => Probe(w, Fatal)
      case Publishing(_) => PublishOutcome(w)
      case Direct => SendDirect(w, false)
      case Registering => RegisterFlow(w, 0)
      case _ => Abandon(w);
    assert IsWorkerStep(step) && Enabled(s, step);
  }

  function WorkerSteps(steps: seq<Step>): nat {
    if steps == [] then 0
    else WorkerSteps(steps[..|steps| - 1]) + (if IsWorkerStep(steps[|steps| - 1]) then 1 else 0)
  }

  ghost predicate NoExternalEvents(steps: seq<Step>) {
    forall i :: 0 <= i < |steps| ==> IsWorkerStep(steps[i]) || IsBackground(steps[i])
  }

  /**
   * Once external events cease, every continuation makes at most Measure(s) worker steps,
   * however sweeps and upstream replies interleave; and it can stop only when no worker is live.
   */
  lemma {:induction false} WorkersDrain(s: State, steps: seq<Step>)
    requires Inv(s) && IsRun(s, steps) && NoExternalEvents(steps)
    ensures Inv(After(s, steps))
    ensures WorkerSteps(steps) + Measure(After(s, steps)) <= Measure(s)
    ensures (forall step :: IsWorkerStep(step) ==> !Enabled(After(s, steps), step)) ==>
              forall w :: 0 <= w < |After(s, steps).workers| ==> !Live(After(s, steps).workers[w])
  {
    if steps != [] {
      var front, last := steps[..|steps| - 1], steps[|steps| - 1];
      WorkersDrain(s, front);
      var before := After(s, front);
      PendingKept(before, last);
      WakeUpKept(before, last);
      if IsWorkerStep(last) {
        WorkerStepLowersMeasure(before, last);
      } else {
        BackgroundKeepsMeasure(before, last);
      }
    }
    var t := After(s, steps);
    forall w | 0 <= w < |t.workers| && Live(t.workers[w])
      ensures exists step :: IsWorkerStep(step) && Enabled(t, step)
    {
      LiveWorkersCanMove(t, w);
    }
  }

  // ---- A flow is registered only after an answered probe ------------------------------------

  ghost predicate SomeAnswer(steps: seq<Step>) {
    exists i :: 0 <= i < |steps| && steps[i].Probe? && steps[i].outcome == Answered
  }

  predicate NeedsAnswer(pc: Pc) {
    pc == Publishing(true) || pc == Direct || pc == Registering
  }

  ghost predicate Cold(s: State) {
    && !s.sh.ready && s.sh.flows == map[]
    && forall w :: 0 <= w < |s.workers| ==> !NeedsAnswer(s.workers[w].pc)
  }

  lemma ColdKept(s: State, step: Step)
    requires Cold(s) && Enabled(s, step) && !(step.Probe? && step.outcome == Answered)
    ensures Cold(Next(s, step))
  {
    if step.PublishOutcome? {
      assert !NeedsAnswer(s.workers[step.w].pc);
    }
  }

  lemma {:induction false} ColdUntilAnswer(startTimeout: int, steps: seq<Step>)
    requires IsRun(Start(startTimeout), steps)
    ensures SomeAnswer(steps) || Cold(After(Start(startTimeout), steps))
  {
    if steps != [] {
      var front, last := steps[..|steps| - 1], steps[|steps| - 1];
      ColdUntilAnswer(startTimeout, front);
      if SomeAnswer(front) {
        var i :| 0 <= i < |front| && front[i].Probe? && front[i].outcome == Answered;
        assert steps[i] == front[i];
      } else if last.Probe? && last.outcome == Answered {
        assert steps[|steps| - 1].Probe?;
      } else {
        ColdKept(After(Start(startTimeout), front), last);
      }
    }
  }

  /** Whoever registers the flow, some leader's probe was answered earlier in the run. */
  lemma {:induction false} RegisteredAfterAnswer(startTimeout: int, steps: seq<Step>, j: nat)
    requires IsRun(Start(startTimeout), steps) && j < |steps| && steps[j].RegisterFlow?
    ensures exists i :: 0 <= i < j && steps[i].Probe? && steps[i].outcome == Answered
  {
    PrefixIsRun(Start(startTimeout), steps, j);
    ColdUntilAnswer(startTimeout, steps[..j]);
    if Cold(After(Start(startTimeout), steps[..j])) {
      assert false;
    }
    var i :| 0 <= i < |steps[..j]| && steps[..j][i].Probe? && steps[..j][i].outcome == Answered;
    assert steps[i] == steps[..j][i];
  }

  // ---- Attempts are bounded ---------------------------------------------------------------------

  function Attempts(steps: seq<Step>, w: nat): nat {
    if steps == [] then 0
    else
      var last := steps[|steps| - 1];
      Attempts(steps[..|steps| - 1], w) + (if last.Probe? && last.w == w then 1 else 0)
  }

  /** The budget w probes with: that of the start timeout when it begins to probe; 0 if it never does. */
  function ProbingBudget(startTimeout: int, steps: seq<Step>, w: nat): nat {
    if steps == [] then 0
    else
      var front, last := steps[..|steps| - 1], steps[|steps| - 1];
      var before := After(Start(startTimeout), front);
      if last == BeginProbing(w) then Retries(before.sh.startTimeout)
      else ProbingBudget(startTimeout, front, w)
  }

  predicate YetToProbe(pc: Pc) {
    pc.Dialling? || pc.Sleeping? || pc.Awake? || pc.Elected?
  }

  /** How the pc of w reflects the probes it has made. */
  ghost predicate AttemptsMatch(s: State, w: nat, attempts: nat, budget: nat) {
    && attempts <= budget
    && (w >= |s.workers| ==> attempts == budget == 0)
    && (w < |s.workers| && YetToProbe(s.workers[w].pc) ==> attempts == budget == 0)
    && (w < |s.workers| && s.workers[w].pc.Probing? ==> s.workers[w].pc == Probing(attempts, budget) && attempts < budget)
  }

  lemma AttemptsKept(s: State, step: Step, w: nat, attempts: nat, budget: nat)
    requires AttemptsMatch(s, w, attempts, budget) && Enabled(s, step)
    ensures AttemptsMatch(Next(s, step), w,
              attempts + (if step.Probe? && step.w == w then 1 else 0),
              if step == BeginProbing(w) then Retries(s.sh.startTimeout) else budget)
  {
  }

  lemma {:induction false} AttemptsTracked(startTimeout: int, steps: seq<Step>, w: nat)
    requires IsRun(Start(startTimeout), steps)
    ensures AttemptsMatch(After(Start(startTimeout), steps), w, Attempts(steps, w), ProbingBudget(startTimeout, steps, w))
  {
    if steps != [] {
      AttemptsTracked(startTimeout, steps[..|steps| - 1], w);
      AttemptsKept(After(Start(startTimeout), steps[..|steps| - 1]), steps[|steps| - 1], w,
                   Attempts(steps[..|steps| - 1], w), ProbingBudget(startTimeout, steps[..|steps| - 1], w));
    }
  }

  /**
   * In every run a worker probes only if it was elected leader, and then at most as often as
   * the retry budget of the start timeout in force when it begins to probe.
   */
  lemma AttemptsBounded(startTimeout: int, steps: seq<Step>, w: nat)
    requires IsRun(Start(startTimeout), steps)
    ensures Attempts(steps, w) <= ProbingBudget(startTimeout, steps, w)
  {
    AttemptsTracked(startTimeout, steps, w);
  }

  // ---- The probe loop is a run of probe steps ------------------------------------------------------

  /** The steps of w whose probes end as outcome says, numbered done + 1 to last. */
  function ProbeSteps(w: nat, outcome: nat -> Outcome, done: nat, last: nat): seq<Step>
    requires done <= last
    decreases last - done
  {
    if done == last then [] else [Probe(w, outcome(done + 1))] + ProbeSteps(w, outcome, done + 1, last)
  }

  ghost predicate LeadsTo(s: State, steps: seq<Step>, t: State) {
    IsRun(s, steps) && After(s, steps) == t
  }

  /** The leader's loop and the step-by-step system agree on the outcome and on the attempts made. */
  lemma {:induction false} ProbeLoopIsRun(s: State, w: nat, outcome: nat -> Outcome, done: nat, budget: nat)
    requires done < budget && At(s, w, Probing(done, budget))
    ensures var (responded, last) := ProbeLoop(outcome, done, budget);
            LeadsTo(s, ProbeSteps(w, outcome, done, last), Goto(s, w, Publishing(responded)))
    decreases budget - done
  {
    var (responded, last) := ProbeLoop(outcome, done, budget);
    var first := Probe(w, outcome(done + 1));
    var t := Next(s, first);
    var rest := ProbeSteps(w, outcome, done + 1, last);
    if outcome(done + 1) == Retryable && done + 1 < budget {
      ProbeLoopIsRun(t, w, outcome, done + 1, budget);
      GotoTwice(s, w, Probing(done + 1, budget), Publishing(responded));
    } else {
      NoSteps(t);
    }
    StepThenRun(s, first, rest, Goto(s, w, Publishing(responded)));
  }

  lemma GotoTwice(s: State, w: nat, pc: Pc, pc': Pc)
    requires w < |s.workers|
    ensures Goto(Goto(s, w, pc), w, pc') == Goto(s, w, pc')
  {
  }

  lemma NoSteps(s: State)
    ensures LeadsTo(s, [], s)
  {
  }

  lemma {:induction false} StepThenRun(s: State, first: Step, rest: seq<Step>, t: State)
    requires Enabled(s, first) && LeadsTo(Next(s, first), rest, t)
    ensures LeadsTo(s, [first] + rest, t)
    decreases |rest|
  {
    var steps := [first] + rest;
    if rest == [] {
      assert steps[..|steps| - 1] == [];
      assert IsRun(s, []);
    } else {
      var front := rest[..|rest| - 1];
      StepThenRun(s, first, front, After(Next(s, first), front));
      assert steps[..|steps| - 1] == [first] + front;
    }
  }
}
