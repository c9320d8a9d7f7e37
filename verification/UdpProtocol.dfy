/**
 * Flow establishment as a transition system: datagrams, flow workers, the sweeper and
 * container stops interleave freely, each critical section being one atomic step.
 */
module UdpProtocol {
  import opened UdpListening

  /** Where a flow worker is. Sleeping is inside the condition variable; Done is terminated. */
  datatype Pc =
    | Dialling
    | Sleeping
    | Awake
    | Elected
    | Probing(attempts: nat, budget: nat)
    | Publishing(responded: bool)
    | Direct
    | Registering
    | CleaningUp
    | Done

  datatype Worker = Worker(key: Key, pc: Pc)

  datatype State = State(sh: Shared, workers: seq<Worker>)

  datatype Step =
    // new external events
    | Datagram(key: Key, now: int)
    | ContainerStop
    | RemoveListener
    | Reconfigure(startTimeout: int)
    // background activity; a flow's connection is numbered by the worker that registered it
    | SweepFlows(now: int, timeout: int)
    | UpstreamReply(w: nat, now: int)
    // steps of worker w
    | DialFails(w: nat)
    | ChooseRole(w: nat)
    | BeginProbing(w: nat)
    | Probe(w: nat, outcome: Outcome)
    | PublishOutcome(w: nat)
    | Recheck(w: nat)
    | SendDirect(w: nat, sent: bool)
    | RegisterFlow(w: nat, now: int)
    | Abandon(w: nat)

  predicate IsWorkerStep(step: Step) {
    !(step.Datagram? || step.ContainerStop? || step.RemoveListener? || step.Reconfigure? || IsBackground(step))
  }

  predicate IsBackground(step: Step) {
    step.SweepFlows? || step.UpstreamReply?
  }

  function Start(startTimeout: int): State {
    State(Shared(map[], {}, false, false, false, 0, startTimeout), [])
  }

  predicate At(s: State, w: nat, pc: Pc) {
    w < |s.workers| && s.workers[w].pc == pc
  }

  predicate Enabled(s: State, step: Step) {
    match step
    case Datagram(_, _) | ContainerStop | RemoveListener | Reconfigure(_) | SweepFlows(_, _) => true
    case UpstreamReply(w, _) => At(s, w, Done)
    case DialFails(w) => At(s, w, Dialling)
    case ChooseRole(w) => At(s, w, Dialling)
    case BeginProbing(w) => At(s, w, Elected)
    case Probe(w, _) => w < |s.workers| && s.workers[w].pc.Probing? && s.workers[w].pc.attempts < s.workers[w].pc.budget
    case PublishOutcome(w) => w < |s.workers| && s.workers[w].pc.Publishing?
    case Recheck(w) => At(s, w, Awake)
    case SendDirect(w, _) => At(s, w, Direct)
    case RegisterFlow(w, _) => At(s, w, Registering)
    case Abandon(w) => At(s, w, CleaningUp)
  }

  function Goto(s: State, w: nat, pc: Pc): State
    requires w < |s.workers|
  {
    s.(workers := s.workers[w := s.workers[w].(pc := pc)])
  }

  function PcForRole(role: Role): Pc {
    match role
    case FastPath => Direct
    case Follow => Sleeping
    case GiveUp => CleaningUp
    case Lead => Elected
  }

  function AfterProbe(pc: Pc, outcome: Outcome): Pc
    requires pc.Probing?
  {
    match outcome
    case Answered => Publishing(true)
    case Fatal => Publishing(false)
    case Retryable => if pc.attempts + 1 < pc.budget then Probing(pc.attempts + 1, pc.budget) else Publishing(false)
  }

  function WakeOne(wk: Worker): Worker {
    if wk.pc == Sleeping then wk.(pc := Awake) else wk
  }

  /** A broadcast on the condition variable. */
  function Broadcast(workers: seq<Worker>): (r: seq<Worker>)
    ensures |r| == |workers| && forall i :: 0 <= i < |r| ==> r[i] == WakeOne(workers[i])
  {
    seq(|workers|, i requires 0 <= i < |workers| => WakeOne(workers[i]))
  }

  function Next(s: State, step: Step): State
    requires Enabled(s, step)
  {
    match step
    case Datagram(key, now) =>
      State(Dispatch(s.sh, key, now),
            if DispatchKind(s.sh, key).Spawn? then s.workers + [Worker(key, Dialling)] else s.workers)
    case ContainerStop =>
      State(ExternalStop(s.sh), if s.sh.starting then Broadcast(s.workers) else s.workers)
    case RemoveListener => s.(sh := s.sh.(removed := true))
    case Reconfigure(t) => s.(sh := s.sh.(startTimeout := t))
    case SweepFlows(now, timeout) => s.(sh := Sweep(s.sh, now, timeout))
    case UpstreamReply(w, now) => s.(sh := Reply(s.sh, s.workers[w].key, w, now))
    case DialFails(w) => Goto(s, w, CleaningUp)
    case ChooseRole(w) => Goto(s, w, PcForRole(RoleFor(s.sh))).(sh := SelectRole(s.sh))
    // the start timeout is read outside the lock, after the election
    case BeginProbing(w) => Goto(s, w, Probing(0, Retries(s.sh.startTimeout)))
    case Probe(w, outcome) => Goto(s, w, AfterProbe(s.workers[w].pc, outcome))
    case PublishOutcome(w) =>
      var responded := s.workers[w].pc.responded;
      var moved := Goto(s, w, if responded then Registering else CleaningUp);
      State(Publish(s.sh, responded), Broadcast(moved.workers))
    case Recheck(w) => Goto(s, w, PcForRole(RoleAfterWake(s.sh)))
    case SendDirect(w, sent) => Goto(s, w, if sent then Registering else CleaningUp)
    case RegisterFlow(w, now) => Goto(s, w, Done).(sh := Register(s.sh, s.workers[w].key, w, now))
    case Abandon(w) => Goto(s, w, Done).(sh := CleanUp(s.sh, s.workers[w].key))
  }

  // ---- Runs -----------------------------------------------------------------------

  /** Every step is enabled where it is taken, starting from s. */
  ghost predicate IsRun(s: State, steps: seq<Step>) {
    steps == [] || (IsRun(s, steps[..|steps| - 1]) && Enabled(After(s, steps[..|steps| - 1]), steps[|steps| - 1]))
  }

  function After(s: State, steps: seq<Step>): State {
    if steps == [] then s
    else
      var before := After(s, steps[..|steps| - 1]);
      if Enabled(before, steps[|steps| - 1]) then Next(before, steps[|steps| - 1]) else before
  }

  lemma {:induction false} PrefixIsRun(s: State, steps: seq<Step>, k: nat)
    requires IsRun(s, steps) && k <= |steps|
    ensures IsRun(s, steps[..k])
    ensures k < |steps| ==> Enabled(After(s, steps[..k]), steps[k])
    ensures k < |steps| ==> After(s, steps[..k + 1]) == Next(After(s, steps[..k]), steps[k])
    decreases |steps|
  {
    if k == |steps| {
      assert steps[..k] == steps;
    } else if k == |steps| - 1 {
      assert steps[..k + 1] == steps;
    } else {
      PrefixIsRun(s, steps[..|steps| - 1], k);
      assert steps[..|steps| - 1][..k] == steps[..k] && steps[..|steps| - 1][..k + 1] == steps[..k + 1];
    }
  }

  // ---- The invariant -----------------------------------------------------------------

  predicate Live(wk: Worker) {
    wk.pc != Done
  }

  predicate Leading(wk: Worker) {
    wk.pc.Elected? || wk.pc.Probing? || wk.pc.Publishing?
  }

  /** Each pending key has exactly one live worker, and no pending key has a flow. */
  ghost predicate PendingMatchesWorkers(s: State) {
    && (forall k :: k in s.sh.pending ==> k !in s.sh.flows)
    && (forall k :: k in s.sh.pending ==> exists w :: 0 <= w < |s.workers| && Live(s.workers[w]) && s.workers[w].key == k)
    && (forall w :: 0 <= w < |s.workers| && Live(s.workers[w]) ==> s.workers[w].key in s.sh.pending)
    && (forall v, w :: 0 <= v < w < |s.workers| && Live(s.workers[v]) && Live(s.workers[w]) ==>
          s.workers[v].key != s.workers[w].key)
  }

  /** A sleeper implies `upstreamStarting`, and that implies a leader that will still publish. */
  ghost predicate WakeUpIsComing(s: State) {
    && (forall w :: 0 <= w < |s.workers| && s.workers[w].pc == Sleeping ==> s.sh.starting)
    && (s.sh.starting ==> exists w :: 0 <= w < |s.workers| && Leading(s.workers[w]))
  }

  ghost predicate ProbesInBudget(s: State) {
    forall w :: 0 <= w < |s.workers| && s.workers[w].pc.Probing? ==> s.workers[w].pc.attempts < s.workers[w].pc.budget
  }

  ghost predicate Inv(s: State) {
    PendingMatchesWorkers(s) && WakeUpIsComing(s) && ProbesInBudget(s)
  }

  /** Steps that neither start nor finish a worker. */
  ghost predicate SameWorkers(s: State, t: State) {
    && t.sh.pending == s.sh.pending && t.sh.flows.Keys <= s.sh.flows.Keys
    && |t.workers| == |s.workers|
    && forall w :: 0 <= w < |s.workers| ==> t.workers[w].key == s.workers[w].key && Live(t.workers[w]) == Live(s.workers[w])
  }

  lemma SameWorkersKeepPending(s: State, t: State)
    requires PendingMatchesWorkers(s) && SameWorkers(s, t)
    ensures PendingMatchesWorkers(t)
  {
    forall k | k in t.sh.pending
      ensures k !in t.sh.flows && exists w :: 0 <= w < |t.workers| && Live(t.workers[w]) && t.workers[w].key == k
    {
      var w :| 0 <= w < |s.workers| && Live(s.workers[w]) && s.workers[w].key == k;
      assert Live(t.workers[w]) && t.workers[w].key == k;
    }
  }

  lemma SpawnKeepsPending(s: State, key: Key, sh: Shared)
    requires PendingMatchesWorkers(s) && key !in s.sh.pending && key !in s.sh.flows
    requires sh.pending == s.sh.pending + {key} && sh.flows == s.sh.flows
    ensures PendingMatchesWorkers(State(sh, s.workers + [Worker(key, Dialling)]))
  {
    var workers := s.workers + [Worker(key, Dialling)];
    assert forall w :: 0 <= w < |s.workers| ==> workers[w] == s.workers[w];
    forall k | k in sh.pending
      ensures exists w :: 0 <= w < |workers| && Live(workers[w]) && workers[w].key == k
    {
      if k in s.sh.pending {
        var w :| 0 <= w < |s.workers| && Live(s.workers[w]) && s.workers[w].key == k;
        assert Live(workers[w]);
      } else {
        assert workers[|s.workers|] == Worker(key, Dialling);
      }
    }
  }

  lemma FinishKeepsPending(s: State, w: nat, sh: Shared)
    requires PendingMatchesWorkers(s) && w < |s.workers| && Live(s.workers[w])
    requires sh.pending == s.sh.pending - {s.workers[w].key} && sh.flows.Keys <= s.sh.flows.Keys + {s.workers[w].key}
    ensures PendingMatchesWorkers(Goto(s, w, Done).(sh := sh))
  {
    var t := Goto(s, w, Done).(sh := sh);
    forall k | k in sh.pending
      ensures k !in sh.flows && exists v :: 0 <= v < |t.workers| && Live(t.workers[v]) && t.workers[v].key == k
    {
      var v :| 0 <= v < |s.workers| && Live(s.workers[v]) && s.workers[v].key == k;
      assert t.workers[v] == s.workers[v];
    }
  }

  lemma PendingKept(s: State, step: Step)
    requires PendingMatchesWorkers(s) && Enabled(s, step)
    ensures PendingMatchesWorkers(Next(s, step))
  {
    if step.Datagram? && DispatchKind(s.sh, step.key).Spawn? {
      SpawnKeepsPending(s, step.key, Dispatch(s.sh, step.key, step.now));
    } else if step.RegisterFlow? || step.Abandon? {
      FinishKeepsPending(s, step.w, Next(s, step).sh);
    } else {
      OtherStepsKeepWorkers(s, step);
      SameWorkersKeepPending(s, Next(s, step));
    }
  }

  lemma OtherStepsKeepWorkers(s: State, step: Step)
    requires Enabled(s, step) && !step.RegisterFlow? && !step.Abandon?
    requires step.Datagram? ==> !DispatchKind(s.sh, step.key).Spawn?
    ensures SameWorkers(s, Next(s, step))
  {
  }

  lemma WakeUpKept(s: State, step: Step)
    requires WakeUpIsComing(s) && ProbesInBudget(s) && Enabled(s, step)
    ensures WakeUpIsComing(Next(s, step)) && ProbesInBudget(Next(s, step))
  {
    var t := Next(s, step);
    if t.sh.starting {
      if s.sh.starting {
        var w :| 0 <= w < |s.workers| && Leading(s.workers[w]);
        assert Leading(t.workers[w]);
      } else {
        assert Leading(t.workers[step.w]);
      }
    }
  }

  lemma {:induction false} RunKeepsInv(startTimeout: int, steps: seq<Step>)
    requires IsRun(Start(startTimeout), steps)
    ensures Inv(After(Start(startTimeout), steps))
  {
    if steps != [] {
      var front := steps[..|steps| - 1];
      RunKeepsInv(startTimeout, front);
      PendingKept(After(Start(startTimeout), front), steps[|steps| - 1]);
      WakeUpKept(After(Start(startTimeout), front), steps[|steps| - 1]);
    }
  }

  /** In every reachable state, registering a flow finds no live flow under its key. */
  lemma RegisteringNeverOverwrites(startTimeout: int, steps: seq<Step>, w: nat, now: int)
    requires IsRun(Start(startTimeout), steps) && Enabled(After(Start(startTimeout), steps), RegisterFlow(w, now))
    ensures var s := After(Start(startTimeout), steps);
            s.workers[w].key !in s.sh.flows && s.workers[w].key in s.sh.pending
  {
    RunKeepsInv(startTimeout, steps);
  }

  /**
   * No lost wake-up, in every reachable state of every interleaving, container stops
   * included: while some follower sleeps, some leader has yet to publish.
   */
  lemma {:induction false} NoLostWakeUp(startTimeout: int, steps: seq<Step>, w: nat)
    requires IsRun(Start(startTimeout), steps) && At(After(Start(startTimeout), steps), w, Sleeping)
    ensures var s := After(Start(startTimeout), steps);
            s.sh.starting && exists v :: 0 <= v < |s.workers| && Leading(s.workers[v])
  {
    RunKeepsInv(startTimeout, steps);
  }

  // ---- Single leader without container stops ---------------------------------------------

  ghost predicate SingleLeader(s: State) {
    && (forall w :: 0 <= w < |s.workers| && Leading(s.workers[w]) ==> s.sh.starting)
    && (forall v, w :: 0 <= v < w < |s.workers| ==> !(Leading(s.workers[v]) && Leading(s.workers[w])))
  }

  /** Two different workers are both between election and publication. */
  ghost predicate TwoLeaders(s: State) {
    exists v, w :: 0 <= v < w < |s.workers| && Leading(s.workers[v]) && Leading(s.workers[w])
  }

  ghost predicate SomeLeader(s: State) {
    exists v :: 0 <= v < |s.workers| && Leading(s.workers[v])
  }

  ghost predicate NoContainerStop(steps: seq<Step>) {
    forall i :: 0 <= i < |steps| ==> !steps[i].ContainerStop?
  }

  /** No container stop of the run comes while somebody leads. */
  ghost predicate StopsFindNobody(startTimeout: int, steps: seq<Step>) {
    forall i :: 0 <= i < |steps| && steps[i].ContainerStop? ==> !SomeLeader(After(Start(startTimeout), steps[..i]))
  }

  lemma SingleLeaderKept(s: State, step: Step)
    requires SingleLeader(s) && Enabled(s, step) && !step.ContainerStop?
    ensures SingleLeader(Next(s, step))
  {
    var t := Next(s, step);
    if !step.ChooseRole? || RoleFor(s.sh) != Lead {
      forall w | 0 <= w < |t.workers| && Leading(t.workers[w]) ensures w < |s.workers| && Leading(s.workers[w]) {
      }
      if step.PublishOutcome? {
        assert Leading(s.workers[step.w]);
      }
    }
  }

  lemma StopFindsNobody(s: State)
    requires !SomeLeader(s)
    ensures SingleLeader(Next(s, ContainerStop))
  {
    var t := Next(s, ContainerStop);
    assert forall w :: 0 <= w < |t.workers| && Leading(t.workers[w]) ==> Leading(s.workers[w]);
  }

  /** If container stops come only while nobody leads, at most one worker is between election and publication. */
  lemma {:induction false} AtMostOneLeader(startTimeout: int, steps: seq<Step>)
    requires IsRun(Start(startTimeout), steps) && StopsFindNobody(startTimeout, steps)
    ensures SingleLeader(After(Start(startTimeout), steps)) && !TwoLeaders(After(Start(startTimeout), steps))
  {
    if steps != [] {
      var front, last := steps[..|steps| - 1], steps[|steps| - 1];
      assert StopsFindNobody(startTimeout, front) by {
        assert forall i :: 0 <= i < |front| ==> front[i] == steps[i] && front[..i] == steps[..i];
      }
      AtMostOneLeader(startTimeout, front);
      if last.ContainerStop? {
        StopFindsNobody(After(Start(startTimeout), front));
      } else {
        SingleLeaderKept(After(Start(startTimeout), front), last);
      }
    }
  }

  /** Beside a leader, a worker that chooses its role becomes a second one exactly when both flags are clear. */
  lemma SecondLeaderExactly(s: State, w: nat)
    requires SomeLeader(s) && !TwoLeaders(s) && Enabled(s, ChooseRole(w))
    ensures TwoLeaders(Next(s, ChooseRole(w))) <==> !s.sh.ready && !s.sh.starting
  {
    var t := Next(s, ChooseRole(w));
    var v :| 0 <= v < |s.workers| && Leading(s.workers[v]);
    assert v != w && t.workers[v] == s.workers[v];
    if RoleFor(s.sh).Lead? {
      assert Leading(t.workers[w]);
      assert v < w || w < v;
    } else {
      assert forall x :: 0 <= x < |t.workers| && Leading(t.workers[x]) ==> Leading(s.workers[x]);
    }
  }

  /** No other step makes a second leader. */
  lemma OnlyElectionsAddLeaders(s: State, step: Step)
    requires !TwoLeaders(s) && Enabled(s, step) && !step.ChooseRole?
    ensures !TwoLeaders(Next(s, step))
  {
    var t := Next(s, step);
    assert forall x :: 0 <= x < |t.workers| && Leading(t.workers[x]) ==> x < |s.workers| && Leading(s.workers[x]);
  }

  /** A container stop while somebody leads lets the next worker to choose its role lead beside it. */
  lemma StopAllowsTwoLeaders(s: State, v: nat, w: nat)
    requires v < |s.workers| && Leading(s.workers[v]) && At(s, w, Dialling)
    ensures var stopped := Next(s, ContainerStop);
            && Enabled(stopped, ChooseRole(w))
            && TwoLeaders(Next(stopped, ChooseRole(w)))
            && Leading(Next(stopped, ChooseRole(w)).workers[v]) && Leading(Next(stopped, ChooseRole(w)).workers[w])
  {
    var t := Next(Next(s, ContainerStop), ChooseRole(w));
    assert Leading(t.workers[v]) && Leading(t.workers[w]);
    assert v < w || w < v;
  }

  // ---- Exactly when a stop leads to two leaders -------------------------------------------

  lemma {:induction false} SingleLeaderWithoutStops(s: State, steps: seq<Step>)
    requires SingleLeader(s) && IsRun(s, steps) && NoContainerStop(steps)
    ensures SingleLeader(After(s, steps))
  {
    if steps != [] {
      SingleLeaderWithoutStops(s, steps[..|steps| - 1]);
      SingleLeaderKept(After(s, steps[..|steps| - 1]), steps[|steps| - 1]);
    }
  }

  /** Some run without a further container stop has two workers lead at once. */
  ghost predicate CanHaveTwoLeaders(s: State) {
    exists steps :: IsRun(s, steps) && NoContainerStop(steps) && TwoLeaders(After(s, steps))
  }

  lemma {:induction false} LongerThanAll(keys: set<Key>) returns (n: nat)
    ensures forall k :: k in keys ==> |k| < n
    decreases keys
  {
    if keys == {} {
      n := 0;
    } else {
      var k :| k in keys;
      n := LongerThanAll(keys - {k});
      n := if |k| < n then n else |k| + 1;
    }
  }

  /** A client that has neither a flow nor a pending one. */
  lemma FreshKey(sh: Shared) returns (key: Key)
    ensures key !in sh.flows && key !in sh.pending
  {
    var n := LongerThanAll(sh.flows.Keys + sh.pending);
    key := seq(n, _ => 'x');
    assert |key| == n;
  }

  /** After a container stop a second leader can be elected, without another stop, exactly when somebody led at the stop. */
  lemma TwoLeadersExactly(s: State)
    ensures CanHaveTwoLeaders(Next(s, ContainerStop)) <==> SomeLeader(s)
  {
    var t := Next(s, ContainerStop);
    if SomeLeader(s) {
      var v :| 0 <= v < |s.workers| && Leading(s.workers[v]);
      LeaderIsJoined(s, v);
    } else {
      StopFindsNobody(s);
      forall steps | IsRun(t, steps) && NoContainerStop(steps) ensures !TwoLeaders(After(t, steps)) {
        SingleLeaderWithoutStops(t, steps);
      }
    }
  }

  /** A client new to a listener with both flags clear gets a leader beside the one there is. */
  lemma ArrivalLeads(t: State, v: nat, key: Key)
    requires v < |t.workers| && Leading(t.workers[v]) && key !in t.sh.flows && key !in t.sh.pending
    requires !t.sh.ready && !t.sh.starting
    ensures var t1 := Next(t, Datagram(key, 0));
            Enabled(t1, ChooseRole(|t.workers|)) && TwoLeaders(Next(t1, ChooseRole(|t.workers|)))
  {
    var w := |t.workers|;
    var t1 := Next(t, Datagram(key, 0));
    assert t1.workers == t.workers + [Worker(key, Dialling)];
    var t2 := Next(t1, ChooseRole(w));
    assert t2.workers == t1.workers[w := Worker(key, Elected)];
    assert Leading(t2.workers[v]) && Leading(t2.workers[w]);
  }

  lemma RunOfTwo(s: State, a: Step, b: Step)
    requires Enabled(s, a) && Enabled(Next(s, a), b)
    ensures IsRun(s, [a, b]) && After(s, [a, b]) == Next(Next(s, a), b)
  {
    assert [a, b][..1] == [a] && [a][..0] == [];
    assert IsRun(s, []) && After(s, []) == s;
    assert IsRun(s, [a]) && After(s, [a]) == Next(s, a);
  }

  lemma LeaderIsJoined(s: State, v: nat)
    requires v < |s.workers| && Leading(s.workers[v])
    ensures CanHaveTwoLeaders(Next(s, ContainerStop))
  {
    var t := Next(s, ContainerStop);
    assert t.workers[v] == s.workers[v];
    var key := FreshKey(t.sh);
    var arrive, choose := Datagram(key, 0), ChooseRole(|t.workers|);
    ArrivalLeads(t, v, key);
    RunOfTwo(t, arrive, choose);
    assert NoContainerStop([arrive, choose]);
  }

  function ContainerStops(steps: seq<Step>): nat {
    if steps == [] then 0
    else ContainerStops(steps[..|steps| - 1]) + (if steps[|steps| - 1].ContainerStop? then 1 else 0)
  }

  lemma RunOneMore(s: State, steps: seq<Step>, step: Step)
    requires IsRun(s, steps) && Enabled(After(s, steps), step)
    ensures IsRun(s, steps + [step]) && After(s, steps + [step]) == Next(After(s, steps), step)
    ensures ContainerStops(steps + [step]) == ContainerStops(steps) + (if step.ContainerStop? then 1 else 0)
  {
    assert (steps + [step])[..|steps|] == steps;
  }

  /** Two clients' first datagrams, the first worker probing before the second datagram arrives. */
  lemma ProbingAndDialling(startTimeout: int, a: Key, b: Key, now: int) returns (steps: seq<Step>)
    requires a != b
    ensures IsRun(Start(startTimeout), steps) && ContainerStops(steps) == 0
    ensures var s := After(Start(startTimeout), steps); |s.workers| == 2 && s.workers[0].pc.Probing? && At(s, 1, Dialling)
  {
    var s := Start(startTimeout);
    steps := FirstProbing(startTimeout, a, now);
    RunOneMore(s, steps, Datagram(b, now));
    steps := steps + [Datagram(b, now)];
  }

  /** One client's datagram, whose worker is elected. */
  lemma FirstElected(startTimeout: int, a: Key, now: int) returns (steps: seq<Step>)
    ensures IsRun(Start(startTimeout), steps) && ContainerStops(steps) == 0
    ensures After(Start(startTimeout), steps)
         == State(Start(startTimeout).sh.(pending := {a}, starting := true), [Worker(a, Elected)])
  {
    var s := Start(startTimeout);
    RunOneMore(s, [], Datagram(a, now));
    steps := [] + [Datagram(a, now)];
    assert After(s, steps) == State(s.sh.(pending := {a}), [Worker(a, Dialling)]);
    RunOneMore(s, steps, ChooseRole(0));
    steps := steps + [ChooseRole(0)];
    assert [Worker(a, Dialling)][0 := Worker(a, Elected)] == [Worker(a, Elected)];
  }

  /** It starts to probe. */
  lemma FirstProbing(startTimeout: int, a: Key, now: int) returns (steps: seq<Step>)
    ensures IsRun(Start(startTimeout), steps) && ContainerStops(steps) == 0
    ensures var s := After(Start(startTimeout), steps);
            s.workers == [Worker(a, Probing(0, Retries(startTimeout)))] && s.sh.pending == {a} && s.sh.flows == map[]
  {
    steps := FirstElected(startTimeout, a, now);
    RunOneMore(Start(startTimeout), steps, BeginProbing(0));
    steps := steps + [BeginProbing(0)];
  }

  /** Two clients and one container stop while the first client's worker probes are enough for two leaders. */
  lemma TwoLeadersAreReachable(startTimeout: int, a: Key, b: Key, now: int)
    requires a != b
    ensures exists steps :: IsRun(Start(startTimeout), steps) && ContainerStops(steps) == 1
                            && TwoLeaders(After(Start(startTimeout), steps))
  {
    var s := Start(startTimeout);
    var steps := ProbingAndDialling(startTimeout, a, b, now);
    StopAllowsTwoLeaders(After(s, steps), 0, 1);
    RunOneMore(s, steps, ContainerStop);
    RunOneMore(s, steps + [ContainerStop], ChooseRole(1));
  }
}
