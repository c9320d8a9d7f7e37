/**
 * What flow establishment does for its clients: who is served and when, why a worker may give up,
 * and how long a flow lives.
 */
module UdpService {
  import opened UdpListening
  import opened UdpProtocol
  import opened UdpProgress

  /** The worker's client has a flow, over the worker's own connection, and is no longer pending. */
  ghost predicate Served(s: State, w: nat, now: int) {
    && w < |s.workers|
    && s.workers[w].key in s.sh.flows && s.workers[w].key !in s.sh.pending
    && s.sh.flows[s.workers[w].key].conn == w && s.sh.flows[s.workers[w].key].lastActive == now
  }

  /** Some run of exactly these steps serves the worker's client. */
  ghost predicate Serves(s: State, steps: seq<Step>, w: nat, now: int) {
    IsRun(s, steps) && Served(After(s, steps), w, now)
  }

  lemma ServesStep(s: State, first: Step, rest: seq<Step>, w: nat, now: int)
    requires Enabled(s, first) && Serves(Next(s, first), rest, w, now)
    ensures Serves(s, [first] + rest, w, now)
  {
    StepThenRun(s, first, rest, After(Next(s, first), rest));
  }

  lemma RegisteringServes(s: State, w: nat, now: int)
    requires At(s, w, Registering)
    ensures Serves(s, [RegisterFlow(w, now)], w, now)
  {
    var t := Next(s, RegisterFlow(w, now));
    assert IsRun(t, []) && After(t, []) == t && Served(t, w, now);
    ServesStep(s, RegisterFlow(w, now), [], w, now);
    assert [RegisterFlow(w, now)] + [] == [RegisterFlow(w, now)];
  }

  lemma DirectServes(s: State, w: nat, now: int)
    requires At(s, w, Direct)
    ensures Serves(s, [SendDirect(w, true)] + [RegisterFlow(w, now)], w, now)
  {
    RegisteringServes(Next(s, SendDirect(w, true)), w, now);
    ServesStep(s, SendDirect(w, true), [RegisterFlow(w, now)], w, now);
  }

  /** A ready listener serves a new client at once: no probe, one datagram sent. */
  lemma ReadyServesNewClient(s: State, w: nat, now: int)
    requires s.sh.ready && At(s, w, Dialling)
    ensures Serves(s, [ChooseRole(w)] + ([SendDirect(w, true)] + [RegisterFlow(w, now)]), w, now)
  {
    DirectServes(Next(s, ChooseRole(w)), w, now);
    ServesStep(s, ChooseRole(w), [SendDirect(w, true)] + [RegisterFlow(w, now)], w, now);
  }

  /** So does a ready listener, still in place and no longer probing, a client whose worker has been woken. */
  lemma ReadyServesWokenClient(s: State, w: nat, now: int)
    requires s.sh.ready && !s.sh.starting && !s.sh.removed && At(s, w, Awake)
    ensures Serves(s, [Recheck(w)] + ([SendDirect(w, true)] + [RegisterFlow(w, now)]), w, now)
  {
    DirectServes(Next(s, Recheck(w)), w, now);
    ServesStep(s, Recheck(w), [SendDirect(w, true)] + [RegisterFlow(w, now)], w, now);
  }

  /** The first client of a cold listener is served when its probe is answered, and the listener is ready from then on. */
  lemma ColdListenerServesFirstClient(s: State, w: nat, now: int)
    requires !s.sh.ready && !s.sh.starting && At(s, w, Dialling)
    ensures var steps := [ChooseRole(w)] + ([BeginProbing(w)] + ([Probe(w, Answered)] + ([PublishOutcome(w)] + [RegisterFlow(w, now)])));
            Serves(s, steps, w, now)
    ensures Next(Next(Next(Next(s, ChooseRole(w)), BeginProbing(w)), Probe(w, Answered)), PublishOutcome(w)).sh.ready
  {
    var s1 := Next(s, ChooseRole(w));
    var s2 := Next(s1, BeginProbing(w));
    var s3 := Next(s2, Probe(w, Answered));
    var s4 := Next(s3, PublishOutcome(w));
    RegisteringServes(s4, w, now);
    ServesStep(s3, PublishOutcome(w), [RegisterFlow(w, now)], w, now);
    ServesStep(s2, Probe(w, Answered), [PublishOutcome(w)] + [RegisterFlow(w, now)], w, now);
    ServesStep(s1, BeginProbing(w), [Probe(w, Answered)] + ([PublishOutcome(w)] + [RegisterFlow(w, now)]), w, now);
    ServesStep(s, ChooseRole(w), [BeginProbing(w)] + ([Probe(w, Answered)] + ([PublishOutcome(w)] + [RegisterFlow(w, now)])), w, now);
  }

  /** A leader's publication wakes every sleeper; an answered one leaves each of them to be served. */
  lemma PublicationServesSleepers(s: State, leader: nat, w: nat, now: int)
    requires At(s, leader, Publishing(true)) && At(s, w, Sleeping) && !s.sh.removed
    ensures var steps := [PublishOutcome(leader)] + ([Recheck(w)] + ([SendDirect(w, true)] + [RegisterFlow(w, now)]));
            Serves(s, steps, w, now)
  {
    var t := Next(s, PublishOutcome(leader));
    assert At(t, w, Awake) && t.sh.ready && !t.sh.starting;
    ReadyServesWokenClient(t, w, now);
    ServesStep(s, PublishOutcome(leader), [Recheck(w)] + ([SendDirect(w, true)] + [RegisterFlow(w, now)]), w, now);
  }

  /** A worker goes to sleep only while somebody probes for a listener still in place. */
  lemma SleepsOnlyWhileProbing(s: State, step: Step, w: nat)
    requires Enabled(s, step) && At(Next(s, step), w, Sleeping) && !At(s, w, Sleeping)
    ensures s.sh.starting && !s.sh.removed && (step == ChooseRole(w) || step == Recheck(w))
  {
  }

  // ---- The listener's flags ---------------------------------------------------------------------

  predicate PublishesAnswer(s: State, step: Step) {
    step.PublishOutcome? && At(s, step.w, Publishing(true))
  }

  /** What each step does to the flags and to the start timeout. */
  lemma FlagsFollowSteps(s: State, step: Step)
    requires Enabled(s, step)
    ensures var before, after := s.sh, Next(s, step).sh;
            && (after.ready <==> PublishesAnswer(s, step) || (before.ready && !step.ContainerStop?))
            && (after.starting <==>
                  || (step.ChooseRole? && !before.ready)
                  || (before.starting && !step.PublishOutcome? && !step.ContainerStop?))
            && (after.removed <==> before.removed || step.RemoveListener?)
            && after.startTimeout == if step.Reconfigure? then step.startTimeout else before.startTimeout
  {
  }

  /** An answer has been published, and no stop has come since. */
  ghost predicate AnswerStands(startTimeout: int, steps: seq<Step>) {
    exists k :: 0 <= k < |steps| && AnswerStandsSince(startTimeout, steps, k)
  }

  ghost predicate AnswerStandsSince(startTimeout: int, steps: seq<Step>, k: nat)
    requires k < |steps|
  {
    PublishesAnswer(After(Start(startTimeout), steps[..k]), steps[k]) && forall j :: k < j < |steps| ==> !steps[j].ContainerStop?
  }

  lemma AnswerStandsMore(startTimeout: int, front: seq<Step>, last: Step)
    ensures AnswerStands(startTimeout, front + [last]) <==>
              PublishesAnswer(After(Start(startTimeout), front), last) || (AnswerStands(startTimeout, front) && !last.ContainerStop?)
  {
    var steps, n := front + [last], |front|;
    assert steps[..n] == front && steps[n] == last;
    assert forall k :: 0 <= k < n ==> steps[..k] == front[..k] && steps[k] == front[k];
    if PublishesAnswer(After(Start(startTimeout), front), last) {
      assert AnswerStandsSince(startTimeout, steps, n);
    } else if AnswerStands(startTimeout, front) && !last.ContainerStop? {
      var k :| 0 <= k < n && AnswerStandsSince(startTimeout, front, k);
      assert AnswerStandsSince(startTimeout, steps, k);
    }
    if AnswerStands(startTimeout, steps) {
      var k :| 0 <= k < |steps| && AnswerStandsSince(startTimeout, steps, k);
      if k < n {
        assert AnswerStandsSince(startTimeout, front, k);
        assert !steps[n].ContainerStop?;
      }
    }
  }

  /** In every run the listener is ready exactly if an answer has been published since the last stop. */
  lemma {:induction false} ReadyExactly(startTimeout: int, steps: seq<Step>)
    requires IsRun(Start(startTimeout), steps)
    ensures After(Start(startTimeout), steps).sh.ready <==> AnswerStands(startTimeout, steps)
  {
    if steps != [] {
      var front, last := steps[..|steps| - 1], steps[|steps| - 1];
      assert steps == front + [last];
      ReadyExactly(startTimeout, front);
      FlagsFollowSteps(After(Start(startTimeout), front), last);
      AnswerStandsMore(startTimeout, front, last);
    }
  }

  // ---- Why a worker gives up --------------------------------------------------------------------

  /** The worker has no flow to expect: it is cleaning up, or will after publishing a failure. */
  predicate Failing(pc: Pc) {
    pc == CleaningUp || pc == Publishing(false)
  }

  /** The step is one of the worker's own that fails, or finds the listener removed or not ready. */
  predicate IsCause(s: State, step: Step, w: nat) {
    match step
    case DialFails(v) => v == w
    case Probe(v, outcome) => v == w && outcome != Answered
    case SendDirect(v, sent) => v == w && !sent
    case ChooseRole(v) => v == w && s.sh.removed && s.sh.starting && !s.sh.ready
    case Recheck(v) => v == w && (s.sh.removed || (!s.sh.ready && !s.sh.starting))
    case _ => false
  }

  ghost predicate HasCause(startTimeout: int, steps: seq<Step>, w: nat) {
    exists i :: 0 <= i < |steps| && IsCause(After(Start(startTimeout), steps[..i]), steps[i], w)
  }

  lemma FailsByCause(s: State, step: Step, w: nat)
    requires Enabled(s, step) && w < |Next(s, step).workers| && Failing(Next(s, step).workers[w].pc)
    ensures (w < |s.workers| && Failing(s.workers[w].pc)) || IsCause(s, step, w)
  {
  }

  lemma CauseStays(startTimeout: int, steps: seq<Step>, step: Step, w: nat)
    requires HasCause(startTimeout, steps, w) || IsCause(After(Start(startTimeout), steps), step, w)
    ensures HasCause(startTimeout, steps + [step], w)
  {
    var more := steps + [step];
    if HasCause(startTimeout, steps, w) {
      var i :| 0 <= i < |steps| && IsCause(After(Start(startTimeout), steps[..i]), steps[i], w);
      assert more[..i] == steps[..i] && more[i] == steps[i];
    } else {
      assert more[..|steps|] == steps && more[|steps|] == step;
    }
  }

  lemma {:induction false} FailingHasCause(startTimeout: int, steps: seq<Step>, w: nat)
    requires IsRun(Start(startTimeout), steps)
    requires w < |After(Start(startTimeout), steps).workers| && Failing(After(Start(startTimeout), steps).workers[w].pc)
    ensures HasCause(startTimeout, steps, w)
  {
    if steps != [] {
      var front, last := steps[..|steps| - 1], steps[|steps| - 1];
      var before := After(Start(startTimeout), front);
      assert steps == front + [last];
      FailsByCause(before, last, w);
      if w < |before.workers| && Failing(before.workers[w].pc) {
        FailingHasCause(startTimeout, front, w);
      }
      CauseStays(startTimeout, front, last, w);
    }
  }

  /**
   * In every run a worker gives its client up only after its dial failed, a probe of its own went
   * unanswered, its datagram could not be sent, or it found the listener removed or, when it was
   * woken, neither ready nor being probed.
   */
  lemma AbandonedForCause(startTimeout: int, steps: seq<Step>, w: nat)
    requires IsRun(Start(startTimeout), steps) && Enabled(After(Start(startTimeout), steps), Abandon(w))
    ensures HasCause(startTimeout, steps, w)
  {
    FailingHasCause(startTimeout, steps, w);
  }

  // ---- Why a client gets a flow ---------------------------------------------------------------------

  /** The worker has been successful: it has sent its datagram, or its own probe was answered. */
  predicate Succeeding(pc: Pc) {
    pc == Registering || pc == Publishing(true)
  }

  predicate IsSuccess(step: Step, w: nat) {
    step == SendDirect(w, true) || step == Probe(w, Answered)
  }

  lemma SucceedsBySuccess(s: State, step: Step, w: nat)
    requires Enabled(s, step) && w < |Next(s, step).workers| && Succeeding(Next(s, step).workers[w].pc)
    ensures (w < |s.workers| && Succeeding(s.workers[w].pc)) || IsSuccess(step, w)
  {
  }

  /** In every run a worker registers a flow only after its own datagram was sent or its own probe was answered. */
  lemma {:induction false} RegisteredForCause(startTimeout: int, steps: seq<Step>, w: nat)
    requires IsRun(Start(startTimeout), steps)
    requires w < |After(Start(startTimeout), steps).workers| && Succeeding(After(Start(startTimeout), steps).workers[w].pc)
    ensures exists i :: 0 <= i < |steps| && IsSuccess(steps[i], w)
  {
    if steps != [] {
      var front, last := steps[..|steps| - 1], steps[|steps| - 1];
      var before := After(Start(startTimeout), front);
      SucceedsBySuccess(before, last, w);
      if w < |before.workers| && Succeeding(before.workers[w].pc) {
        RegisteredForCause(startTimeout, front, w);
        var i :| 0 <= i < |front| && IsSuccess(front[i], w);
        assert IsSuccess(steps[i], w);
      } else {
        assert IsSuccess(steps[|front|], w);
      }
    }
  }

  // ---- How long a flow lives ------------------------------------------------------------------------

  /** The step is traffic of the key's flow over connection conn, or registers that flow. */
  predicate Touches(s: State, step: Step, key: Key, conn: nat) {
    match step
    case Datagram(k, _) => k == key
    case RegisterFlow(w, _) => w == conn && w < |s.workers| && s.workers[w].key == key
    case UpstreamReply(w, _) => w == conn && w < |s.workers| && s.workers[w].key == key
    case _ => false
  }

  predicate Timed(step: Step) {
    step.Datagram? || step.RegisterFlow? || step.UpstreamReply?
  }

  /** Only its own traffic moves a flow's activity time, and always to the time of that traffic. */
  lemma ActivityIsTraffic(s: State, step: Step, key: Key)
    requires Inv(s) && Enabled(s, step) && key in s.sh.flows && key in Next(s, step).sh.flows
    ensures var f, g := s.sh.flows[key], Next(s, step).sh.flows[key];
            && g.conn == f.conn
            && g.lastActive == if Timed(step) && Touches(s, step, key, f.conn) then step.now else f.lastActive
  {
    if step.RegisterFlow? {
      assert s.workers[step.w].key in s.sh.pending;
    }
  }

  /** A flow ends in a sweep, exactly when it has been idle for longer than the timeout. */
  lemma FlowsEndWhenIdle(s: State, step: Step, key: Key)
    requires Enabled(s, step) && key in s.sh.flows
    ensures key !in Next(s, step).sh.flows <==> step.SweepFlows? && step.now - s.sh.flows[key].lastActive > step.timeout
  {
  }

  /** A flow appears only by registration, over the registering worker's connection. */
  lemma FlowsBeginByRegistration(s: State, step: Step, key: Key)
    requires Enabled(s, step) && key !in s.sh.flows && key in Next(s, step).sh.flows
    ensures step.RegisterFlow? && s.workers[step.w].key == key && Next(s, step).sh.flows[key] == Flow(step.w, step.now)
  {
  }

  /** The listener's own activity time follows forwarded datagrams, replies and registrations. */
  lemma ListenerActivity(s: State, step: Step)
    requires Enabled(s, step)
    ensures Next(s, step).sh.lastActive ==
            if step.RegisterFlow? || step.UpstreamReply? || (step.Datagram? && step.key in s.sh.flows) then step.now
            else s.sh.lastActive
  {
  }

  /** When the key's flow was last touched in the run, having been registered as connection conn. */
  ghost function LastTouch(startTimeout: int, steps: seq<Step>, key: Key, conn: nat): int {
    if steps == [] then 0
    else
      var front, last := steps[..|steps| - 1], steps[|steps| - 1];
      if Timed(last) && Touches(After(Start(startTimeout), front), last, key, conn) then last.now
      else LastTouch(startTimeout, front, key, conn)
  }

  lemma {:induction false} ActivityIsLastTouch(startTimeout: int, steps: seq<Step>, key: Key)
    requires IsRun(Start(startTimeout), steps) && key in After(Start(startTimeout), steps).sh.flows
    ensures var f := After(Start(startTimeout), steps).sh.flows[key]; f.lastActive == LastTouch(startTimeout, steps, key, f.conn)
  {
    if steps != [] {
      var front, last := steps[..|steps| - 1], steps[|steps| - 1];
      var before := After(Start(startTimeout), front);
      RunKeepsInv(startTimeout, front);
      if key in before.sh.flows {
        ActivityIsLastTouch(startTimeout, front, key);
        ActivityIsTraffic(before, last, key);
      } else {
        FlowsBeginByRegistration(before, last, key);
      }
    }
  }

  /** In every run a sweep ends a flow exactly when the flow's last traffic lies further back than the timeout. */
  lemma SweptExactlyWhenIdle(startTimeout: int, steps: seq<Step>, key: Key, now: int, timeout: int)
    requires IsRun(Start(startTimeout), steps) && key in After(Start(startTimeout), steps).sh.flows
    ensures var s := After(Start(startTimeout), steps); var conn := s.sh.flows[key].conn;
            key !in Next(s, SweepFlows(now, timeout)).sh.flows <==> now - LastTouch(startTimeout, steps, key, conn) > timeout
  {
    ActivityIsLastTouch(startTimeout, steps, key);
    FlowsEndWhenIdle(After(Start(startTimeout), steps), SweepFlows(now, timeout), key);
  }
}
