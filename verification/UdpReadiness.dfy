/**
 * How far the readiness flag can be trusted: a container stop clears it, but a leader whose
 * probe was answered before the stop may still publish afterwards.
 */
module UdpReadiness {
  import opened UdpListening
  import opened UdpProtocol

  /** A leader's probe has been answered and the outcome is not published yet. */
  ghost predicate AnswerInFlight(s: State) {
    exists w :: 0 <= w < |s.workers| && s.workers[w].pc == Publishing(true)
  }

  predicate IsAnswer(step: Step) {
    step.Probe? && step.outcome == Answered
  }

  ghost predicate NoAnswer(steps: seq<Step>) {
    forall i :: 0 <= i < |steps| ==> !IsAnswer(steps[i])
  }

  /** Not ready, and nobody is about to say otherwise. */
  ghost predicate Unready(s: State) {
    !s.sh.ready && !AnswerInFlight(s)
  }

  lemma UnreadyKept(s: State, step: Step)
    requires Unready(s) && Enabled(s, step) && !IsAnswer(step)
    ensures Unready(Next(s, step))
  {
    var t := Next(s, step);
    assert forall w :: 0 <= w < |t.workers| && t.workers[w].pc == Publishing(true)
                       ==> w < |s.workers| && s.workers[w].pc == Publishing(true);
    if step.PublishOutcome? {
      assert s.workers[step.w].pc != Publishing(true);
    }
  }

  lemma {:induction false} UnreadyUntilAnswer(s: State, steps: seq<Step>)
    requires Unready(s) && IsRun(s, steps) && NoAnswer(steps)
    ensures Unready(After(s, steps))
  {
    if steps != [] {
      UnreadyUntilAnswer(s, steps[..|steps| - 1]);
      UnreadyKept(After(s, steps[..|steps| - 1]), steps[|steps| - 1]);
    }
  }

  /** Some run without a further answered probe makes the listener ready. */
  ghost predicate ReadyWithoutAnswer(s: State) {
    exists steps :: IsRun(s, steps) && NoAnswer(steps) && After(s, steps).sh.ready
  }

  /** After a container stop the flag can go up again unanswered exactly when an answer was in flight at the stop. */
  lemma StaleReadinessExactly(s: State)
    ensures ReadyWithoutAnswer(Next(s, ContainerStop)) <==> AnswerInFlight(s)
  {
    var t := Next(s, ContainerStop);
    if AnswerInFlight(s) {
      var w :| 0 <= w < |s.workers| && s.workers[w].pc == Publishing(true);
      assert t.workers[w] == s.workers[w];
      assert IsRun(t, []) && After(t, []) == t;
      RunOneMore(t, [], PublishOutcome(w));
      assert NoAnswer([] + [PublishOutcome(w)]);
    } else {
      assert !AnswerInFlight(t) by {
        assert forall w :: 0 <= w < |t.workers| && t.workers[w].pc == Publishing(true) ==> s.workers[w].pc == Publishing(true);
      }
      forall steps | IsRun(t, steps) && NoAnswer(steps) ensures !After(t, steps).sh.ready {
        UnreadyUntilAnswer(t, steps);
      }
    }
  }

  // ---- Whole runs --------------------------------------------------------------------------

  /** A probe was answered after the last container stop of the run. */
  ghost predicate AnsweredSinceStop(steps: seq<Step>) {
    exists i :: 0 <= i < |steps| && IsAnswer(steps[i]) && forall j :: i < j < |steps| ==> !steps[j].ContainerStop?
  }

  /** No container stop of the run comes while an answer is in flight. */
  ghost predicate StopsAreClean(startTimeout: int, steps: seq<Step>) {
    forall j :: 0 <= j < |steps| && steps[j].ContainerStop? ==> !AnswerInFlight(After(Start(startTimeout), steps[..j]))
  }

  lemma AnswerExtends(steps: seq<Step>, step: Step)
    requires !step.ContainerStop?
    ensures AnsweredSinceStop(steps) || IsAnswer(step) ==> AnsweredSinceStop(steps + [step])
  {
    var more := steps + [step];
    if AnsweredSinceStop(steps) {
      var i :| 0 <= i < |steps| && IsAnswer(steps[i]) && forall j :: i < j < |steps| ==> !steps[j].ContainerStop?;
      assert IsAnswer(more[i]);
    } else if IsAnswer(step) {
      assert IsAnswer(more[|steps|]);
    }
  }

  lemma CleanPrefix(startTimeout: int, steps: seq<Step>)
    requires steps != [] && StopsAreClean(startTimeout, steps)
    ensures StopsAreClean(startTimeout, steps[..|steps| - 1])
    ensures steps[|steps| - 1].ContainerStop? ==> !AnswerInFlight(After(Start(startTimeout), steps[..|steps| - 1]))
  {
    var front := steps[..|steps| - 1];
    forall j | 0 <= j < |front| && front[j].ContainerStop? ensures !AnswerInFlight(After(Start(startTimeout), front[..j])) {
      assert steps[j].ContainerStop? && front[..j] == steps[..j];
    }
  }

  /** If no stop overtakes an answer in flight, a ready listener has had an answer since the last stop. */
  lemma {:induction false} ReadyMeansAnswered(startTimeout: int, steps: seq<Step>)
    requires IsRun(Start(startTimeout), steps) && StopsAreClean(startTimeout, steps)
    ensures AnsweredSinceStop(steps) || Unready(After(Start(startTimeout), steps))
    ensures After(Start(startTimeout), steps).sh.ready ==> AnsweredSinceStop(steps)
  {
    if steps != [] {
      var front, last := steps[..|steps| - 1], steps[|steps| - 1];
      var before := After(Start(startTimeout), front);
      assert steps == front + [last];
      CleanPrefix(startTimeout, steps);
      ReadyMeansAnswered(startTimeout, front);
      if last.ContainerStop? {
        UnreadyAfterCleanStop(before);
      } else {
        AnswerExtends(front, last);
        if !AnsweredSinceStop(front) && !IsAnswer(last) {
          UnreadyKept(before, last);
        }
      }
    }
  }

  lemma UnreadyAfterCleanStop(s: State)
    requires !AnswerInFlight(s)
    ensures Unready(Next(s, ContainerStop))
  {
    var t := Next(s, ContainerStop);
    assert forall w :: 0 <= w < |t.workers| && t.workers[w].pc == Publishing(true) ==> s.workers[w].pc == Publishing(true);
  }

  /** One client, answered and then stopped before it publishes: ready, although nothing answered since the stop. */
  lemma StaleReadinessIsReachable(startTimeout: int, a: Key, now: int)
    ensures exists steps :: IsRun(Start(startTimeout), steps) && After(Start(startTimeout), steps).sh.ready
                            && !AnsweredSinceStop(steps)
  {
    var s := Start(startTimeout);
    var steps := ElectedAndAnswered(startTimeout, a, now);
    RunOneMore(s, steps, ContainerStop);
    var stopped := steps + [ContainerStop];
    RunOneMore(s, stopped, PublishOutcome(0));
    var all := stopped + [PublishOutcome(0)];
    assert !AnsweredSinceStop(all) by {
      assert all[|steps|].ContainerStop? && all[|steps| + 1].PublishOutcome?;
    }
  }

  lemma ElectedAndAnswered(startTimeout: int, a: Key, now: int) returns (steps: seq<Step>)
    ensures IsRun(Start(startTimeout), steps)
    ensures After(Start(startTimeout), steps).workers == [Worker(a, Publishing(true))]
  {
    var s := Start(startTimeout);
    steps := FirstProbing(startTimeout, a, now);
    RunOneMore(s, steps, Probe(0, Answered));
    steps := steps + [Probe(0, Answered)];
  }
}
