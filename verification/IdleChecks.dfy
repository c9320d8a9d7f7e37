/**
 * The split check against the rule: a container gets a stop call exactly when each of its
 * on-demand listeners was idle when it was looked at, and a check that nothing disturbs calls
 * exactly the containers that the rule says are due.
 */
module IdleChecks {
  import opened Inactivity
  import opened IdleRuns

  /** Step k of the check that took its snapshot at step i looks at an on-demand listener of the container. */
  ghost predicate LooksAt(states: seq<State>, steps: seq<Step>, i: nat, k: nat, id: Id)
    requires |states| == |steps| + 1 && k < |steps|
  {
    && i < k && steps[k].Inspect? && steps[k].ref in states[k].heap
    && Managed(states[k].heap[steps[k].ref]) && states[k].heap[steps[k].ref].info.id == id
  }

  /** The listener looked at is idle at that moment. */
  ghost predicate FoundIdle(states: seq<State>, steps: seq<Step>, k: nat)
    requires |states| == |steps| + 1 && k < |steps| && steps[k].Inspect? && steps[k].ref in states[k].heap
  {
    Idle(states[k].heap[steps[k].ref], steps[k].now, states[k].globalTimeout)
  }

  ghost predicate SomeLook(states: seq<State>, steps: seq<Step>, i: nat, j: nat, id: Id)
    requires |states| == |steps| + 1 && j <= |steps|
  {
    exists k :: 0 <= k < j && LooksAt(states, steps, i, k, id)
  }

  ghost predicate AllLooksIdle(states: seq<State>, steps: seq<Step>, i: nat, j: nat, id: Id)
    requires |states| == |steps| + 1 && j <= |steps|
  {
    forall k :: 0 <= k < j && LooksAt(states, steps, i, k, id) ==> FoundIdle(states, steps, k)
  }

  ghost predicate StillLooking(steps: seq<Step>, i: nat, j: nat) {
    forall k :: i < k < j && k < |steps| ==> !steps[k].BeginStops?
  }

  /** The groups say exactly what the looks so far have found. */
  ghost predicate GroupTells(states: seq<State>, steps: seq<Step>, i: nat, j: nat, id: Id)
    requires |states| == |steps| + 1 && j <= |steps|
  {
    && states[j].checker.Inspecting?
    && (id in states[j].checker.groups <==> SomeLook(states, steps, i, j, id))
    && (id in states[j].checker.groups ==> (states[j].checker.groups[id].allIdle <==> AllLooksIdle(states, steps, i, j, id)))
  }

  lemma LooksExtend(states: seq<State>, steps: seq<Step>, i: nat, j: nat, id: Id)
    requires |states| == |steps| + 1 && j < |steps|
    ensures SomeLook(states, steps, i, j + 1, id) <==> SomeLook(states, steps, i, j, id) || LooksAt(states, steps, i, j, id)
    ensures AllLooksIdle(states, steps, i, j + 1, id) <==>
              AllLooksIdle(states, steps, i, j, id) && (LooksAt(states, steps, i, j, id) ==> FoundIdle(states, steps, j))
  {
    var next := j + 1;
    if SomeLook(states, steps, i, j, id) {
      var k :| 0 <= k < j && LooksAt(states, steps, i, k, id);
      assert 0 <= k < next;
    }
  }

  lemma {:induction false} GroupsTell(states: seq<State>, steps: seq<Step>, i: nat, j: nat, id: Id)
    requires IsRun(states, steps) && i < j <= |steps| && steps[i].Snapshot? && StillLooking(steps, i, j)
    ensures GroupTells(states, steps, i, j, id)
    decreases j
  {
    assert StepsTo(states, steps, j - 1);
    if j > i + 1 {
      GroupsTell(states, steps, i, j - 1, id);
      LooksExtend(states, steps, i, j - 1, id);
      assert !steps[j - 1].BeginStops?;
    }
  }

  /**
   * Whatever else happens meanwhile, when the check turns to its stop calls (step j) they are for
   * exactly the containers of which it looked at some on-demand listener and found every one of
   * those it looked at idle at that moment.
   */
  lemma CallsFollowLooks(states: seq<State>, steps: seq<Step>, i: nat, j: nat, id: Id)
    requires IsRun(states, steps) && i < j < |steps| && steps[i].Snapshot? && StillLooking(steps, i, j) && steps[j].BeginStops?
    ensures states[j + 1].checker.Stopping?
    ensures id in states[j + 1].checker.calls <==> SomeLook(states, steps, i, j, id) && AllLooksIdle(states, steps, i, j, id)
  {
    GroupsTell(states, steps, i, j, id);
    assert StepsTo(states, steps, j);
  }

  // ---- Recent activity prevents the stop --------------------------------------------------------

  /** The check looks at a registered on-demand listener of the container that is down or has been active within the timeout. */
  ghost predicate FindsActive(s: State, step: Step, id: Id) {
    && step.Inspect? && step.ref in s.registered && step.ref in s.heap && OnDemandFor(s.heap[step.ref], id)
    && (s.heap[step.ref].running ==> !QuietSince(s.heap[step.ref], step.now, s.globalTimeout))
  }

  /** The check under way has ruled the container out. */
  ghost predicate RuledOut(s: State, id: Id) {
    match s.checker
    case Resting => true
    case Inspecting(_, groups) => id in groups && !groups[id].allIdle
    case Stopping(calls, _) => id !in calls
  }

  lemma ActiveRulesOut(s: State, step: Step, id: Id)
    requires Enabled(s, step) && FindsActive(s, step, id)
    ensures RuledOut(Next(s, step), id)
  {
    ManagedIsOnDemand(s.heap[step.ref]);
    IdleIsQuiet(s.heap[step.ref], step.now, s.globalTimeout);
  }

  lemma RuledOutKept(s: State, step: Step, id: Id)
    requires Enabled(s, step) && !step.Snapshot? && RuledOut(s, id)
    ensures RuledOut(Next(s, step), id)
  {
  }

  /**
   * A listener that is down at its look (step k), has something open, or was last active more
   * recently than the timeout that applies, keeps its check from stopping the container,
   * whatever happens in between.
   */
  lemma {:induction false} RecentActivityPreventsStop(states: seq<State>, steps: seq<Step>, k: nat, j: nat, id: Id)
    requires IsRun(states, steps) && k < j < |steps| && FindsActive(states[k], steps[k], id)
    requires forall m :: k < m < j ==> !steps[m].Snapshot?
    ensures RuledOut(states[j], id) && !(steps[j].StopCall? && steps[j].id == id)
    decreases j
  {
    assert StepsTo(states, steps, j - 1) && StepsTo(states, steps, j);
    if j == k + 1 {
      ActiveRulesOut(states[k], steps[k], id);
    } else {
      RecentActivityPreventsStop(states, steps, k, j - 1, id);
      RuledOutKept(states[j - 1], steps[j - 1], id);
    }
  }

  // ---- An undisturbed check ----------------------------------------------------------------

  /** Between snapshot and stop calls there are only looks, each at the time `at` gives for its listener. */
  ghost predicate Undisturbed(steps: seq<Step>, i: nat, j: nat, at: Ref -> int) {
    forall k :: i < k < j && k < |steps| ==> steps[k].Inspect? && steps[k].now == at(steps[k].ref)
  }

  /** Every listener of the snapshot has been looked at or still will be; nothing has changed. */
  ghost predicate Covered(states: seq<State>, steps: seq<Step>, i: nat, j: nat)
    requires |states| == |steps| + 1 && i < j <= |steps|
  {
    && states[j].checker.Inspecting? && states[j].heap == states[i].heap && states[j].globalTimeout == states[i].globalTimeout
    && (forall r :: r in states[i].registered && r !in states[j].checker.todo ==> exists k :: i < k < j && LooksAtRef(steps, k, r))
    && (forall r :: r in states[j].checker.todo ==> r in states[i].registered)
  }

  ghost predicate LooksAtRef(steps: seq<Step>, k: nat, r: Ref)
    requires k < |steps|
  {
    steps[k].Inspect? && steps[k].ref == r
  }

  lemma {:induction false} CheckCovers(states: seq<State>, steps: seq<Step>, i: nat, j: nat, at: Ref -> int)
    requires IsRun(states, steps) && i < j <= |steps| && steps[i].Snapshot? && Undisturbed(steps, i, j, at)
    ensures Covered(states, steps, i, j)
    ensures forall k :: i < k < j ==> states[k].heap == states[i].heap && states[k].globalTimeout == states[i].globalTimeout
                                      && steps[k].Inspect? && steps[k].ref in states[i].registered
    decreases j
  {
    assert StepsTo(states, steps, j - 1);
    if j > i + 1 {
      CheckCovers(states, steps, i, j - 1, at);
      var last := j - 1;
      assert steps[last].Inspect?;
      forall r | r in states[i].registered && r !in states[j].checker.todo
        ensures exists k :: i < k < j && LooksAtRef(steps, k, r)
      {
        if r == steps[last].ref {
          assert LooksAtRef(steps, last, r);
        } else {
          var k :| i < k < last && LooksAtRef(steps, k, r);
          assert i < k < j;
        }
      }
    }
  }

  /** The rule, over the registered listeners: some is on-demand, and all those are idle. */
  ghost predicate DueRefs(s: State, at: Ref -> int, id: Id) {
    && (exists r :: r in s.registered && MemberRef(s, r, id))
    && (forall r :: r in s.registered && MemberRef(s, r, id) ==> Idle(s.heap[r], at(r), s.globalTimeout))
  }

  ghost predicate MemberRef(s: State, r: Ref, id: Id) {
    r in s.heap && Managed(s.heap[r]) && s.heap[r].info.id == id
  }

  /** A check that nothing disturbs calls exactly the containers of which every registered on-demand listener is idle. */
  lemma UndisturbedCalls(states: seq<State>, steps: seq<Step>, i: nat, j: nat, at: Ref -> int, id: Id)
    requires IsRun(states, steps) && i < j < |steps| && steps[i].Snapshot? && Undisturbed(steps, i, j, at) && steps[j].BeginStops?
    ensures states[j + 1].checker.Stopping? && (id in states[j + 1].checker.calls <==> DueRefs(states[i], at, id))
  {
    CheckCovers(states, steps, i, j, at);
    CallsFollowLooks(states, steps, i, j, id);
    assert StepsTo(states, steps, j);
    RunIsWellFormed(states, steps, i);
    forall r | r in states[i].registered && MemberRef(states[i], r, id)
      ensures exists k :: 0 <= k < j && LooksAt(states, steps, i, k, id) && steps[k].ref == r
    {
      var k :| i < k < j && LooksAtRef(steps, k, r);
      assert LooksAt(states, steps, i, k, id);
    }
    if SomeLook(states, steps, i, j, id) {
      var k :| 0 <= k < j && LooksAt(states, steps, i, k, id);
      assert MemberRef(states[i], steps[k].ref, id);
    }
  }

  // ---- The same rule as for the check in one go -----------------------------------------------

  /** tcp and udp list the registered listeners, under the given references. */
  ghost predicate Lists(s: State, tcpRefs: seq<Ref>, udpRefs: seq<Ref>, tcp: seq<Listener>, udp: seq<Listener>) {
    && |tcpRefs| == |tcp| && |udpRefs| == |udp|
    && (forall n :: 0 <= n < |tcp| ==> tcpRefs[n] in s.registered && tcpRefs[n] in s.heap && s.heap[tcpRefs[n]] == tcp[n])
    && (forall n :: 0 <= n < |udp| ==> udpRefs[n] in s.registered && udpRefs[n] in s.heap && s.heap[udpRefs[n]] == udp[n])
    && (forall r :: r in s.registered ==> r in tcpRefs || r in udpRefs)
  }

  /** The clock readings of the two passes are those of the looks. */
  ghost predicate SameClock(clock: Clock, globalTimeout: int, at: Ref -> int, tcpRefs: seq<Ref>, udpRefs: seq<Ref>) {
    && clock.globalTimeout == globalTimeout
    && (forall n :: 0 <= n < |tcpRefs| ==> clock.tcp(n) == at(tcpRefs[n]))
    && (forall n :: 0 <= n < |udpRefs| ==> clock.udp(n) == at(udpRefs[n]))
  }

  lemma DueIsDueRefs(s: State, tcpRefs: seq<Ref>, udpRefs: seq<Ref>, tcp: seq<Listener>, udp: seq<Listener>,
                     clock: Clock, at: Ref -> int, id: Id)
    requires Lists(s, tcpRefs, udpRefs, tcp, udp) && SameClock(clock, s.globalTimeout, at, tcpRefs, udpRefs)
    ensures Due(tcp, udp, clock, id) <==> DueRefs(s, at, id)
  {
    forall r | r in s.registered && MemberRef(s, r, id)
      ensures (exists n: nat :: n < |tcp| && tcpRefs[n] == r && IsMember(tcp, id, n))
           || (exists n: nat :: n < |udp| && udpRefs[n] == r && IsMember(udp, id, n))
    {
      if r in tcpRefs {
        var n: nat :| n < |tcpRefs| && tcpRefs[n] == r;
        assert IsMember(tcp, id, n);
      } else {
        var n: nat :| n < |udpRefs| && udpRefs[n] == r;
        assert IsMember(udp, id, n);
      }
    }
    forall n: nat | n < |tcp| && IsMember(tcp, id, n) ensures tcpRefs[n] in s.registered && MemberRef(s, tcpRefs[n], id) {
    }
    forall n: nat | n < |udp| && IsMember(udp, id, n) ensures udpRefs[n] in s.registered && MemberRef(s, udpRefs[n], id) {
    }
  }

  /** A check that nothing disturbs calls exactly the containers that are due. */
  lemma UndisturbedCheckCallsTheDue(states: seq<State>, steps: seq<Step>, i: nat, j: nat, at: Ref -> int,
                                    tcpRefs: seq<Ref>, udpRefs: seq<Ref>, tcp: seq<Listener>, udp: seq<Listener>, clock: Clock, id: Id)
    requires IsRun(states, steps) && i < j < |steps| && steps[i].Snapshot? && Undisturbed(steps, i, j, at) && steps[j].BeginStops?
    requires Lists(states[i], tcpRefs, udpRefs, tcp, udp) && SameClock(clock, states[i].globalTimeout, at, tcpRefs, udpRefs)
    ensures states[j + 1].checker.Stopping? && (id in states[j + 1].checker.calls <==> Due(tcp, udp, clock, id))
  {
    UndisturbedCalls(states, steps, i, j, at, id);
    DueIsDueRefs(states[i], tcpRefs, udpRefs, tcp, udp, clock, at, id);
  }
}
