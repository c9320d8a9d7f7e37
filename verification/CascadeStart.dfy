/**
 * Start cascades as a transition system: start events wait to be handled, cascade
 * goroutines walk their dependants, and any of them may move at any time. The backend emits
 * a start event exactly when it changes a container's state.
 */
module CascadeStart {
  import opened Cascade

  /** up: running containers; events: unhandled start events; tasks: what each goroutine has left to do. */
  datatype State = State(up: set<Id>, events: seq<Id>, tasks: seq<seq<string>>)

  datatype Step = HandleEvent(i: nat) | Advance(t: nat)

  predicate Enabled(s: State, step: Step) {
    match step
    case HandleEvent(i) => i < |s.events|
    case Advance(t) => t < |s.tasks| && s.tasks[t] != []
  }

  function Next(w: World, s: State, step: Step): State
    requires Enabled(s, step)
  {
    match step
    case HandleEvent(i) => State(s.up, Without(s.events, i), s.tasks + [StartDependants(w, s.events[i])])
    case Advance(t) =>
      var name := s.tasks[t][0];
      var tasks := s.tasks[t := s.tasks[t][1..]];
      if name in w.names && w.names[name] !in s.up
      then State(s.up + {w.names[name]}, s.events + [w.names[name]], tasks)
      else s.(tasks := tasks)
  }

  /** The hub was just started: its event is pending, or a direct cascade was spawned, or both. */
  ghost predicate Init(w: World, up: set<Id>, hub: Id, s: State) {
    && s.up == up
    && (forall e :: e in s.events ==> e == hub)
    && (forall task :: task in s.tasks ==> task == StartDependants(w, hub))
    && (s.events != [] || s.tasks != [])
  }

  ghost predicate Quiet(s: State) {
    forall step :: !Enabled(s, step)
  }

  function StartEligible(up: set<Id>): Id -> bool {
    id => id !in up
  }

  /** Started by a cascade from hub when the containers in up were already running. */
  ghost predicate ToStart(w: World, up: set<Id>, hub: Id, id: Id) {
    Reaches(StartGraph(w), StartEligible(up), hub, id)
  }

  // ---- Invariants ------------------------------------------------------------------------

  ghost predicate NameSound(w: World, up: set<Id>, hub: Id, name: string) {
    name in w.names && w.names[name] !in up ==> ToStart(w, up, hub, w.names[name])
  }

  /** Nothing is started, announced or scheduled that the cascade does not reach. */
  ghost predicate Sound(w: World, up: set<Id>, hub: Id, s: State) {
    && up <= s.up
    && (forall id :: id in s.up ==> id in up || ToStart(w, up, hub, id))
    && (forall e :: e in s.events ==> e == hub || ToStart(w, up, hub, e))
    && (forall task, name :: task in s.tasks && name in task ==> NameSound(w, up, hub, name))
  }

  ghost predicate Scheduled(w: World, s: State, id: Id) {
    exists t :: 0 <= t < |s.tasks| && Names(w, s.tasks[t], id)
  }

  /** a's dependants have all been dealt with, or still will be. */
  ghost predicate Expanded(w: World, s: State, a: Id) {
    a in s.events || forall b :: Names(w, StartDependants(w, a), b) ==> b in s.up || Scheduled(w, s, b)
  }

  ghost predicate Complete(w: World, up: set<Id>, hub: Id, s: State) {
    Expanded(w, s, hub) && forall a :: a in s.up && a !in up ==> Expanded(w, s, a)
  }

  lemma DependantsAreSound(w: World, up: set<Id>, hub: Id, a: Id)
    requires a == hub || ToStart(w, up, hub, a)
    ensures forall name :: name in StartDependants(w, a) ==> NameSound(w, up, hub, name)
  {
    forall name | name in StartDependants(w, a) && name in w.names && w.names[name] !in up
      ensures ToStart(w, up, hub, w.names[name])
    {
      assert StartGraph(w)(a, w.names[name]);
      ReachesNext(StartGraph(w), StartEligible(up), hub, a, w.names[name]);
    }
  }

  lemma InitHolds(w: World, up: set<Id>, hub: Id, s: State)
    requires Init(w, up, hub, s)
    ensures Sound(w, up, hub, s) && Complete(w, up, hub, s)
  {
    DependantsAreSound(w, up, hub, hub);
    if s.events != [] {
      assert s.events[0] in s.events;
    } else {
      assert s.tasks[0] in s.tasks;
    }
  }

  lemma SoundKept(w: World, up: set<Id>, hub: Id, s: State, step: Step)
    requires Sound(w, up, hub, s) && Enabled(s, step)
    ensures Sound(w, up, hub, Next(w, s, step))
  {
    var n := Next(w, s, step);
    match step
    case HandleEvent(i) =>
      DependantsAreSound(w, up, hub, s.events[i]);
    case Advance(t) =>
      assert s.tasks[t] in s.tasks && s.tasks[t][0] in s.tasks[t];
      assert NameSound(w, up, hub, s.tasks[t][0]);
      forall task, name | task in n.tasks && name in task ensures NameSound(w, up, hub, name) {
        if task !in s.tasks {
          assert name in s.tasks[t];
        }
      }
  }

  /** Advancing a task disposes of one name and leaves the others scheduled. */
  lemma ScheduledAfterAdvance(w: World, s: State, t: nat, b: Id)
    requires Enabled(s, Advance(t)) && Scheduled(w, s, b)
    ensures b in Next(w, s, Advance(t)).up || Scheduled(w, Next(w, s, Advance(t)), b)
  {
    var n := Next(w, s, Advance(t));
    var u :| 0 <= u < |s.tasks| && Names(w, s.tasks[u], b);
    var i :| 0 <= i < |s.tasks[u]| && s.tasks[u][i] in w.names && w.names[s.tasks[u][i]] == b;
    if u != t {
      assert n.tasks[u] == s.tasks[u];
    } else if i > 0 {
      assert n.tasks[t][i - 1] == s.tasks[t][i];
      assert Names(w, n.tasks[t], b);
    }
  }

  lemma ExpandedKept(w: World, s: State, step: Step, a: Id)
    requires Expanded(w, s, a) && Enabled(s, step)
    ensures Expanded(w, Next(w, s, step), a)
  {
    var n := Next(w, s, step);
    if a !in n.events {
      match step {
        case HandleEvent(i) =>
          assert forall t :: 0 <= t < |s.tasks| ==> n.tasks[t] == s.tasks[t];
          if a in s.events {
            assert a == s.events[i] && n.tasks[|s.tasks|] == StartDependants(w, a);
          }
        case Advance(t) =>
          forall b | Names(w, StartDependants(w, a), b) ensures b in n.up || Scheduled(w, n, b) {
            if b !in s.up {
              ScheduledAfterAdvance(w, s, t, b);
            }
          }
      }
    }
  }

  lemma CompleteKept(w: World, up: set<Id>, hub: Id, s: State, step: Step)
    requires Complete(w, up, hub, s) && Enabled(s, step)
    ensures Complete(w, up, hub, Next(w, s, step))
  {
    var n := Next(w, s, step);
    ExpandedKept(w, s, step, hub);
    forall a | a in n.up && a !in up ensures Expanded(w, n, a) {
      if a in s.up {
        ExpandedKept(w, s, step, a);
      }
    }
  }

  // ---- Runs -------------------------------------------------------------------------------------

  ghost predicate IsRun(w: World, s: State, steps: seq<Step>, t: State)
    decreases |steps|
  {
    if steps == [] then s == t else Enabled(s, steps[0]) && IsRun(w, Next(w, s, steps[0]), steps[1..], t)
  }

  function Down(w: World, s: State): set<Id> {
    w.names.Values - s.up
  }

  function Total(tasks: seq<seq<string>>): nat {
    if tasks == [] then 0 else Total(tasks[..|tasks| - 1]) + |tasks[|tasks| - 1]|
  }

  /** Work left, when no target has more than d dependants. */
  function Work(w: World, s: State, d: nat): nat {
    Weigh(|Down(w, s)|, d + 2) + Weigh(|s.events|, d + 1) + Total(s.tasks)
  }

  lemma {:induction false} TotalUpdate(tasks: seq<seq<string>>, t: nat, task: seq<string>)
    requires t < |tasks|
    ensures Total(tasks[t := task]) == Total(tasks) - |tasks[t]| + |task|
    decreases |tasks|
  {
    var updated := tasks[t := task];
    if t == |tasks| - 1 {
      assert updated[..|updated| - 1] == tasks[..|tasks| - 1];
    } else {
      assert updated[..|updated| - 1] == tasks[..|tasks| - 1][t := task];
      TotalUpdate(tasks[..|tasks| - 1], t, task);
    }
  }

  /** What one step does to the three counts. */
  lemma StepCounts(w: World, s: State, step: Step)
    requires Enabled(s, step)
    ensures var n := Next(w, s, step);
            || (|Down(w, n)| == |Down(w, s)| && |n.events| + 1 == |s.events|
                && step.HandleEvent? && Total(n.tasks) == Total(s.tasks) + |StartDependants(w, s.events[step.i])|)
            || (|Down(w, n)| + 1 == |Down(w, s)| && |n.events| == |s.events| + 1 && Total(n.tasks) + 1 == Total(s.tasks))
            || (|Down(w, n)| == |Down(w, s)| && |n.events| == |s.events| && Total(n.tasks) + 1 == Total(s.tasks))
  {
    var n := Next(w, s, step);
    match step
    case HandleEvent(i) =>
      assert n.tasks[..|s.tasks|] == s.tasks;
    case Advance(t) =>
      TotalUpdate(s.tasks, t, s.tasks[t][1..]);
      var name := s.tasks[t][0];
      if name in w.names && w.names[name] !in s.up {
        var id := w.names[name];
        assert id in w.names.Values;
        assert Down(w, n) == Down(w, s) - {id};
      }
  }

  lemma StepLowersWork(w: World, s: State, step: Step, d: nat)
    requires Enabled(s, step) && AtMostDependants(w, d)
    ensures Work(w, Next(w, s, step), d) < Work(w, s, d)
  {
    var n := Next(w, s, step);
    StepCounts(w, s, step);
    assert step.HandleEvent? ==> |StopDependants(w, s.events[step.i])| <= d;
    CountsWeighLess(|Down(w, n)|, |n.events|, Total(n.tasks), |Down(w, s)|, |s.events|, Total(s.tasks), d);
  }

  lemma CountsWeighLess(down: nat, events: nat, total: nat, down0: nat, events0: nat, total0: nat, d: nat)
    requires (down == down0 && events + 1 == events0 && total <= total0 + d)
          || (down + 1 == down0 && events == events0 + 1 && total + 1 == total0)
          || (down == down0 && events == events0 && total + 1 == total0)
    ensures Weigh(down, d + 2) + Weigh(events, d + 1) + total < Weigh(down0, d + 2) + Weigh(events0, d + 1) + total0
  {
    WeighOneMore(down, d + 2);
    WeighOneMore(events, d + 1);
    WeighOneMore(events0, d + 1);
  }

  /**
   * A start cascade on any dependants graph, cycles included, ends within the given number
   * of steps however its goroutines and events interleave; and when it has ended, the
   * containers it started are exactly those reachable through containers that were down.
   */
  lemma {:induction false} CascadeStartsExactly(w: World, up: set<Id>, hub: Id, s: State, steps: seq<Step>, t: State, d: nat)
    requires Sound(w, up, hub, s) && Complete(w, up, hub, s) && AtMostDependants(w, d) && IsRun(w, s, steps, t)
    ensures |steps| + Work(w, t, d) <= Work(w, s, d)
    ensures Quiet(t) ==> forall id :: id in t.up <==> id in up || ToStart(w, up, hub, id)
    decreases |steps|
  {
    if steps == [] {
      if Quiet(t) {
        QuietIsClosed(w, up, hub, t);
      }
    } else {
      SoundKept(w, up, hub, s, steps[0]);
      CompleteKept(w, up, hub, s, steps[0]);
      StepLowersWork(w, s, steps[0], d);
      CascadeStartsExactly(w, up, hub, Next(w, s, steps[0]), steps[1..], t, d);
    }
  }

  lemma QuietIsClosed(w: World, up: set<Id>, hub: Id, t: State)
    requires Sound(w, up, hub, t) && Complete(w, up, hub, t) && Quiet(t)
    ensures forall id :: id in t.up <==> id in up || ToStart(w, up, hub, id)
  {
    assert t.events == [] by {
      assert !Enabled(t, HandleEvent(0));
    }
    forall i | 0 <= i < |t.tasks| ensures t.tasks[i] == [] {
      assert !Enabled(t, Advance(i));
    }
    var inside := id => id in t.up && id !in up;
    forall a, b | (a == hub || inside(a)) && StartGraph(w)(a, b) && StartEligible(up)(b) ensures inside(b) {
      assert Expanded(w, t, a);
      assert Names(w, StartDependants(w, a), b);
    }
    forall id | ToStart(w, up, hub, id) ensures id in t.up {
      var path :| IsPath(StartGraph(w), StartEligible(up), hub, path, id);
      ClosedHoldsReachable(StartGraph(w), StartEligible(up), hub, path, id, inside);
    }
  }

  /** From a freshly started hub: termination bound and exact effect in one statement. */
  lemma {:induction false} StartCascade(w: World, up: set<Id>, hub: Id, s: State, steps: seq<Step>, t: State, d: nat)
    requires Init(w, up, hub, s) && AtMostDependants(w, d) && IsRun(w, s, steps, t)
    ensures |steps| <= Work(w, s, d)
    ensures Quiet(t) ==> forall id :: id in t.up <==> id in up || ToStart(w, up, hub, id)
  {
    InitHolds(w, up, hub, s);
    CascadeStartsExactly(w, up, hub, s, steps, t, d);
  }

  // ---- The same, as the least set ------------------------------------------------------------------

  /** Whatever the hub, or a member that was down, lists as dependants and passes the start on to is a member. */
  ghost predicate ClosedUnderStarts(w: World, up: set<Id>, hub: Id, members: set<Id>) {
    forall a, b :: (a == hub || (a in members && a !in up)) && PassesStartOn(w, a) && ListsDependant(w, a, b) ==> b in members
  }

  lemma ReachedAreInClosed(w: World, up: set<Id>, hub: Id, members: set<Id>, id: Id)
    requires ClosedUnderStarts(w, up, hub, members) && ToStart(w, up, hub, id)
    ensures id in members
  {
    var inside := x => x in members && x !in up;
    forall a, b | (a == hub || inside(a)) && StartGraph(w)(a, b) && StartEligible(up)(b) ensures inside(b) {
      EdgesExactly(w, a, b);
    }
    var path :| IsPath(StartGraph(w), StartEligible(up), hub, path, id);
    ClosedHoldsReachable(StartGraph(w), StartEligible(up), hub, path, id, inside);
  }

  /** When a start cascade has ended, what is up is the least set that holds what was up and is closed under the hub's and the started containers' dependants. */
  lemma {:induction false} StartsLeastClosedSet(w: World, up: set<Id>, hub: Id, s: State, steps: seq<Step>, t: State, members: set<Id>)
    requires Init(w, up, hub, s) && IsRun(w, s, steps, t) && Quiet(t)
    ensures up <= t.up && ClosedUnderStarts(w, up, hub, t.up)
    ensures up <= members && ClosedUnderStarts(w, up, hub, members) ==> t.up <= members
  {
    DependantsAreBounded(w);
    var d: nat :| AtMostDependants(w, d);
    StartCascade(w, up, hub, s, steps, t, d);
    forall a, b | (a == hub || (a in t.up && a !in up)) && PassesStartOn(w, a) && ListsDependant(w, a, b) ensures b in t.up {
      EdgesExactly(w, a, b);
      if b !in up {
        ReachesNext(StartGraph(w), StartEligible(up), hub, a, b);
      }
    }
    if ClosedUnderStarts(w, up, hub, members) {
      forall id | id in t.up && id !in up ensures id in members {
        ReachedAreInClosed(w, up, hub, members, id);
      }
    }
  }
}
