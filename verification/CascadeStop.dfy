/**
 * Stop cascades as a transition system. A dependant is stopped only while some listener of
 * it is marked running, the mark is cleared after the backend call returns, and the backend
 * emits a die event exactly when it changes a container's state.
 */
module CascadeStop {
  import opened Text
  import opened Cascade

  /** A cascade goroutine: the names it has left, and the container whose mark it is about to clear. */
  datatype Task = Task(rest: seq<string>, clearing: Option<Id>)

  /** up: running containers; marks: containers with a listener marked running; events: unhandled die events. */
  datatype State = State(up: set<Id>, marks: set<Id>, events: seq<Id>, tasks: seq<Task>)

  datatype Step = HandleEvent(i: nat) | Advance(t: nat) | ClearMark(t: nat)

  predicate Enabled(s: State, step: Step) {
    match step
    case HandleEvent(i) => i < |s.events|
    case Advance(t) => t < |s.tasks| && s.tasks[t].clearing.None? && s.tasks[t].rest != []
    case ClearMark(t) => t < |s.tasks| && s.tasks[t].clearing.Some?
  }

  function Next(w: World, s: State, step: Step): State
    requires Enabled(s, step)
  {
    match step
    case HandleEvent(i) =>
      var id := s.events[i];
      State(s.up, s.marks - {id}, Without(s.events, i), s.tasks + [Task(StopDependants(w, id), None)])
    case Advance(t) =>
      var name, rest := s.tasks[t].rest[0], s.tasks[t].rest[1..];
      if name !in w.names || w.names[name] !in s.marks then s.(tasks := s.tasks[t := Task(rest, None)])
      else
        var id := w.names[name];
        State(s.up - {id}, s.marks, if id in s.up then s.events + [id] else s.events, s.tasks[t := Task(rest, Some(id))])
    case ClearMark(t) =>
      State(s.up, s.marks - {s.tasks[t].clearing.value}, s.events, s.tasks[t := s.tasks[t].(clearing := None)])
  }

  /** The hub was just stopped: its event is pending, or a direct cascade was spawned, or both. */
  ghost predicate Init(w: World, up: set<Id>, marks: set<Id>, hub: Id, s: State) {
    && s.up == up && s.marks == marks && hub !in up
    && (forall e :: e in s.events ==> e == hub)
    && (forall task :: task in s.tasks ==> task == Task(StopDependants(w, hub), None))
    && (s.events != [] || s.tasks != [])
  }

  ghost predicate Quiet(s: State) {
    forall step :: !Enabled(s, step)
  }

  function StopEligible(up: set<Id>, marks: set<Id>): Id -> bool {
    id => id in up && id in marks
  }

  /** Stopped by a cascade from hub when up were running and marks were marked running. */
  ghost predicate ToStop(w: World, up: set<Id>, marks: set<Id>, hub: Id, id: Id) {
    Reaches(StopGraph(w), StopEligible(up, marks), hub, id)
  }

  // ---- Invariants ------------------------------------------------------------------------

  ghost predicate NameSound(w: World, up: set<Id>, marks: set<Id>, hub: Id, name: string) {
    name in w.names && w.names[name] in up && w.names[name] in marks ==> ToStop(w, up, marks, hub, w.names[name])
  }

  /** Nothing is stopped, announced or scheduled that the cascade does not reach. */
  ghost predicate Sound(w: World, up: set<Id>, marks: set<Id>, hub: Id, s: State) {
    && s.up <= up && s.marks <= marks
    && (forall id :: id in up && id !in s.up ==> ToStop(w, up, marks, hub, id))
    && (forall e :: e in s.events ==> e == hub || ToStop(w, up, marks, hub, e))
    && (forall task, name :: task in s.tasks && name in task.rest ==> NameSound(w, up, marks, hub, name))
  }

  /** A mark is cleared only for a container that is down. */
  ghost predicate MarksFollow(up: set<Id>, marks: set<Id>, s: State) {
    && (forall id :: id in marks && id !in s.marks ==> id !in s.up)
    && (forall e :: e in s.events ==> e !in s.up)
    && (forall t :: 0 <= t < |s.tasks| && s.tasks[t].clearing.Some? ==> s.tasks[t].clearing.value !in s.up)
  }

  ghost predicate Scheduled(w: World, s: State, id: Id) {
    exists t :: 0 <= t < |s.tasks| && Names(w, s.tasks[t].rest, id)
  }

  /** a's markedly running dependants have all been dealt with, or still will be. */
  ghost predicate Expanded(w: World, marks: set<Id>, s: State, a: Id) {
    a in s.events || forall b :: Names(w, StopDependants(w, a), b) && b in marks ==> b !in s.up || Scheduled(w, s, b)
  }

  ghost predicate Complete(w: World, up: set<Id>, marks: set<Id>, hub: Id, s: State) {
    Expanded(w, marks, s, hub) && forall a :: a in up && a !in s.up ==> Expanded(w, marks, s, a)
  }

  ghost predicate Inv(w: World, up: set<Id>, marks: set<Id>, hub: Id, s: State) {
    Sound(w, up, marks, hub, s) && MarksFollow(up, marks, s) && Complete(w, up, marks, hub, s)
  }

  lemma DependantsAreSound(w: World, up: set<Id>, marks: set<Id>, hub: Id, a: Id)
    requires a == hub || ToStop(w, up, marks, hub, a)
    ensures forall name :: name in StopDependants(w, a) ==> NameSound(w, up, marks, hub, name)
  {
    forall name | name in StopDependants(w, a) && name in w.names && w.names[name] in up && w.names[name] in marks
      ensures ToStop(w, up, marks, hub, w.names[name])
    {
      assert StopGraph(w)(a, w.names[name]);
      ReachesNext(StopGraph(w), StopEligible(up, marks), hub, a, w.names[name]);
    }
  }

  lemma InitHolds(w: World, up: set<Id>, marks: set<Id>, hub: Id, s: State)
    requires Init(w, up, marks, hub, s)
    ensures Inv(w, up, marks, hub, s)
  {
    DependantsAreSound(w, up, marks, hub, hub);
    if s.events != [] {
      assert s.events[0] in s.events;
    } else {
      assert s.tasks[0] in s.tasks;
    }
    forall t | 0 <= t < |s.tasks| ensures s.tasks[t].clearing.None? {
      assert s.tasks[t] in s.tasks;
    }
  }

  lemma SoundKept(w: World, up: set<Id>, marks: set<Id>, hub: Id, s: State, step: Step)
    requires Sound(w, up, marks, hub, s) && Enabled(s, step)
    ensures Sound(w, up, marks, hub, Next(w, s, step))
  {
    var n := Next(w, s, step);
    if step.HandleEvent? {
      DependantsAreSound(w, up, marks, hub, s.events[step.i]);
    } else {
      var old_ := s.tasks[step.t];
      assert old_ in s.tasks;
      forall task, name | task in n.tasks && name in task.rest ensures NameSound(w, up, marks, hub, name) {
        if task !in s.tasks {
          assert name in old_.rest;
        }
      }
      if step.Advance? {
        assert old_.rest[0] in old_.rest;
        assert NameSound(w, up, marks, hub, old_.rest[0]);
      }
    }
  }

  lemma MarksFollowKept(w: World, up: set<Id>, marks: set<Id>, s: State, step: Step)
    requires MarksFollow(up, marks, s) && Enabled(s, step)
    ensures MarksFollow(up, marks, Next(w, s, step))
  {
  }

  lemma ScheduledAfterStep(w: World, marks: set<Id>, up: set<Id>, s: State, step: Step, b: Id)
    requires MarksFollow(up, marks, s) && Enabled(s, step) && Scheduled(w, s, b) && b in marks
    ensures b !in Next(w, s, step).up || Scheduled(w, Next(w, s, step), b)
  {
    var n := Next(w, s, step);
    var u :| 0 <= u < |s.tasks| && Names(w, s.tasks[u].rest, b);
    var i :| 0 <= i < |s.tasks[u].rest| && s.tasks[u].rest[i] in w.names && w.names[s.tasks[u].rest[i]] == b;
    if step.Advance? && u == step.t {
      if i > 0 {
        assert n.tasks[u].rest[i - 1] == s.tasks[u].rest[i];
        assert Names(w, n.tasks[u].rest, b);
      }
    } else {
      assert n.tasks[u].rest == s.tasks[u].rest;
    }
  }

  lemma ExpandedKept(w: World, up: set<Id>, marks: set<Id>, s: State, step: Step, a: Id)
    requires MarksFollow(up, marks, s) && Expanded(w, marks, s, a) && Enabled(s, step)
    ensures Expanded(w, marks, Next(w, s, step), a)
  {
    var n := Next(w, s, step);
    if a !in n.events {
      if a in s.events {
        assert step.HandleEvent? && a == s.events[step.i] && n.tasks[|s.tasks|].rest == StopDependants(w, a);
      } else {
        forall b | Names(w, StopDependants(w, a), b) && b in marks ensures b !in n.up || Scheduled(w, n, b) {
          if b in s.up {
            ScheduledAfterStep(w, marks, up, s, step, b);
          }
        }
      }
    }
  }

  lemma InvKept(w: World, up: set<Id>, marks: set<Id>, hub: Id, s: State, step: Step)
    requires Inv(w, up, marks, hub, s) && Enabled(s, step)
    ensures Inv(w, up, marks, hub, Next(w, s, step))
  {
    var n := Next(w, s, step);
    SoundKept(w, up, marks, hub, s, step);
    MarksFollowKept(w, up, marks, s, step);
    ExpandedKept(w, up, marks, s, step, hub);
    forall a | a in up && a !in n.up ensures Expanded(w, marks, n, a) {
      if a !in s.up {
        ExpandedKept(w, up, marks, s, step, a);
      } else {
        assert a in n.events;
      }
    }
  }

  // ---- Runs -------------------------------------------------------------------------------------

  ghost predicate IsRun(w: World, s: State, steps: seq<Step>, t: State)
    decreases |steps|
  {
    if steps == [] then s == t else Enabled(s, steps[0]) && IsRun(w, Next(w, s, steps[0]), steps[1..], t)
  }

  function Cost(task: Task): nat {
    2 * |task.rest| + (if task.clearing.Some? then 1 else 0)
  }

  function Total(tasks: seq<Task>): nat {
    if tasks == [] then 0 else Total(tasks[..|tasks| - 1]) + Cost(tasks[|tasks| - 1])
  }

  /** Work left, when no target has more than d dependants. */
  function Work(s: State, d: nat): nat {
    Weigh(|s.up|, 2 * d + 1) + Weigh(|s.events|, 2 * d + 1) + Total(s.tasks)
  }

  lemma {:induction false} TotalUpdate(tasks: seq<Task>, t: nat, task: Task)
    requires t < |tasks|
    ensures Total(tasks[t := task]) == Total(tasks) - Cost(tasks[t]) + Cost(task)
    decreases |tasks|
  {
    var updated := tasks[t := task];
    if t == |tasks| - 1 {
      assert updated[..|updated| - 1] == tasks[..|tasks| - 1];
    } else {
      assert updated[..|updated| - 1] == tasks[..|tasks| - 1][t := task];
      TotalUpdate(tasks[..|tasks| - 1], t, task);
    }
  }

  lemma StepCounts(w: World, s: State, step: Step)
    requires Enabled(s, step)
    ensures var n := Next(w, s, step);
            || (step.HandleEvent? && |n.up| == |s.up| && |n.events| + 1 == |s.events|
                && Total(n.tasks) == Total(s.tasks) + 2 * |StopDependants(w, s.events[step.i])|)
            || (|n.up| + 1 == |s.up| && |n.events| == |s.events| + 1 && Total(n.tasks) < Total(s.tasks))
            || (|n.up| == |s.up| && |n.events| == |s.events| && Total(n.tasks) < Total(s.tasks))
  {
    var n := Next(w, s, step);
    if step.HandleEvent? {
      assert n.tasks[..|s.tasks|] == s.tasks;
    } else {
      TotalUpdate(s.tasks, step.t, n.tasks[step.t]);
      if step.Advance? && n.tasks[step.t].clearing.None? {
        assert n.up == s.up;
      } else if step.Advance? && n.tasks[step.t].clearing.value !in s.up {
        assert n.up == s.up;
      }
    }
  }

  lemma StepLowersWork(w: World, s: State, step: Step, d: nat)
    requires Enabled(s, step) && AtMostDependants(w, d)
    ensures Work(Next(w, s, step), d) < Work(s, d)
  {
    var n := Next(w, s, step);
    StepCounts(w, s, step);
    if step.HandleEvent? {
      assert |StopDependants(w, s.events[step.i])| <= d;
      WeighOneMore(|n.events|, 2 * d + 1);
    } else if |n.up| < |s.up| {
      WeighOneMore(|n.up|, 2 * d + 1);
      WeighOneMore(|s.events|, 2 * d + 1);
    }
  }

  lemma {:induction false} CascadeStopsExactly(w: World, up: set<Id>, marks: set<Id>, hub: Id, s: State,
                                               steps: seq<Step>, t: State, d: nat)
    requires Inv(w, up, marks, hub, s) && AtMostDependants(w, d) && IsRun(w, s, steps, t)
    ensures |steps| + Work(t, d) <= Work(s, d)
    ensures Quiet(t) ==> forall id :: id in t.up <==> id in up && !ToStop(w, up, marks, hub, id)
    decreases |steps|
  {
    if steps == [] {
      if Quiet(t) {
        QuietIsClosed(w, up, marks, hub, t);
      }
    } else {
      InvKept(w, up, marks, hub, s, steps[0]);
      StepLowersWork(w, s, steps[0], d);
      CascadeStopsExactly(w, up, marks, hub, Next(w, s, steps[0]), steps[1..], t, d);
    }
  }

  lemma QuietTasksAreDone(t: State)
    requires Quiet(t)
    ensures t.events == [] && forall i :: 0 <= i < |t.tasks| ==> t.tasks[i].rest == []
  {
    assert !Enabled(t, HandleEvent(0));
    forall i | 0 <= i < |t.tasks| ensures t.tasks[i].rest == [] {
      assert !Enabled(t, Advance(i)) && !Enabled(t, ClearMark(i));
    }
  }

  lemma QuietIsClosed(w: World, up: set<Id>, marks: set<Id>, hub: Id, t: State)
    requires Inv(w, up, marks, hub, t) && Quiet(t)
    ensures forall id :: id in t.up <==> id in up && !ToStop(w, up, marks, hub, id)
  {
    QuietTasksAreDone(t);
    var g, eligible := StopGraph(w), StopEligible(up, marks);
    var inside := id => id in up && id !in t.up;
    forall a, b | (a == hub || inside(a)) && g(a, b) && eligible(b) ensures inside(b) {
      assert Expanded(w, marks, t, a);
      assert Names(w, StopDependants(w, a), b);
    }
    forall id | ToStop(w, up, marks, hub, id) ensures id !in t.up {
      var path :| IsPath(g, eligible, hub, path, id);
      ClosedHoldsReachable(g, eligible, hub, path, id, inside);
    }
  }

  /**
   * A stop cascade on any dependants graph, cycles included, ends within the given number of
   * steps however its goroutines and events interleave; and when it has ended, the containers
   * it stopped are exactly those reachable through containers that were running and marked so.
   */
  lemma {:induction false} StopCascade(w: World, up: set<Id>, marks: set<Id>, hub: Id, s: State, steps: seq<Step>, t: State, d: nat)
    requires Init(w, up, marks, hub, s) && AtMostDependants(w, d) && IsRun(w, s, steps, t)
    ensures |steps| <= Work(s, d)
    ensures Quiet(t) ==> forall id :: id in t.up <==> id in up && !ToStop(w, up, marks, hub, id)
  {
    InitHolds(w, up, marks, hub, s);
    CascadeStopsExactly(w, up, marks, hub, s, steps, t, d);
  }

  /** A container no listener marks as running, such as a cron-only one, is never stopped by a cascade. */
  lemma UnmarkedIsNeverStopped(w: World, up: set<Id>, marks: set<Id>, hub: Id, s: State, steps: seq<Step>, t: State, d: nat, id: Id)
    requires Init(w, up, marks, hub, s) && AtMostDependants(w, d) && IsRun(w, s, steps, t) && Quiet(t)
    requires id in up && id !in marks
    ensures id in t.up
  {
    StopCascade(w, up, marks, hub, s, steps, t, d);
    ReachableIsEligible(StopGraph(w), StopEligible(up, marks), hub, id);
  }

  // ---- The same, as the least set ------------------------------------------------------------------

  /** Whatever the hub or a member lists as dependants, if it was up and marked running, is a member. */
  ghost predicate ClosedUnderStops(w: World, up: set<Id>, marks: set<Id>, hub: Id, members: set<Id>) {
    forall a, b :: (a == hub || a in members) && ListsDependant(w, a, b) && b in up && b in marks ==> b in members
  }

  lemma ReachedAreInClosed(w: World, up: set<Id>, marks: set<Id>, hub: Id, members: set<Id>, id: Id)
    requires ClosedUnderStops(w, up, marks, hub, members) && ToStop(w, up, marks, hub, id)
    ensures id in members
  {
    var inside := x => x in members;
    forall a, b | (a == hub || inside(a)) && StopGraph(w)(a, b) && StopEligible(up, marks)(b) ensures inside(b) {
      EdgesExactly(w, a, b);
    }
    var path :| IsPath(StopGraph(w), StopEligible(up, marks), hub, path, id);
    ClosedHoldsReachable(StopGraph(w), StopEligible(up, marks), hub, path, id, inside);
  }

  /** When a stop cascade has ended, what it stopped is the least set closed under those dependants of the hub and of its own members that were up and marked running. */
  lemma {:induction false} StopsLeastClosedSet(w: World, up: set<Id>, marks: set<Id>, hub: Id, s: State, steps: seq<Step>, t: State, members: set<Id>)
    requires Init(w, up, marks, hub, s) && IsRun(w, s, steps, t) && Quiet(t)
    ensures t.up <= up && up - t.up <= marks && ClosedUnderStops(w, up, marks, hub, up - t.up)
    ensures ClosedUnderStops(w, up, marks, hub, members) ==> up - t.up <= members
  {
    DependantsAreBounded(w);
    var d: nat :| AtMostDependants(w, d);
    StopCascade(w, up, marks, hub, s, steps, t, d);
    var stopped := up - t.up;
    forall id | id in stopped ensures id in marks && (ClosedUnderStops(w, up, marks, hub, members) ==> id in members) {
      ReachableIsEligible(StopGraph(w), StopEligible(up, marks), hub, id);
      if ClosedUnderStops(w, up, marks, hub, members) {
        ReachedAreInClosed(w, up, marks, hub, members, id);
      }
    }
    forall a, b | (a == hub || a in stopped) && ListsDependant(w, a, b) && b in up && b in marks ensures b in stopped {
      EdgesExactly(w, a, b);
      ReachesNext(StopGraph(w), StopEligible(up, marks), hub, a, b);
    }
  }

  /** A mark goes exactly when its container's die event is handled, or when the goroutine that stopped it returns from the backend. */
  lemma MarksGoExactly(w: World, s: State, step: Step, id: Id)
    requires Enabled(s, step)
    ensures id in Next(w, s, step).marks <==>
              && id in s.marks
              && !(step.HandleEvent? && s.events[step.i] == id)
              && !(step.ClearMark? && s.tasks[step.t].clearing == Some(id))
  {
  }

  /** Every container down since the cascade began is unmarked, or its mark is about to go. */
  ghost predicate MarksWillGo(up: set<Id>, s: State) {
    forall id :: id in up && id !in s.up ==> id !in s.marks || id in s.events
  }

  lemma MarksWillGoKept(w: World, up: set<Id>, s: State, step: Step)
    requires MarksWillGo(up, s) && Enabled(s, step)
    ensures MarksWillGo(up, Next(w, s, step))
  {
  }

  lemma {:induction false} MarksHaveGone(w: World, up: set<Id>, s: State, steps: seq<Step>, t: State, id: Id)
    requires MarksWillGo(up, s) && IsRun(w, s, steps, t) && Quiet(t)
    ensures id in up && id !in t.up ==> id !in t.marks
    decreases |steps|
  {
    if steps == [] {
      QuietTasksAreDone(t);
    } else {
      MarksWillGoKept(w, up, s, steps[0]);
      MarksHaveGone(w, up, Next(w, s, steps[0]), steps[1..], t, id);
    }
  }

  /** When a stop cascade has ended, nothing it stopped is still marked running. */
  lemma StoppedAreUnmarked(w: World, up: set<Id>, marks: set<Id>, hub: Id, s: State, steps: seq<Step>, t: State, id: Id)
    requires Init(w, up, marks, hub, s) && IsRun(w, s, steps, t) && Quiet(t)
    ensures id in up && id !in t.up ==> id !in t.marks
  {
    MarksHaveGone(w, up, s, steps, t, id);
  }
}
