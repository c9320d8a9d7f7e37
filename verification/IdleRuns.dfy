/**
 * The idle checker among everything else that happens: its snapshot, its look at each
 * listener and its stop calls are separate steps, and traffic, registrations, removals,
 * starts and stops come in between.
 */
module IdleRuns {
  import opened Types
  import opened Inactivity

  type Ref = nat

  datatype Verdict = Verdict(allIdle: bool, members: set<Ref>)

  /** Resting between checks, looking at the listeners of the snapshot, or making stop calls. */
  datatype Checker =
    | Resting
    | Inspecting(todo: set<Ref>, groups: map<Id, Verdict>)
    | Stopping(calls: set<Id>, groups: map<Id, Verdict>)

  /** All listener objects ever created, those in the registry, and the checker. */
  datatype State = State(heap: map<Ref, Listener>, registered: set<Ref>, checker: Checker, globalTimeout: int)

  datatype Step =
    // environment
    | Traffic(ref: Ref, after: Listener)
    | Register(info: TargetInfo, added: map<Ref, Listener>)
    | Remove(id: Id)
    | Started(id: Id)
    | Stopped(id: Id)
    // checker
    | Snapshot
    | Inspect(ref: Ref, now: int)
    | BeginStops
    | StopCall(id: Id, succeeds: bool)
    | Finish

  predicate SamePort(a: Listener, b: Listener) {
    a.TcpListener? == b.TcpListener? && a.port == b.port
  }

  /** The target declares the listener's port, for its protocol. */
  predicate Declares(info: TargetInfo, l: Listener) {
    DeclaresPort(if l.TcpListener? then info.ports else info.udpPorts, l.port)
  }

  predicate DeclaresPort(ports: seq<PortMapping>, port: int) {
    exists i :: 0 <= i < |ports| && ports[i].listenPort == port
  }

  /** The registered listeners on ports that the target declares. */
  function Held(s: State, info: TargetInfo): (refs: set<Ref>)
    ensures forall r :: r in refs <==> r in s.registered && r in s.heap && Declares(info, s.heap[r])
  {
    set r | r in s.registered && r in s.heap && Declares(info, s.heap[r])
  }

  /** Only connection counts, flows and the last-activity time differ. */
  predicate OnlyTraffic(a: Listener, b: Listener) {
    SamePort(a, b) && a.info == b.info && a.removed == b.removed && a.running == b.running
  }

  /** A new listener: nothing open yet, and running as observed at registration. */
  predicate FreshFor(l: Listener, info: TargetInfo) {
    l.info == info && Declares(info, l) && !l.removed && l.running == info.running && Activity(l) == 0 && l.lastActive == 0
  }

  predicate Enabled(s: State, step: Step) {
    match step
    case Traffic(ref, after) => ref in s.heap && OnlyTraffic(s.heap[ref], after)
    case Register(info, added) =>
      && (forall r :: r in Held(s, info) ==> s.heap[r].info.id == info.id)
      && added.Keys !! s.heap.Keys
      && (forall r :: r in added ==> FreshFor(added[r], info) && forall q :: q in Held(s, info) ==> !SamePort(s.heap[q], added[r]))
      && (forall q, r :: q in added && r in added && q != r ==> !SamePort(added[q], added[r]))
    case Remove(_) | Started(_) | Stopped(_) => true
    case Snapshot => s.checker.Resting?
    case Inspect(ref, _) => s.checker.Inspecting? && ref in s.checker.todo && ref in s.heap
    case BeginStops => s.checker.Inspecting? && s.checker.todo == {}
    case StopCall(id, _) => s.checker.Stopping? && id in s.checker.calls && id in s.checker.groups
    case Finish => s.checker.Stopping? && s.checker.calls == {}
  }

  function SetRunning(heap: map<Ref, Listener>, refs: set<Ref>, running: bool): (h: map<Ref, Listener>)
    ensures h.Keys == heap.Keys
    ensures forall r :: r in heap ==> h[r] == if r in refs then heap[r].(running := running) else heap[r]
  {
    map r | r in heap :: if r in refs then heap[r].(running := running) else heap[r]
  }

  function RefsOf(s: State, id: Id): (refs: set<Ref>)
    ensures forall r :: r in refs <==> r in s.registered && r in s.heap && s.heap[r].info.id == id
  {
    set r | r in s.registered && r in s.heap && s.heap[r].info.id == id
  }

  function Look(groups: map<Id, Verdict>, ref: Ref, l: Listener, now: int, globalTimeout: int): map<Id, Verdict> {
    if !Managed(l) then groups
    else
      var g := if l.info.id in groups then groups[l.info.id] else Verdict(true, {});
      groups[l.info.id := Verdict(g.allIdle && Idle(l, now, globalTimeout), g.members + {ref})]
  }

  function Flagged(groups: map<Id, Verdict>): (ids: set<Id>)
    ensures forall id :: id in ids <==> id in groups && groups[id].allIdle
  {
    set id | id in groups && groups[id].allIdle
  }

  function Next(s: State, step: Step): State
    requires Enabled(s, step)
  {
    match step
    case Traffic(ref, after) => s.(heap := s.heap[ref := after])
    case Register(info, added) =>
      var heap := map r | r in s.heap :: if r in Held(s, info) then s.heap[r].(info := info, running := info.running, removed := false) else s.heap[r];
      s.(heap := heap + added, registered := s.registered + added.Keys)
    case Remove(id) =>
      s.(heap := map r | r in s.heap :: if r in RefsOf(s, id) then s.heap[r].(removed := true) else s.heap[r],
         registered := s.registered - RefsOf(s, id))
    case Started(id) => s.(heap := SetRunning(s.heap, RefsOf(s, id), true))
    case Stopped(id) => s.(heap := SetRunning(s.heap, RefsOf(s, id), false))
    case Snapshot => s.(checker := Inspecting(s.registered, map[]))
    case Inspect(ref, now) =>
      s.(checker := Inspecting(s.checker.todo - {ref}, Look(s.checker.groups, ref, s.heap[ref], now, s.globalTimeout)))
    case BeginStops =>
      s.(checker := Stopping(Flagged(s.checker.groups), s.checker.groups))
    case StopCall(id, succeeds) =>
      s.(heap := if succeeds then SetRunning(s.heap, s.checker.groups[id].members, false) else s.heap,
         checker := s.checker.(calls := s.checker.calls - {id}))
    case Finish => s.(checker := Resting)
  }

  /** No two registered listeners share a port. */
  ghost predicate PortsDiffer(s: State) {
    forall q, r :: q in s.registered && r in s.registered && q in s.heap && r in s.heap && q != r ==> !SamePort(s.heap[q], s.heap[r])
  }

  /** The registry and the removed flags agree, and the checker knows what it handles. */
  ghost predicate FlagsAgree(s: State) {
    && s.registered <= s.heap.Keys
    && (forall r :: r in s.heap ==> (s.heap[r].removed <==> r !in s.registered))
    && (s.checker.Inspecting? ==> s.checker.todo <= s.heap.Keys)
    && (s.checker.Stopping? ==> s.checker.calls <= s.checker.groups.Keys)
  }

  ghost predicate WellFormed(s: State) {
    FlagsAgree(s) && PortsDiffer(s)
  }

  lemma DeclaresSamePort(info: TargetInfo, a: Listener, b: Listener)
    requires SamePort(a, b)
    ensures Declares(info, a) <==> Declares(info, b)
  {
  }

  /** A registration adds listeners only on declared ports that nobody holds. */
  lemma RegisterKeepsPorts(s: State, info: TargetInfo, added: map<Ref, Listener>)
    requires WellFormed(s) && Enabled(s, Register(info, added))
    ensures PortsDiffer(Next(s, Register(info, added)))
  {
    var t := Next(s, Register(info, added));
    forall q, r | q in t.registered && r in t.registered && q != r ensures !SamePort(t.heap[q], t.heap[r]) {
      if SamePort(t.heap[q], t.heap[r]) {
        DeclaresSamePort(info, t.heap[q], t.heap[r]);
      }
      assert q !in added && r !in added ==> !SamePort(s.heap[q], s.heap[r]);
    }
  }

  lemma OtherStepsKeepPorts(s: State, step: Step)
    requires WellFormed(s) && Enabled(s, step) && !step.Register?
    ensures PortsDiffer(Next(s, step))
  {
    var t := Next(s, step);
    assert t.registered <= s.registered && forall r :: r in t.registered ==> SamePort(s.heap[r], t.heap[r]);
    forall q, r | q in t.registered && r in t.registered && q != r ensures !SamePort(t.heap[q], t.heap[r]) {
      assert !SamePort(s.heap[q], s.heap[r]);
    }
  }

  lemma FlagsKept(s: State, step: Step)
    requires FlagsAgree(s) && Enabled(s, step)
    ensures FlagsAgree(Next(s, step))
  {
  }

  lemma WellFormedKept(s: State, step: Step)
    requires WellFormed(s) && Enabled(s, step)
    ensures WellFormed(Next(s, step))
  {
    FlagsKept(s, step);
    if step.Register? {
      RegisterKeepsPorts(s, step.info, step.added);
    } else {
      OtherStepsKeepPorts(s, step);
    }
  }

  // ---- Runs -----------------------------------------------------------------------------

  /** states[k + 1] follows from states[k] by steps[k]. */
  ghost predicate IsRun(states: seq<State>, steps: seq<Step>) {
    && |states| == |steps| + 1
    && WellFormed(states[0])
    && forall k :: 0 <= k < |steps| ==> StepsTo(states, steps, k)
  }

  ghost predicate StepsTo(states: seq<State>, steps: seq<Step>, k: nat)
    requires k < |steps| && |states| == |steps| + 1
  {
    Enabled(states[k], steps[k]) && states[k + 1] == Next(states[k], steps[k])
  }

  lemma {:induction false} RunIsWellFormed(states: seq<State>, steps: seq<Step>, k: nat)
    requires IsRun(states, steps) && k < |states|
    ensures WellFormed(states[k])
  {
    if k > 0 {
      RunIsWellFormed(states, steps, k - 1);
      assert StepsTo(states, steps, k - 1);
      WellFormedKept(states[k - 1], steps[k - 1]);
    }
  }

  /** Which steps change whether a listener is marked running, and to what. */
  lemma RunningFlagFollows(s: State, step: Step, r: Ref)
    requires WellFormed(s) && Enabled(s, step) && r in s.heap
    ensures r in Next(s, step).heap
    ensures var l, after := s.heap[r], Next(s, step).heap[r];
            after.running ==
              if r in s.registered && (step.Started? || step.Stopped?) && l.info.id == step.id then step.Started?
              else if r in s.registered && step.Register? && DeclaresPort(if l.TcpListener? then step.info.ports else step.info.udpPorts, l.port)
              then step.info.running
              else if step.StopCall? && step.succeeds && r in s.checker.groups[step.id].members then false
              else l.running
  {
  }

  // ---- An open connection prevents the stop ---------------------------------------------------

  /** The listener is registered, belongs to the container, is on-demand and has something open. */
  ghost predicate BusyFor(s: State, r: Ref, id: Id) {
    r in s.registered && r in s.heap && Managed(s.heap[r]) && s.heap[r].info.id == id && Activity(s.heap[r]) > 0
  }

  /** The running check will not call stop for the container on account of this listener. */
  ghost predicate Blocked(s: State, r: Ref, id: Id) {
    match s.checker
    case Resting => true
    case Inspecting(todo, groups) => r in todo || (id in groups && !groups[id].allIdle)
    case Stopping(calls, _) => id !in calls
  }

  lemma BlockedKept(s: State, step: Step, r: Ref, id: Id)
    requires WellFormed(s) && Enabled(s, step) && BusyFor(s, r, id) && Blocked(s, r, id)
    ensures Blocked(Next(s, step), r, id)
  {
  }

  /**
   * A connection or flow that stays open on a still registered, still on-demand listener from
   * the check's snapshot (step i) to step j keeps that step from being a stop call for the container.
   */
  lemma {:induction false} OpenConnectionPreventsStop(states: seq<State>, steps: seq<Step>, i: nat, j: nat, r: Ref, id: Id)
    requires IsRun(states, steps) && i < j < |steps| && steps[i].Snapshot?
    requires forall k :: i <= k <= j ==> BusyFor(states[k], r, id)
    ensures Blocked(states[j], r, id)
    ensures !(steps[j].StopCall? && steps[j].id == id)
    decreases j
  {
    assert StepsTo(states, steps, j - 1) && StepsTo(states, steps, j);
    assert BusyFor(states[j - 1], r, id);
    RunIsWellFormed(states, steps, j - 1);
    if j > i + 1 {
      OpenConnectionPreventsStop(states, steps, i, j - 1, r, id);
      BlockedKept(states[j - 1], steps[j - 1], r, id);
    }
  }

  // ---- No redundant stops ----------------------------------------------------------------------

  /** The step starts the container, or registers it as observed running. */
  predicate StartsOrObserves(step: Step, id: Id) {
    || (step.Started? && step.id == id)
    || (step.Register? && step.info.id == id && step.info.running)
  }

  /** A registered on-demand listener of the container that is marked running. */
  ghost predicate Hot(s: State, r: Ref, id: Id) {
    r in s.registered && r in s.heap && Managed(s.heap[r]) && s.heap[r].info.id == id && s.heap[r].running
  }

  /** Every hot listener was in the running check's snapshot and belongs, or will belong, to its group. */
  ghost predicate AllInView(s: State, id: Id) {
    match s.checker
    case Resting => true
    case Inspecting(todo, groups) => forall r :: Hot(s, r, id) ==> r in todo || (id in groups && r in groups[id].members)
    case Stopping(_, groups) => forall r :: Hot(s, r, id) ==> id in groups && r in groups[id].members
  }

  /** Nothing of the container is marked running, and no check under way will stop it. */
  ghost predicate AllCold(s: State, id: Id) {
    && (forall r :: !Hot(s, r, id))
    && (s.checker.Inspecting? ==> id in s.checker.groups ==> !s.checker.groups[id].allIdle)
    && (s.checker.Stopping? ==> id !in s.checker.calls)
  }

  /** Only a start or an observation makes a listener hot. */
  lemma HotOnlyByStart(s: State, step: Step, r: Ref, id: Id)
    requires WellFormed(s) && Enabled(s, step) && !StartsOrObserves(step, id) && Hot(Next(s, step), r, id)
    ensures Hot(s, r, id)
  {
  }

  lemma InViewKept(s: State, step: Step, id: Id)
    requires WellFormed(s) && Enabled(s, step) && !StartsOrObserves(step, id) && AllInView(s, id)
    ensures AllInView(Next(s, step), id)
  {
    forall r | Hot(Next(s, step), r, id) ensures Hot(s, r, id) {
      HotOnlyByStart(s, step, r, id);
    }
  }

  lemma ColdKept(s: State, step: Step, id: Id)
    requires WellFormed(s) && Enabled(s, step) && !StartsOrObserves(step, id) && AllCold(s, id)
    ensures AllCold(Next(s, step), id)
  {
    forall r ensures !Hot(Next(s, step), r, id) {
      if Hot(Next(s, step), r, id) {
        HotOnlyByStart(s, step, r, id);
      }
    }
    if step.Inspect? {
      assert !Hot(s, step.ref, id);
    }
  }

  /** A successful stop of everything in view leaves nothing hot. */
  lemma StopCools(s: State, id: Id)
    requires WellFormed(s) && Enabled(s, StopCall(id, true)) && AllInView(s, id)
    ensures AllCold(Next(s, StopCall(id, true)), id)
  {
    var n := Next(s, StopCall(id, true));
    forall r ensures !Hot(n, r, id) {
      if Hot(n, r, id) {
        HotOnlyByStart(s, StopCall(id, true), r, id);
      }
    }
  }

  ghost predicate NoStartBetween(steps: seq<Step>, i: nat, j: nat, id: Id) {
    forall k :: i <= k < j && k < |steps| ==> !StartsOrObserves(steps[k], id)
  }

  lemma {:induction false} InViewUntil(states: seq<State>, steps: seq<Step>, i: nat, j: nat, id: Id)
    requires IsRun(states, steps) && i < j < |steps| && steps[i].Snapshot? && NoStartBetween(steps, i, j, id)
    ensures AllInView(states[j], id)
    decreases j
  {
    assert StepsTo(states, steps, j - 1);
    RunIsWellFormed(states, steps, j - 1);
    if j > i + 1 {
      InViewUntil(states, steps, i, j - 1, id);
      InViewKept(states[j - 1], steps[j - 1], id);
    }
  }

  lemma {:induction false} ColdUntil(states: seq<State>, steps: seq<Step>, i: nat, j: nat, id: Id)
    requires IsRun(states, steps) && i <= j < |states| && AllCold(states[i], id) && NoStartBetween(steps, i, j, id)
    ensures AllCold(states[j], id)
    decreases j
  {
    if j > i {
      assert StepsTo(states, steps, j - 1);
      RunIsWellFormed(states, steps, j - 1);
      ColdUntil(states, steps, i, j - 1, id);
      ColdKept(states[j - 1], steps[j - 1], id);
    }
  }

  /**
   * No redundant stops. If, when the container is stopped (step j), every listener of it that is
   * registered, on-demand and marked running belongs to the group being stopped, then before any
   * later stop call for it (step k) some step starts it or observes it running.
   */
  lemma NoRedundantStopBetween(states: seq<State>, steps: seq<Step>, j: nat, k: nat, id: Id, again: bool)
    requires IsRun(states, steps) && j < k < |steps|
    requires steps[j] == StopCall(id, true) && steps[k] == StopCall(id, again)
    requires AllInView(states[j], id)
    ensures exists m :: j < m < k && StartsOrObserves(steps[m], id)
  {
    if NoStartBetween(steps, j, k, id) {
      assert StepsTo(states, steps, j) && StepsTo(states, steps, k);
      RunIsWellFormed(states, steps, j);
      StopCools(states[j], id);
      ColdUntil(states, steps, j + 1, k, id);
      assert false;
    }
  }

  /** Whatever happened during the first check, something lies between its snapshot (step i) and the second stop. */
  lemma NoRedundantStop(states: seq<State>, steps: seq<Step>, i: nat, j: nat, k: nat, id: Id, again: bool)
    requires IsRun(states, steps) && i < j < k < |steps|
    requires steps[i].Snapshot? && steps[j] == StopCall(id, true) && steps[k] == StopCall(id, again)
    ensures exists m :: i < m < k && StartsOrObserves(steps[m], id)
  {
    if NoStartBetween(steps, i, k, id) {
      InViewUntil(states, steps, i, j, id);
      NoRedundantStopBetween(states, steps, j, k, id, again);
    }
  }

  // ---- Why the first check's own span matters --------------------------------------------------------

  /** A new listener on the target's first TCP port. */
  function NewListener(info: TargetInfo): Listener
    requires info.ports != []
  {
    TcpListener(info.ports[0].listenPort, info, false, info.running, 0, 0)
  }

  /** The steps can be taken one after the other from s and lead to t. */
  ghost predicate Goes(s: State, steps: seq<Step>, t: State)
    decreases |steps|
  {
    if steps == [] then s == t else Enabled(s, steps[0]) && Goes(Next(s, steps[0]), steps[1..], t)
  }

  lemma GoesStep(s: State, step: Step, rest: seq<Step>, t: State)
    requires Enabled(s, step) && Goes(Next(s, step), rest, t)
    ensures Goes(s, [step] + rest, t)
  {
    assert ([step] + rest)[1..] == rest;
  }

  lemma {:induction false} GoesAppend(s: State, a: seq<Step>, t: State, b: seq<Step>, u: State)
    requires Goes(s, a, t) && Goes(t, b, u)
    ensures Goes(s, a + b, u)
    decreases |a|
  {
    if a == [] {
      assert a + b == b;
    } else {
      GoesAppend(Next(s, a[0]), a[1..], t, b, u);
      assert (a + b)[1..] == a[1..] + b;
    }
  }

  /** One registered listener of the container, idle and marked running, and no check under way. */
  ghost predicate OneIdle(s: State, ref: Ref, info: TargetInfo) {
    && WellFormed(s) && s.checker.Resting? && s.registered == {ref} && info.ports != []
    && s.heap[ref] == NewListener(info) && info.running && EffectiveAvailability(info) == ON_DEMAND
  }

  /** A check that has decided to stop the container of the listener ref. */
  function Decided(ref: Ref, info: TargetInfo): Checker {
    Stopping({info.id}, map[info.id := Verdict(true, {ref})])
  }

  function Decide(ref: Ref, now: int): seq<Step> {
    [Snapshot] + ([Inspect(ref, now)] + ([BeginStops] + []))
  }

  lemma CheckDecides(s: State, ref: Ref, info: TargetInfo, now: int)
    requires OneIdle(s, ref, info) && now >= EffectiveTimeout(info.config.idleTimeout, s.globalTimeout)
    ensures Goes(s, Decide(ref, now), s.(checker := Decided(ref, info)))
  {
    var t := s.(checker := Decided(ref, info));
    var s1 := s.(checker := Inspecting({ref}, map[]));
    var groups := map[info.id := Verdict(true, {ref})];
    var s2 := s.(checker := Inspecting({}, groups));
    assert Idle(s.heap[ref], now, s.globalTimeout);
    assert {} + {ref} == {ref} && {ref} - {ref} == {};
    assert Look(map[], ref, s.heap[ref], now, s.globalTimeout) == groups;
    assert Next(s1, Inspect(ref, now)) == s2;
    assert Flagged(groups) == {info.id};
    GoesStep(s2, BeginStops, [], t);
    GoesStep(s1, Inspect(ref, now), [BeginStops] + [], t);
    GoesStep(s, Snapshot, [Inspect(ref, now)] + ([BeginStops] + []), t);
  }

  function ReRegister(new_: Ref, info: TargetInfo): seq<Step>
    requires info.ports != []
  {
    [Remove(info.id)] + ([Register(info, map[new_ := NewListener(info)])] + ([StopCall(info.id, true)] + ([Finish] + [])))
  }

  /** The container is removed and registered again, seen running, while a check is about to stop it. */
  lemma Replaced(s: State, ref: Ref, new_: Ref, info: TargetInfo) returns (t: State)
    requires OneIdle(s, ref, info) && new_ !in s.heap
    ensures var add := Register(info, map[new_ := NewListener(info)]); var decided := s.(checker := Decided(ref, info));
            Enabled(decided, Remove(info.id)) && Enabled(Next(decided, Remove(info.id)), add) && t == Next(Next(decided, Remove(info.id)), add)
    ensures WellFormed(t) && t.registered == {new_} && t.heap[new_] == NewListener(info)
    ensures t.checker == Decided(ref, info) && t.globalTimeout == s.globalTimeout
  {
    var add := Register(info, map[new_ := NewListener(info)]);
    var s3 := s.(checker := Decided(ref, info));
    assert RefsOf(s3, info.id) == {ref};
    var s4 := Next(s3, Remove(info.id));
    assert s4.registered == {} && s4.heap.Keys == s.heap.Keys;
    assert info.ports[0].listenPort == NewListener(info).port && Declares(info, NewListener(info));
    t := Next(s4, add);
    assert t.registered == {new_};
    WellFormedKept(s3, Remove(info.id));
    WellFormedKept(s4, add);
  }

  /** Between the check's decision and its stop call the container is removed and registered again, seen running. */
  lemma ReRegistered(s: State, ref: Ref, new_: Ref, info: TargetInfo) returns (t: State)
    requires OneIdle(s, ref, info) && new_ !in s.heap
    ensures Goes(s.(checker := Decided(ref, info)), ReRegister(new_, info), t)
    ensures OneIdle(t, new_, info) && t.globalTimeout == s.globalTimeout
  {
    var add := Register(info, map[new_ := NewListener(info)]);
    var s3 := s.(checker := Decided(ref, info));
    var s4 := Next(s3, Remove(info.id));
    var s5 := Replaced(s, ref, new_, info);
    var s6 := Next(s5, StopCall(info.id, true));
    WellFormedKept(s5, StopCall(info.id, true));
    assert new_ != ref && s6.heap[new_] == s5.heap[new_];
    assert s6.checker.calls == {};
    t := Next(s6, Finish);
    GoesStep(s6, Finish, [], t);
    GoesStep(s5, StopCall(info.id, true), [Finish] + [], t);
    GoesStep(s4, add, [StopCall(info.id, true)] + ([Finish] + []), t);
    GoesStep(s3, Remove(info.id), [add] + ([StopCall(info.id, true)] + ([Finish] + [])), t);
  }

  /** The steps of the witness, from a state with one idle listener. */
  function Witness(ref: Ref, new_: Ref, info: TargetInfo, now: int): seq<Step>
    requires info.ports != []
  {
    Decide(ref, now) + (ReRegister(new_, info) + (Decide(new_, now) + [StopCall(info.id, true)]))
  }

  function Run(s: State, steps: seq<Step>): (states: seq<State>)
    ensures |states| == |steps| + 1 && states[0] == s
    decreases |steps|
  {
    if steps == [] then [s]
    else [s] + Run(if Enabled(s, steps[0]) then Next(s, steps[0]) else s, steps[1..])
  }

  lemma {:induction false} GoesIsRun(s: State, steps: seq<Step>, t: State)
    requires WellFormed(s) && Goes(s, steps, t)
    ensures IsRun(Run(s, steps), steps)
    decreases |steps|
  {
    if steps != [] {
      var n := Next(s, steps[0]);
      WellFormedKept(s, steps[0]);
      GoesIsRun(n, steps[1..], t);
      var states, rest := Run(s, steps), Run(n, steps[1..]);
      assert states == [s] + rest;
      forall k | 0 <= k < |steps| ensures StepsTo(states, steps, k) {
        if k > 0 {
          assert StepsTo(rest, steps[1..], k - 1);
          assert steps[1..][k - 1] == steps[k] && rest[k - 1] == states[k] && rest[k] == states[k + 1];
        } else {
          assert states[1] == rest[0] == n;
        }
      }
    }
  }

  /**
   * Between the two stop calls themselves nothing need have happened: the container is stopped
   * twice although neither start nor observation lies between, because it was registered again
   * while the first check was already under way.
   */
  lemma RedundantStopExists(s: State, ref: Ref, new_: Ref, info: TargetInfo, now: int)
    requires OneIdle(s, ref, info) && new_ !in s.heap && now >= EffectiveTimeout(info.config.idleTimeout, s.globalTimeout)
    ensures var steps := Witness(ref, new_, info, now);
            && |steps| == 11 && IsRun(Run(s, steps), steps)
            && steps[5] == StopCall(info.id, true) && steps[10] == StopCall(info.id, true)
            && NoStartBetween(steps, 6, 10, info.id)
  {
    var u := WitnessGoes(s, ref, new_, info, now);
    GoesIsRun(s, Witness(ref, new_, info, now), u);
    WitnessShape(ref, new_, info, now);
  }

  lemma GoesThrough(s: State, a: seq<Step>, s1: State, b: seq<Step>, s2: State, c: seq<Step>, s3: State)
    requires Goes(s, a, s1) && Goes(s1, b, s2) && Goes(s2, c, s3)
    ensures Goes(s, a + (b + c), s3)
  {
    GoesAppend(s1, b, s2, c, s3);
    GoesAppend(s, a, s1, b + c, s3);
  }

  /** A check's decision followed by its stop call. */
  lemma CheckStops(s: State, ref: Ref, info: TargetInfo, now: int) returns (t: State)
    requires OneIdle(s, ref, info) && now >= EffectiveTimeout(info.config.idleTimeout, s.globalTimeout)
    ensures Goes(s, Decide(ref, now) + [StopCall(info.id, true)], t)
  {
    CheckDecides(s, ref, info, now);
    var decided := s.(checker := Decided(ref, info));
    var last := StopCall(info.id, true);
    t := Next(decided, last);
    GoesStep(decided, last, [], t);
    assert [last] + [] == [last];
    GoesAppend(s, Decide(ref, now), decided, [last], t);
  }

  lemma WitnessGoes(s: State, ref: Ref, new_: Ref, info: TargetInfo, now: int) returns (u: State)
    requires OneIdle(s, ref, info) && new_ !in s.heap && now >= EffectiveTimeout(info.config.idleTimeout, s.globalTimeout)
    ensures Goes(s, Witness(ref, new_, info, now), u)
  {
    CheckDecides(s, ref, info, now);
    var t := ReRegistered(s, ref, new_, info);
    u := CheckStops(t, new_, info, now);
    GoesThrough(s, Decide(ref, now), s.(checker := Decided(ref, info)), ReRegister(new_, info), t,
                Decide(new_, now) + [StopCall(info.id, true)], u);
  }

  lemma WitnessShape(ref: Ref, new_: Ref, info: TargetInfo, now: int)
    requires info.ports != []
    ensures var steps := Witness(ref, new_, info, now);
            && |steps| == 11
            && steps[5] == StopCall(info.id, true) && steps[10] == StopCall(info.id, true)
            && NoStartBetween(steps, 6, 10, info.id)
  {
    var steps := Witness(ref, new_, info, now);
    assert steps[6] == Finish && steps[7] == Snapshot && steps[8] == Inspect(new_, now) && steps[9] == BeginStops;
  }
}
