/**
 * When exactly a container can be stopped twice without a start or an observation in between:
 * when the first stop leaves behind a listener that is still marked running.
 */
module RedundantStops {
  import opened Types
  import opened Inactivity
  import opened IdleRuns

  ghost predicate NoStart(steps: seq<Step>, id: Id) {
    forall k :: 0 <= k < |steps| ==> !StartsOrObserves(steps[k], id)
  }

  /** The steps lead from s to t without starting the container or observing it running. */
  ghost predicate Leads(s: State, steps: seq<Step>, t: State, id: Id) {
    Goes(s, steps, t) && NoStart(steps, id)
  }

  /** A stop call for the container can come without a start or an observation before it. */
  ghost predicate CanStop(s: State, id: Id) {
    exists steps, t, succeeds :: Leads(s, steps, t, id) && Enabled(t, StopCall(id, succeeds))
  }

  lemma LeadsNowhere(s: State, id: Id)
    ensures Leads(s, [], s, id)
  {
  }

  lemma LeadsStep(s: State, step: Step, rest: seq<Step>, t: State, id: Id)
    requires Enabled(s, step) && !StartsOrObserves(step, id) && Leads(Next(s, step), rest, t, id)
    ensures Leads(s, [step] + rest, t, id)
  {
    GoesStep(s, step, rest, t);
  }

  lemma LeadsOn(s: State, a: seq<Step>, t: State, b: seq<Step>, u: State, id: Id)
    requires Leads(s, a, t, id) && Leads(t, b, u, id)
    ensures Leads(s, a + b, u, id)
  {
    GoesAppend(s, a, t, b, u);
  }

  // ---- Forward: a clean stop stays clean ----------------------------------------------------

  lemma {:induction false} ColdStays(s: State, steps: seq<Step>, t: State, id: Id)
    requires WellFormed(s) && AllCold(s, id) && Leads(s, steps, t, id)
    ensures AllCold(t, id)
    decreases |steps|
  {
    if steps != [] {
      assert !StartsOrObserves(steps[0], id);
      WellFormedKept(s, steps[0]);
      ColdKept(s, steps[0], id);
      assert NoStart(steps[1..], id) by {
        assert forall k :: 0 <= k < |steps[1..]| ==> steps[1..][k] == steps[k + 1];
      }
      ColdStays(Next(s, steps[0]), steps[1..], t, id);
    }
  }

  // ---- Backward: what is left running can be stopped again --------------------------------------

  /** The calls still to be made fail one after the other. */
  lemma {:induction false} Drain(s: State, id: Id) returns (steps: seq<Step>)
    requires WellFormed(s) && s.checker.Stopping?
    ensures Leads(s, steps, s.(checker := s.checker.(calls := {})), id)
    decreases if s.checker.Stopping? then s.checker.calls else {}
  {
    if s.checker.calls == {} {
      steps := [];
      LeadsNowhere(s, id);
    } else {
      var other :| other in s.checker.calls;
      var next := Next(s, StopCall(other, false));
      var rest := Drain(next, id);
      steps := [StopCall(other, false)] + rest;
      LeadsStep(s, StopCall(other, false), rest, s.(checker := s.checker.(calls := {})), id);
    }
  }

  /** The registered on-demand listeners of the container that are not marked running. */
  function ColdRefs(s: State, id: Id): (refs: set<Ref>)
    ensures forall r :: r in refs <==> r in RefsOf(s, id) && Managed(s.heap[r]) && !s.heap[r].running
  {
    set r | r in RefsOf(s, id) && Managed(s.heap[r]) && !s.heap[r].running
  }

  /** A newer description of the container, stopped and on a schedule, that declares other ports. */
  function Rescheduled(info: TargetInfo, ports: seq<PortMapping>, udpPorts: seq<PortMapping>): TargetInfo {
    info.(running := false, ports := ports, udpPorts := udpPorts, config := info.config.(availability := CRON))
  }

  ghost predicate AllHot(s: State, id: Id) {
    forall r :: r in s.registered && r in s.heap && Managed(s.heap[r]) && s.heap[r].info.id == id ==> s.heap[r].running
  }

  /** The refs in a set can be declared, and nothing else that is registered. */
  lemma {:induction false} DeclareExactly(s: State, refs: set<Ref>, info: TargetInfo) returns (ports: seq<PortMapping>, udpPorts: seq<PortMapping>)
    requires WellFormed(s) && refs <= s.registered
    ensures forall r :: r in s.registered ==> (Declares(Rescheduled(info, ports, udpPorts), s.heap[r]) <==> r in refs)
    decreases refs
  {
    if refs == {} {
      ports, udpPorts := [], [];
    } else {
      var x :| x in refs;
      var l := s.heap[x];
      ports, udpPorts := DeclareExactly(s, refs - {x}, info);
      var before := Rescheduled(info, ports, udpPorts);
      var m := PortMapping(l.port, 0);
      if l.TcpListener? {
        ports := ports + [m];
      } else {
        udpPorts := udpPorts + [m];
      }
      forall r | r in s.registered ensures Declares(Rescheduled(info, ports, udpPorts), s.heap[r]) <==> r in refs {
        DeclaresOneMore(before, Rescheduled(info, ports, udpPorts), l, s.heap[r]);
        assert SamePort(l, s.heap[r]) <==> r == x;
      }
    }
  }

  lemma DeclaresOneMore(before: TargetInfo, after: TargetInfo, l: Listener, other: Listener)
    requires var m := PortMapping(l.port, 0);
             if l.TcpListener? then after.ports == before.ports + [m] && after.udpPorts == before.udpPorts
             else after.ports == before.ports && after.udpPorts == before.udpPorts + [m]
    ensures Declares(after, other) <==> Declares(before, other) || SamePort(l, other)
  {
    DeclaresLast(before.ports, l.port, other.port);
    DeclaresLast(before.udpPorts, l.port, other.port);
  }

  lemma DeclaresLast(ports: seq<PortMapping>, last: int, port: int)
    ensures DeclaresPort(ports + [PortMapping(last, 0)], port) <==> DeclaresPort(ports, port) || last == port
  {
    var more := ports + [PortMapping(last, 0)];
    assert more[|ports|].listenPort == last;
    assert forall i :: 0 <= i < |ports| ==> more[i] == ports[i];
    if DeclaresPort(ports, port) {
      var i :| 0 <= i < |ports| && ports[i].listenPort == port;
      assert more[i].listenPort == port;
    }
  }

  /** The container is registered again with a description that reaches only the listeners not marked running. */
  lemma Demote(s: State, r: Ref, id: Id) returns (step: Step)
    requires WellFormed(s) && Hot(s, r, id)
    ensures Enabled(s, step) && !StartsOrObserves(step, id)
    ensures Hot(Next(s, step), r, id) && AllHot(Next(s, step), id) && Next(s, step).checker == s.checker
  {
    var ports, udpPorts := DeclareExactly(s, ColdRefs(s, id), s.heap[r].info);
    var info := Rescheduled(s.heap[r].info, ports, udpPorts);
    assert Held(s, info) == ColdRefs(s, id);
    step := Register(info, map[]);
  }

  function Quieted(l: Listener): Listener {
    if l.TcpListener? then l.(conns := 0) else l.(flows := 0, pending := 0)
  }

  function QuietHeap(heap: map<Ref, Listener>, refs: set<Ref>): map<Ref, Listener> {
    map r | r in heap :: if r in refs then Quieted(heap[r]) else heap[r]
  }

  /** Connections and flows end. */
  lemma {:induction false} Calm(s: State, refs: set<Ref>, id: Id) returns (steps: seq<Step>)
    requires refs <= s.heap.Keys
    ensures Leads(s, steps, s.(heap := QuietHeap(s.heap, refs)), id)
    decreases refs
  {
    var t := s.(heap := QuietHeap(s.heap, refs));
    if refs == {} {
      assert QuietHeap(s.heap, refs) == s.heap;
      steps := [];
      LeadsNowhere(s, id);
    } else {
      var r :| r in refs;
      var step := Traffic(r, Quieted(s.heap[r]));
      var next := Next(s, step);
      var rest := Calm(next, refs - {r}, id);
      assert QuietHeap(next.heap, refs - {r}) == QuietHeap(s.heap, refs);
      steps := [step] + rest;
      LeadsStep(s, step, rest, t, id);
    }
  }

  /** Every registered on-demand listener of the container is running and has nothing open. */
  ghost predicate AllQuiet(s: State, id: Id) {
    forall r :: r in s.registered && r in s.heap && Managed(s.heap[r]) && s.heap[r].info.id == id
                ==> s.heap[r].running && Activity(s.heap[r]) == 0
  }

  lemma CalmIsQuiet(s: State, r: Ref, id: Id)
    requires WellFormed(s) && Hot(s, r, id) && AllHot(s, id)
    ensures var t := s.(heap := QuietHeap(s.heap, s.heap.Keys)); WellFormed(t) && Hot(t, r, id) && AllQuiet(t, id)
  {
  }

  /** Late enough for the listener to be idle. */
  function Late(l: Listener, globalTimeout: int): int {
    l.lastActive + EffectiveTimeout(l.info.config.idleTimeout, globalTimeout)
  }

  /** The container is flagged so far. */
  ghost predicate FlagUp(s: State, id: Id) {
    s.checker.Inspecting? && (id in s.checker.groups ==> s.checker.groups[id].allIdle)
  }

  lemma InspectLate(s: State, r: Ref, id: Id)
    requires WellFormed(s) && FlagUp(s, id) && AllQuiet(s, id) && r in s.checker.todo && s.checker.todo <= s.registered
    ensures var step := Inspect(r, Late(s.heap[r], s.globalTimeout)); var t := Next(s, step);
            && Enabled(s, step) && FlagUp(t, id) && t.heap == s.heap && t.registered == s.registered
            && t.checker.todo == s.checker.todo - {r}
            && (Hot(s, r, id) || id in s.checker.groups ==> id in t.checker.groups)
  {
  }

  lemma {:induction false} InspectAll(s: State, r: Ref, id: Id) returns (steps: seq<Step>, t: State)
    requires WellFormed(s) && FlagUp(s, id) && AllQuiet(s, id) && Hot(s, r, id) && s.checker.todo <= s.registered
    requires r in s.checker.todo || id in s.checker.groups
    ensures Leads(s, steps, t, id) && FlagUp(t, id) && t.checker.todo == {} && id in t.checker.groups
    decreases if s.checker.Inspecting? then s.checker.todo else {}
  {
    if s.checker.todo == {} {
      steps, t := [], s;
      LeadsNowhere(s, id);
    } else {
      var x :| x in s.checker.todo;
      InspectLate(s, x, id);
      var step := Inspect(x, Late(s.heap[x], s.globalTimeout));
      WellFormedKept(s, step);
      var rest;
      rest, t := InspectAll(Next(s, step), r, id);
      steps := [step] + rest;
      LeadsStep(s, step, rest, t, id);
    }
  }

  /** A check started now calls stop for the container. */
  lemma CheckFlags(s: State, r: Ref, id: Id)
    requires WellFormed(s) && s.checker.Resting? && Hot(s, r, id) && AllQuiet(s, id)
    ensures CanStop(s, id)
  {
    var s1 := Next(s, Snapshot);
    WellFormedKept(s, Snapshot);
    assert Hot(s1, r, id) && AllQuiet(s1, id);
    var steps, s2 := InspectAll(s1, r, id);
    var s3 := Next(s2, BeginStops);
    LeadsNowhere(s3, id);
    LeadsStep(s2, BeginStops, [], s3, id);
    LeadsOn(s1, steps, s2, [BeginStops] + [], s3, id);
    LeadsStep(s, Snapshot, steps + ([BeginStops] + []), s3, id);
    assert Enabled(s3, StopCall(id, true));
  }

  lemma CanStopAfter(s: State, steps: seq<Step>, t: State, id: Id)
    requires Leads(s, steps, t, id) && CanStop(t, id)
    ensures CanStop(s, id)
  {
    var more, u, succeeds :| Leads(t, more, u, id) && Enabled(u, StopCall(id, succeeds));
    LeadsOn(s, steps, t, more, u, id);
  }

  /** From a resting checker, one listener marked running is enough for a stop call to come. */
  lemma HotCanStop(s: State, r: Ref, id: Id)
    requires WellFormed(s) && s.checker.Resting? && Hot(s, r, id)
    ensures CanStop(s, id)
  {
    var step := Demote(s, r, id);
    var s1 := Next(s, step);
    WellFormedKept(s, step);
    CalmIsQuiet(s1, r, id);
    var s2 := s1.(heap := QuietHeap(s1.heap, s1.heap.Keys));
    var calm := Calm(s1, s1.heap.Keys, id);
    CheckFlags(s2, r, id);
    CanStopAfter(s1, calm, s2, id);
    LeadsNowhere(s1, id);
    LeadsStep(s, step, [], s1, id);
    CanStopAfter(s, [step] + [], s1, id);
  }

  lemma LeftHotCanStop(s: State, r: Ref, id: Id)
    requires WellFormed(s) && s.checker.Stopping? && Hot(s, r, id)
    ensures CanStop(s, id)
  {
    var steps := Drain(s, id);
    var s1 := s.(checker := s.checker.(calls := {}));
    var s2 := Next(s1, Finish);
    LeadsNowhere(s2, id);
    LeadsStep(s1, Finish, [], s2, id);
    HotCanStop(s2, r, id);
    CanStopAfter(s1, [Finish] + [], s2, id);
    CanStopAfter(s, steps, s1, id);
  }

  /**
   * After a successful stop a further stop call can come without a start or an observation in
   * between exactly when, at the call, some registered on-demand listener of the container that
   * is marked running is missing from the group being stopped.
   */
  lemma RedundantStopExactly(s: State, id: Id)
    requires WellFormed(s) && Enabled(s, StopCall(id, true))
    ensures CanStop(Next(s, StopCall(id, true)), id) <==> !AllInView(s, id)
  {
    var t := Next(s, StopCall(id, true));
    WellFormedKept(s, StopCall(id, true));
    if AllInView(s, id) {
      StopCools(s, id);
      forall steps, u, succeeds | Leads(t, steps, u, id) ensures !Enabled(u, StopCall(id, succeeds)) {
        ColdStays(t, steps, u, id);
      }
    } else {
      var r :| Hot(s, r, id) && r !in s.checker.groups[id].members;
      assert Hot(t, r, id);
      LeftHotCanStop(t, r, id);
    }
  }
}
