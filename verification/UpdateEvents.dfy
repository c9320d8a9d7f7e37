/**
 * Updates among other activity: between the removals and registrations of an update, each of
 * which takes the lock on its own, containers start, stop and disappear and traffic flows.
 */
module UpdateEvents {
  import opened Types
  import opened Registry
  import opened RegistryUpdate
  import opened Lifecycle

  datatype Act =
    | Operation(op: Op)
    | ContainerEvent(id: string, event: Event)
    | Traffic(protocol: Protocol, port: int, activity: nat, lastActive: int)

  function Touch(t: Table, port: int, activity: nat, lastActive: int): Table {
    if port in t then t[port := t[port].(activity := activity, lastActive := lastActive)] else t
  }

  function Perform(r: Registry, act: Act): Registry {
    match act
    case Operation(op) => Apply(r, op)
    case ContainerEvent(id, event) => Handle(r, id, event)
    case Traffic(protocol, port, activity, lastActive) =>
      if protocol.Tcp? then r.(tcp := Touch(r.tcp, port, activity, lastActive))
      else r.(udp := Touch(r.udp, port, activity, lastActive))
  }

  /** Traffic changes the counts and the time of its own listener only. */
  lemma TrafficSetsItsListener(r: Registry, protocol: Protocol, port: int, activity: nat, lastActive: int, p: int)
    ensures var s := Perform(r, Traffic(protocol, port, activity, lastActive));
            && s.tcp.Keys == r.tcp.Keys && s.udp.Keys == r.udp.Keys && s.names == r.names && s.cronOnly == r.cronOnly
            && (p in r.tcp ==> s.tcp[p] == if protocol.Tcp? && p == port then r.tcp[p].(activity := activity, lastActive := lastActive)
                                           else r.tcp[p])
            && (p in r.udp ==> s.udp[p] == if protocol.Udp? && p == port then r.udp[p].(activity := activity, lastActive := lastActive)
                                           else r.udp[p])
  {
  }

  function PerformAll(r: Registry, acts: seq<Act>): Registry {
    if acts == [] then r else Perform(PerformAll(r, acts[..|acts| - 1]), acts[|acts| - 1])
  }

  /** The registrations and removals among the acts. */
  function Operations(acts: seq<Act>): seq<Op> {
    if acts == [] then []
    else
      var front, last := Operations(acts[..|acts| - 1]), acts[|acts| - 1];
      if last.Operation? then front + [last.op] else front
  }

  // ---- What other activity leaves alone ----------------------------------------------------------

  /** Same ports, with the same infos and target ports. */
  ghost predicate AlikeTables(t: Table, u: Table) {
    && (forall p :: p in t <==> p in u)
    && (forall p :: p in t ==> t[p].info == u[p].info && t[p].targetPort == u[p].targetPort)
  }

  ghost predicate AlikeCron(a: map<string, CronState>, b: map<string, CronState>) {
    && (forall id :: id in a <==> id in b)
    && (forall id :: id in a ==> a[id].info.(missing := false) == b[id].info.(missing := false))
  }

  /** The registries differ at most in running and missing flags, activity and last-activity times. */
  ghost predicate Alike(r: Registry, s: Registry) {
    AlikeTables(r.tcp, s.tcp) && AlikeTables(r.udp, s.udp) && AlikeCron(r.cronOnly, s.cronOnly) && r.names == s.names
  }

  lemma {:induction false} RegisterPortsAlike(t: Table, u: Table, ports: seq<PortMapping>, info: TargetInfo, canListen: set<int>)
    requires AlikeTables(t, u)
    ensures AlikeTables(RegisterPorts(t, ports, info, canListen), RegisterPorts(u, ports, info, canListen))
  {
    if ports != [] {
      RegisterPortsAlike(t, u, ports[..|ports| - 1], info, canListen);
    }
  }

  lemma RegisterAlike(r: Registry, s: Registry, info: TargetInfo, env: Listens)
    requires Alike(r, s)
    ensures Alike(Register(r, info, env), Register(s, info, env))
  {
    assert Conflicts(r, info) == Conflicts(s, info);
    RegisterPortsAlike(r.tcp, s.tcp, info.ports, info, env.tcp);
    RegisterPortsAlike(r.udp, s.udp, info.udpPorts, info, env.udp);
  }

  lemma NamesOwnedAlike(t: Table, u: Table, id: string)
    requires AlikeTables(t, u)
    ensures NamesOwned(t, id) == NamesOwned(u, id)
  {
    forall n | n in NamesOwned(t, id) ensures n in NamesOwned(u, id) {
      var p :| p in t && t[p].info.id == id && t[p].info.name == n;
      assert p in u && u[p].info == t[p].info;
    }
    forall n | n in NamesOwned(u, id) ensures n in NamesOwned(t, id) {
      var p :| p in u && u[p].info.id == id && u[p].info.name == n;
      assert p in t && t[p].info == u[p].info;
    }
  }

  lemma RemoveAlike(r: Registry, s: Registry, id: string)
    requires Alike(r, s)
    ensures Alike(Remove(r, id), Remove(s, id))
  {
    NamesOwnedAlike(r.tcp, s.tcp, id);
    NamesOwnedAlike(r.udp, s.udp, id);
    if id in r.cronOnly {
      assert r.cronOnly[id].info.(missing := false).name == s.cronOnly[id].info.(missing := false).name;
    }
    assert CronName(r, id) == CronName(s, id);
  }

  lemma EventIsAlike(r: Registry, id: string, event: Event)
    ensures Alike(Handle(r, id, event), r)
  {
    assert AlikeTables(ObserveTable(r.tcp, id, event), r.tcp);
    assert AlikeTables(ObserveTable(r.udp, id, event), r.udp);
    assert AlikeCron(ObserveCron(r.cronOnly, id, event), r.cronOnly);
  }

  lemma OtherActivityIsAlike(r: Registry, act: Act)
    requires !act.Operation?
    ensures Alike(Perform(r, act), r)
  {
    match act
    case ContainerEvent(id, event) => EventIsAlike(r, id, event);
    case Traffic(protocol, port, activity, lastActive) =>
      assert AlikeTables(Touch(r.tcp, port, activity, lastActive), r.tcp);
      assert AlikeTables(Touch(r.udp, port, activity, lastActive), r.udp);
  }

  lemma AlikeIsTransitive(r: Registry, s: Registry, t: Registry)
    requires Alike(r, s) && Alike(s, t)
    ensures Alike(r, t)
  {
    forall id | id in r.cronOnly ensures r.cronOnly[id].info.(missing := false) == t.cronOnly[id].info.(missing := false) {
      assert r.cronOnly[id].info.(missing := false) == s.cronOnly[id].info.(missing := false);
    }
  }

  /** Container events and traffic anywhere among registrations and removals change nothing but flags and activity. */
  lemma {:induction false} ActivityCommutes(r: Registry, acts: seq<Act>)
    ensures Alike(PerformAll(r, acts), Run(r, Operations(acts)))
  {
    if acts != [] {
      var front, last := acts[..|acts| - 1], acts[|acts| - 1];
      var s, t := PerformAll(r, front), Run(r, Operations(front));
      ActivityCommutes(r, front);
      match last
      case Operation(op) =>
        assert Operations(acts)[..|Operations(front)|] == Operations(front);
        OperationAlike(s, t, op);
      case _ =>
        OtherActivityIsAlike(s, last);
        AlikeIsTransitive(Perform(s, last), s, t);
    }
  }

  lemma OperationAlike(s: Registry, t: Registry, op: Op)
    requires Alike(s, t)
    ensures Alike(Apply(s, op), Apply(t, op))
  {
    match op
    case RegisterOp(info, env) => RegisterAlike(s, t, info, env);
    case RemoveOp(id) => RemoveAlike(s, t, id);
  }

  // ---- An update is a run of operations -------------------------------------------------------------

  function StaleOps(new_: Targets, order: seq<string>): seq<Op> {
    if order == [] then []
    else StaleOps(new_, order[..|order| - 1]) + (if order[|order| - 1] in new_ then [] else [RemoveOp(order[|order| - 1])])
  }

  function ReconcileOp(cur: Targets, new_: Targets, id: string, env: Listens): seq<Op>
    requires id in new_
  {
    if id !in cur then [RegisterOp(new_[id], env)]
    else if !InfoEqual(cur[id], new_[id]) then [RemoveOp(id), RegisterOp(new_[id], env)]
    else []
  }

  function ReconcileOps(cur: Targets, new_: Targets, order: seq<string>, env: Listens): seq<Op>
    requires forall i :: 0 <= i < |order| ==> order[i] in new_
  {
    if order == [] then []
    else ReconcileOps(cur, new_, order[..|order| - 1], env) + ReconcileOp(cur, new_, order[|order| - 1], env)
  }

  function UpdateOps(cur: Targets, new_: Targets, removals: seq<string>, registrations: seq<string>, env: Listens): seq<Op>
    requires Keys(registrations) == new_.Keys
  {
    assert forall i :: 0 <= i < |registrations| ==> registrations[i] in Keys(registrations);
    StaleOps(new_, removals) + ReconcileOps(cur, new_, registrations, env)
  }

  lemma {:induction false} RunConcat(r: Registry, a: seq<Op>, b: seq<Op>)
    ensures Run(r, a + b) == Run(Run(r, a), b)
    decreases |b|
  {
    if b == [] {
      assert a + b == a;
    } else {
      assert (a + b)[..|a + b| - 1] == a + b[..|b| - 1];
      RunConcat(r, a, b[..|b| - 1]);
    }
  }

  lemma RunOne(r: Registry, op: Op)
    ensures Run(r, [op]) == Apply(r, op)
  {
    assert [op][..0] == [];
  }

  lemma {:induction false} StaleIsRun(r: Registry, new_: Targets, order: seq<string>)
    ensures Run(r, StaleOps(new_, order)) == RemoveStale(r, new_, order)
  {
    if order != [] {
      var front, id := order[..|order| - 1], order[|order| - 1];
      StaleIsRun(r, new_, front);
      if id in new_ {
        assert StaleOps(new_, order) == StaleOps(new_, front);
      } else {
        RunConcat(r, StaleOps(new_, front), [RemoveOp(id)]);
        RunOne(RemoveStale(r, new_, front), RemoveOp(id));
      }
    }
  }

  lemma ReconcileOneIsRun(s: Registry, cur: Targets, new_: Targets, id: string, env: Listens)
    requires id in new_
    ensures Run(s, ReconcileOp(cur, new_, id, env)) == Reconcile(s, cur, new_, id, env)
  {
    var register := RegisterOp(new_[id], env);
    RunOne(s, register);
    if Changed(cur, new_, id) && id in cur {
      RunOne(s, RemoveOp(id));
      RunOne(Remove(s, id), register);
      RunConcat(s, [RemoveOp(id)], [register]);
      assert [RemoveOp(id)] + [register] == [RemoveOp(id), register];
    }
  }

  lemma {:induction false} ReconcileIsRun(s: Registry, cur: Targets, new_: Targets, order: seq<string>, env: Listens)
    requires forall i :: 0 <= i < |order| ==> order[i] in new_
    ensures Run(s, ReconcileOps(cur, new_, order, env)) == ReconcileAll(s, cur, new_, order, env)
  {
    if order != [] {
      var front, id := order[..|order| - 1], order[|order| - 1];
      ReconcileIsRun(s, cur, new_, front, env);
      RunConcat(s, ReconcileOps(cur, new_, front, env), ReconcileOp(cur, new_, id, env));
      ReconcileOneIsRun(ReconcileAll(s, cur, new_, front, env), cur, new_, id, env);
    }
  }

  lemma UpdateIsRun(r: Registry, cur: Targets, new_: Targets, removals: seq<string>, registrations: seq<string>, env: Listens)
    requires Keys(registrations) == new_.Keys
    ensures Run(r, UpdateOps(cur, new_, removals, registrations, env)) == UpdateIn(r, cur, new_, removals, registrations, env)
  {
    assert forall i :: 0 <= i < |registrations| ==> registrations[i] in Keys(registrations);
    StaleIsRun(r, new_, removals);
    RunConcat(r, StaleOps(new_, removals), ReconcileOps(cur, new_, registrations, env));
    ReconcileIsRun(RemoveStale(r, new_, removals), cur, new_, registrations, env);
  }

  /**
   * An update interleaved in any way with container events and traffic ends, but for flags and
   * activity, where the undisturbed update ends.
   */
  lemma UpdateAmongEvents(r: Registry, cur: Targets, new_: Targets, removals: seq<string>, registrations: seq<string>,
                          env: Listens, acts: seq<Act>)
    requires Keys(registrations) == new_.Keys && Operations(acts) == UpdateOps(cur, new_, removals, registrations, env)
    ensures Alike(PerformAll(r, acts), UpdateIn(r, cur, new_, removals, registrations, env))
  {
    ActivityCommutes(r, acts);
    UpdateIsRun(r, cur, new_, removals, registrations, env);
  }
}
