/**
 * Reconciliation of the registry with a new list of targets. A plan says, for each
 * container, whether its listeners are kept as they were or placed afresh; a registry that
 * follows a plan is determined by it, whatever the order in which maps were walked.
 */
module RegistryUpdate {
  import opened Types
  import opened Registry

  type Targets = map<string, TargetInfo>

  /** What a container's listeners should be: its old ones, or new ones for the given info. */
  datatype Plan = Keep(info: TargetInfo) | Place(info: TargetInfo)

  type Plans = map<string, Plan>

  datatype Protocol = Tcp | Udp

  function PortsOf(info: TargetInfo, protocol: Protocol): seq<PortMapping> {
    if protocol.Tcp? then info.ports else info.udpPorts
  }

  /** Identical proxy configuration; name, networks and running state do not count. */
  predicate InfoEqual(a: TargetInfo, b: TargetInfo) {
    a.ports == b.ports && a.udpPorts == b.udpPorts && a.config == b.config
  }

  // ---- Registries that follow a plan --------------------------------------------------------

  /** The target port of the last mapping for p. */
  function TargetOf(ports: seq<PortMapping>, p: int): int {
    if ports == [] then 0
    else if ports[|ports| - 1].listenPort == p then ports[|ports| - 1].targetPort
    else TargetOf(ports[..|ports| - 1], p)
  }

  /** A kept entry is the old one, activity included; a placed one is fresh. */
  ghost predicate EntryFits(before: Table, plan: Plan, protocol: Protocol, p: int, e: Mapping) {
    && p in Declared(PortsOf(plan.info, protocol))
    && e.info == plan.info
    && e.targetPort == TargetOf(PortsOf(plan.info, protocol), p)
    && (plan.Keep? ==> p in before && e == before[p])
    && (plan.Place? ==> e == Fresh(plan.info, TargetOf(PortsOf(plan.info, protocol), p)))
  }

  ghost predicate TableFits(before: Table, plans: Plans, protocol: Protocol, t: Table) {
    && (forall p :: p in t ==> t[p].info.id in plans && EntryFits(before, plans[t[p].info.id], protocol, p, t[p]))
    && (forall id, p :: id in plans && p in Declared(PortsOf(plans[id].info, protocol)) ==> p in t && t[p].info.id == id)
  }

  ghost predicate CronFits(before: map<string, CronState>, plans: Plans, cron: map<string, CronState>) {
    && (forall id :: id in cron ==>
          && id in plans && Portless(plans[id].info) && cron[id].info == plans[id].info
          && (plans[id].Keep? ==> id in before && cron[id] == before[id])
          && (plans[id].Place? ==> cron[id] == CronState(plans[id].info, plans[id].info.running)))
    && (forall id :: id in plans && Portless(plans[id].info) ==> id in cron)
  }

  ghost predicate WellPlanned(plans: Plans) {
    forall id :: id in plans ==> plans[id].info.id == id
  }

  /** The listeners and port-less entries of s are those of exactly the planned containers: kept ones as in r, the others fresh. */
  ghost predicate Follows(r: Registry, plans: Plans, s: Registry) {
    && WellPlanned(plans)
    && TableFits(r.tcp, plans, Tcp, s.tcp)
    && TableFits(r.udp, plans, Udp, s.udp)
    && CronFits(r.cronOnly, plans, s.cronOnly)
  }

  function KeepAll(cur: Targets): Plans {
    map id | id in cur :: Keep(cur[id])
  }

  /** r holds exactly the targets cur: one listener per declared port, one port-less entry per target without ports. */
  ghost predicate Consistent(r: Registry, cur: Targets) {
    Follows(r, KeepAll(cur), r)
  }

  lemma TableIsUnique(before: Table, plans: Plans, protocol: Protocol, t: Table, u: Table)
    requires TableFits(before, plans, protocol, t) && TableFits(before, plans, protocol, u)
    ensures t == u
  {
    forall p | p in t ensures p in u && u[p] == t[p] {
      assert EntryFits(before, plans[t[p].info.id], protocol, p, t[p]);
      assert EntryFits(before, plans[u[p].info.id], protocol, p, u[p]);
    }
    forall p | p in u ensures p in t {
      assert EntryFits(before, plans[u[p].info.id], protocol, p, u[p]);
    }
  }

  /** The listeners and port-less entries agree. */
  predicate SameEntries(s: Registry, t: Registry) {
    s.tcp == t.tcp && s.udp == t.udp && s.cronOnly == t.cronOnly
  }

  /** A plan determines all entries. */
  lemma FollowsIsUnique(r: Registry, plans: Plans, s: Registry, t: Registry)
    requires Follows(r, plans, s) && Follows(r, plans, t)
    ensures SameEntries(s, t)
  {
    TableIsUnique(r.tcp, plans, Tcp, s.tcp, t.tcp);
    TableIsUnique(r.udp, plans, Udp, s.udp, t.udp);
    assert s.cronOnly == t.cronOnly;
  }

  lemma TableInfos(before: Table, t: Table, cur: Targets, protocol: Protocol)
    requires TableFits(before, KeepAll(cur), protocol, t)
    ensures forall p :: p in t ==> t[p].info.id in cur && t[p].info == cur[t[p].info.id]
    ensures forall id :: id in cur && PortsOf(cur[id], protocol) != [] ==> exists p :: p in t && t[p].info.id == id
  {
    assert forall p :: p in t ==> EntryFits(before, KeepAll(cur)[t[p].info.id], protocol, p, t[p]);
    forall id | id in cur && PortsOf(cur[id], protocol) != [] ensures exists p :: p in t && t[p].info.id == id {
      var p := PortsOf(cur[id], protocol)[0].listenPort;
      assert id in KeepAll(cur) && p in Declared(PortsOf(KeepAll(cur)[id].info, protocol));
      assert p in t && t[p].info.id == id;
    }
  }

  // ---- Removing and placing one container ----------------------------------------------------

  lemma TableWithout(before: Table, plans: Plans, protocol: Protocol, t: Table, id: string)
    requires TableFits(before, plans, protocol, t)
    ensures TableFits(before, plans - {id}, protocol, WithoutOwner(t, id))
  {
    assert forall p :: p in t && t[p].info.id == id ==> EntryFits(before, plans[id], protocol, p, t[p]);
  }

  lemma NamesOwnedByPlan(before: Table, plans: Plans, protocol: Protocol, t: Table, id: string)
    requires TableFits(before, plans, protocol, t)
    ensures NamesOwned(t, id) == if id in plans && PortsOf(plans[id].info, protocol) != [] then {plans[id].info.name} else {}
  {
    assert forall p :: p in t && t[p].info.id == id ==> EntryFits(before, plans[id], protocol, p, t[p]);
    if id in plans && PortsOf(plans[id].info, protocol) != [] {
      var p := PortsOf(plans[id].info, protocol)[0].listenPort;
      assert p in Declared(PortsOf(plans[id].info, protocol));
      assert t[p].info.name in NamesOwned(t, id);
    }
  }

  lemma CronWithout(before: map<string, CronState>, plans: Plans, cron: map<string, CronState>, id: string)
    requires CronFits(before, plans, cron)
    ensures CronFits(before, plans - {id}, cron - {id})
  {
  }

  lemma {:induction false} RemoveFollows(r: Registry, plans: Plans, s: Registry, id: string)
    requires Follows(r, plans, s)
    ensures Follows(r, plans - {id}, Remove(s, id))
  {
    TableWithout(r.tcp, plans, Tcp, s.tcp, id);
    TableWithout(r.udp, plans, Udp, s.udp, id);
    CronWithout(r.cronOnly, plans, s.cronOnly, id);
  }

  /** Of the names, removing a container gives up exactly its own. */
  lemma {:induction false} RemovedName(r: Registry, plans: Plans, s: Registry, id: string)
    requires Follows(r, plans, s)
    ensures Remove(s, id).names == s.names - (if id in plans then {plans[id].info.name} else {})
  {
    NamesOwnedByPlan(r.tcp, plans, Tcp, s.tcp, id);
    NamesOwnedByPlan(r.udp, plans, Udp, s.udp, id);
    var gone := NamesOwned(s.tcp, id) + NamesOwned(s.udp, id) + CronName(s, id);
    assert gone == if id in plans then {plans[id].info.name} else {};
  }

  /** On free, listenable ports a registration adds exactly the declared ports. */
  lemma {:induction false} PlacePorts(t: Table, ports: seq<PortMapping>, info: TargetInfo, canListen: set<int>)
    requires forall p :: p in Declared(ports) ==> p !in t && p in canListen
    ensures var u := RegisterPorts(t, ports, info, canListen);
            && (forall p :: p in u <==> p in t || p in Declared(ports))
            && (forall p :: p in t ==> u[p] == t[p])
            && (forall p :: p in Declared(ports) ==> u[p] == Fresh(info, TargetOf(ports, p)))
  {
    if ports != [] {
      DeclaredLast(ports);
      PlacePorts(t, ports[..|ports| - 1], info, canListen);
    }
  }

  ghost predicate PortsFree(t: Table, ports: seq<PortMapping>) {
    forall p :: p in Declared(ports) ==> p !in t
  }

  /** No port of the new target is taken. */
  ghost predicate Free(s: Registry, info: TargetInfo) {
    PortsFree(s.tcp, info.ports) && PortsFree(s.udp, info.udpPorts)
  }

  ghost predicate CanListenOn(env: Listens, info: TargetInfo) {
    Declared(info.ports) <= env.tcp && Declared(info.udpPorts) <= env.udp
  }

  lemma TableWith(before: Table, plans: Plans, protocol: Protocol, t: Table, info: TargetInfo, canListen: set<int>)
    requires TableFits(before, plans, protocol, t) && info.id !in plans
    requires PortsFree(t, PortsOf(info, protocol)) && Declared(PortsOf(info, protocol)) <= canListen
    ensures TableFits(before, plans[info.id := Place(info)], protocol, RegisterPorts(t, PortsOf(info, protocol), info, canListen))
    ensures !Conflict(t, PortsOf(info, protocol), info.id)
  {
    var ports := PortsOf(info, protocol);
    PlacePorts(t, ports, info, canListen);
    PlacedFit(before, plans, protocol, t, info, RegisterPorts(t, ports, info, canListen));
  }

  lemma PlacedFit(before: Table, plans: Plans, protocol: Protocol, t: Table, info: TargetInfo, u: Table)
    requires TableFits(before, plans, protocol, t) && info.id !in plans
    requires var ports := PortsOf(info, protocol);
             && (forall p :: p in u <==> p in t || p in Declared(ports))
             && (forall p :: p in t ==> u[p] == t[p])
             && (forall p :: p in Declared(ports) ==> u[p] == Fresh(info, TargetOf(ports, p)))
    ensures TableFits(before, plans[info.id := Place(info)], protocol, u)
  {
    var more := plans[info.id := Place(info)];
    forall p | p in u ensures u[p].info.id in more && EntryFits(before, more[u[p].info.id], protocol, p, u[p]) {
      if p in t {
        assert EntryFits(before, plans[t[p].info.id], protocol, p, t[p]);
      }
    }
  }

  lemma PlaceFollows(r: Registry, plans: Plans, s: Registry, info: TargetInfo, env: Listens)
    requires Follows(r, plans, s) && info.id !in plans && Free(s, info) && CanListenOn(env, info)
    ensures !Conflicts(s, info) && Follows(r, plans[info.id := Place(info)], Register(s, info, env))
  {
    var more := plans[info.id := Place(info)];
    TableWith(r.tcp, plans, Tcp, s.tcp, info, env.tcp);
    TableWith(r.udp, plans, Udp, s.udp, info, env.udp);
    var t := Register(s, info, env);
    assert CronFits(r.cronOnly, more, t.cronOnly);
  }

  // ---- The update --------------------------------------------------------------------------------

  predicate Changed(cur: Targets, new_: Targets, id: string)
    requires id in new_
  {
    id !in cur || !InfoEqual(cur[id], new_[id])
  }

  function RemoveStale(s: Registry, new_: Targets, order: seq<string>): Registry {
    if order == [] then s
    else
      var before := RemoveStale(s, new_, order[..|order| - 1]);
      var id := order[|order| - 1];
      if id in new_ then before else Remove(before, id)
  }

  function Reconcile(s: Registry, cur: Targets, new_: Targets, id: string, env: Listens): Registry
    requires id in new_
  {
    if id !in cur then Register(s, new_[id], env)
    else if !InfoEqual(cur[id], new_[id]) then Register(Remove(s, id), new_[id], env)
    else s
  }

  function ReconcileAll(s: Registry, cur: Targets, new_: Targets, order: seq<string>, env: Listens): Registry
    requires forall i :: 0 <= i < |order| ==> order[i] in new_
  {
    if order == [] then s
    else Reconcile(ReconcileAll(s, cur, new_, order[..|order| - 1], env), cur, new_, order[|order| - 1], env)
  }

  function Keys(order: seq<string>): (r: set<string>)
    ensures forall i :: 0 <= i < |order| ==> order[i] in r
    ensures forall id :: id in r ==> id in order
  {
    if order == [] then {} else Keys(order[..|order| - 1]) + {order[|order| - 1]}
  }

  /** `Update`, with the orders in which it happens to walk its two maps. */
  function UpdateIn(r: Registry, cur: Targets, new_: Targets, removals: seq<string>, registrations: seq<string>, env: Listens): Registry
    requires Keys(registrations) == new_.Keys
  {
    assert forall i :: 0 <= i < |registrations| ==> registrations[i] in Keys(registrations);
    ReconcileAll(RemoveStale(r, new_, removals), cur, new_, registrations, env)
  }

  ghost predicate Disjoint(a: TargetInfo, b: TargetInfo) {
    Declared(a.ports) !! Declared(b.ports) && Declared(a.udpPorts) !! Declared(b.udpPorts)
  }

  /** A changed target overlaps neither the other new targets nor what other retained ones still hold. */
  ghost predicate Reconcilable(cur: Targets, new_: Targets, env: Listens) {
    && (forall id :: id in new_ ==> new_[id].id == id)
    && (forall id :: id in new_ && Changed(cur, new_, id) ==> CanListenOn(env, new_[id]))
    && (forall id, other :: id in new_ && other in new_ && id != other && Changed(cur, new_, id) ==>
          && (Changed(cur, new_, other) ==> Disjoint(new_[id], new_[other]))
          && (other in cur ==> Disjoint(new_[id], cur[other])))
  }

  function RemovalPlan(cur: Targets, gone: set<string>): Plans {
    map id | id in cur && id !in gone :: Keep(cur[id])
  }

  /** The plan once the new targets in `done` have been reconciled. */
  function PlanAfter(cur: Targets, new_: Targets, done: set<string>): Plans {
    map id | id in new_ && (id in cur || id in done) ::
      if Changed(cur, new_, id) && id in done then Place(new_[id]) else Keep(cur[id])
  }

  lemma RemovalPlanGrows(cur: Targets, new_: Targets, ids: set<string>, id: string)
    ensures RemovalPlan(cur, ids + {id} - new_.Keys)
         == RemovalPlan(cur, ids - new_.Keys) - (if id in new_ then {} else {id})
  {
  }

  lemma {:induction false} RemoveStaleFollows(r: Registry, cur: Targets, new_: Targets, order: seq<string>)
    requires Consistent(r, cur)
    ensures Follows(r, RemovalPlan(cur, Keys(order) - new_.Keys), RemoveStale(r, new_, order))
  {
    if order == [] {
      NothingRemoved(cur, new_);
    } else {
      var front, id := order[..|order| - 1], order[|order| - 1];
      RemoveStaleFollows(r, cur, new_, front);
      RemovalPlanGrows(cur, new_, Keys(front), id);
      var plans := RemovalPlan(cur, Keys(front) - new_.Keys);
      if id in new_ {
        assert plans - {} == plans;
      } else {
        RemoveFollows(r, plans, RemoveStale(r, new_, front), id);
      }
    }
  }

  lemma NothingRemoved(cur: Targets, new_: Targets)
    ensures RemovalPlan(cur, Keys([]) - new_.Keys) == KeepAll(cur)
  {
  }

  lemma TableLeavesFree(before: Table, plans: Plans, protocol: Protocol, t: Table, info: TargetInfo)
    requires TableFits(before, plans, protocol, t)
    requires forall id :: id in plans ==> Declared(PortsOf(info, protocol)) !! Declared(PortsOf(plans[id].info, protocol))
    ensures PortsFree(t, PortsOf(info, protocol))
  {
    assert forall p :: p in t ==> EntryFits(before, plans[t[p].info.id], protocol, p, t[p]);
  }

  ghost predicate DisjointFromAll(plans: Plans, info: TargetInfo) {
    forall id :: id in plans ==> Disjoint(info, plans[id].info)
  }

  /** When a changed target's turn comes, its ports are free. */
  lemma DisjointIsFree(r: Registry, plans: Plans, s: Registry, info: TargetInfo)
    requires Follows(r, plans, s) && DisjointFromAll(plans, info)
    ensures Free(s, info)
  {
    assert forall id :: id in plans ==> Disjoint(info, plans[id].info);
    TableLeavesFree(r.tcp, plans, Tcp, s.tcp, info);
    TableLeavesFree(r.udp, plans, Udp, s.udp, info);
  }

  lemma ChangedIsDisjoint(cur: Targets, new_: Targets, done: set<string>, id: string, env: Listens)
    requires Reconcilable(cur, new_, env) && id in new_ && Changed(cur, new_, id)
    ensures DisjointFromAll(PlanAfter(cur, new_, done) - {id}, new_[id])
  {
  }

  lemma PlanAfterGrows(cur: Targets, new_: Targets, done: set<string>, id: string)
    requires id in new_ && id !in done
    ensures Changed(cur, new_, id) ==>
              (PlanAfter(cur, new_, done) - {id})[id := Place(new_[id])] == PlanAfter(cur, new_, done + {id})
    ensures id !in cur ==> PlanAfter(cur, new_, done) - {id} == PlanAfter(cur, new_, done)
    ensures !Changed(cur, new_, id) ==> PlanAfter(cur, new_, done + {id}) == PlanAfter(cur, new_, done)
  {
  }

  lemma ReconcileFollows(r: Registry, cur: Targets, new_: Targets, done: set<string>, s: Registry, id: string, env: Listens)
    requires Reconcilable(cur, new_, env) && id in new_ && id !in done
    requires Follows(r, PlanAfter(cur, new_, done), s)
    ensures Follows(r, PlanAfter(cur, new_, done + {id}), Reconcile(s, cur, new_, id, env))
  {
    PlanAfterGrows(cur, new_, done, id);
    if Changed(cur, new_, id) {
      var rest := PlanAfter(cur, new_, done) - {id};
      var t := if id in cur then Remove(s, id) else s;
      if id in cur {
        RemoveFollows(r, PlanAfter(cur, new_, done), s, id);
      }
      ChangedIsDisjoint(cur, new_, done, id, env);
      DisjointIsFree(r, rest, t, new_[id]);
      PlaceFollows(r, rest, t, new_[id], env);
    }
  }

  ghost predicate NoDuplicates(order: seq<string>) {
    forall i, j :: 0 <= i < j < |order| ==> order[i] != order[j]
  }

  lemma LastIsNew(order: seq<string>)
    requires order != [] && NoDuplicates(order)
    ensures order[|order| - 1] !in Keys(order[..|order| - 1])
  {
    var front := order[..|order| - 1];
    assert forall i :: 0 <= i < |front| ==> front[i] == order[i] != order[|order| - 1];
  }

  lemma {:induction false} ReconcileAllFollows(r: Registry, cur: Targets, new_: Targets, s: Registry, order: seq<string>, env: Listens)
    requires Reconcilable(cur, new_, env) && Follows(r, PlanAfter(cur, new_, {}), s)
    requires NoDuplicates(order) && forall i :: 0 <= i < |order| ==> order[i] in new_
    ensures Follows(r, PlanAfter(cur, new_, Keys(order)), ReconcileAll(s, cur, new_, order, env))
  {
    if order == [] {
      assert Keys(order) == {};
    } else {
      var front, id := order[..|order| - 1], order[|order| - 1];
      ReconcileAllFollows(r, cur, new_, s, front, env);
      LastIsNew(order);
      ReconcileFollows(r, cur, new_, Keys(front), ReconcileAll(s, cur, new_, front, env), id, env);
    }
  }

  /** The plan of a whole update: unchanged targets kept, the others placed. */
  function UpdatePlan(cur: Targets, new_: Targets): Plans {
    PlanAfter(cur, new_, new_.Keys)
  }

  lemma RemovalLeadsToReconciliation(cur: Targets, new_: Targets)
    ensures RemovalPlan(cur, cur.Keys - new_.Keys) == PlanAfter(cur, new_, {})
  {
  }

  /** The orders in which an update may walk its two maps. */
  ghost predicate Orders(cur: Targets, new_: Targets, removals: seq<string>, registrations: seq<string>) {
    Keys(removals) == cur.Keys && Keys(registrations) == new_.Keys && NoDuplicates(registrations)
  }

  /** In every map-iteration order `Update` arrives at entries that follow the update's plan, names being shared or not. */
  lemma {:induction false} UpdateFollowsPlan(r: Registry, cur: Targets, new_: Targets,
                                             removals: seq<string>, registrations: seq<string>, env: Listens)
    requires Consistent(r, cur) && Reconcilable(cur, new_, env) && Orders(cur, new_, removals, registrations)
    ensures Follows(r, UpdatePlan(cur, new_), UpdateIn(r, cur, new_, removals, registrations, env))
  {
    RemoveStaleFollows(r, cur, new_, removals);
    RemovalLeadsToReconciliation(cur, new_);
    assert forall i :: 0 <= i < |registrations| ==> registrations[i] in Keys(registrations);
    ReconcileAllFollows(r, cur, new_, RemoveStale(r, new_, removals), registrations, env);
  }

  /** For listeners and port-less entries the order in which the maps are walked does not matter. */
  lemma {:induction false} UpdateOrderIrrelevant(r: Registry, cur: Targets, new_: Targets, env: Listens,
                                                 removals: seq<string>, registrations: seq<string>,
                                                 removals': seq<string>, registrations': seq<string>)
    requires Consistent(r, cur) && Reconcilable(cur, new_, env)
    requires Orders(cur, new_, removals, registrations) && Orders(cur, new_, removals', registrations')
    ensures SameEntries(UpdateIn(r, cur, new_, removals, registrations, env), UpdateIn(r, cur, new_, removals', registrations', env))
  {
    UpdateFollowsPlan(r, cur, new_, removals, registrations, env);
    UpdateFollowsPlan(r, cur, new_, removals', registrations', env);
    FollowsIsUnique(r, UpdatePlan(cur, new_),
      UpdateIn(r, cur, new_, removals, registrations, env), UpdateIn(r, cur, new_, removals', registrations', env));
  }

  // ---- The result is again consistent, and is what registering the new targets gives ---------------

  /** The targets present after an update: unchanged ones as they were, the others as given. */
  function Effective(cur: Targets, new_: Targets): Targets {
    map id | id in new_ :: if Changed(cur, new_, id) then new_[id] else cur[id]
  }

  lemma {:induction false} FollowsIsConsistent(r: Registry, plans: Plans, s: Registry, cur: Targets)
    requires Follows(r, plans, s)
    requires cur.Keys == plans.Keys && forall id :: id in cur ==> cur[id] == plans[id].info
    ensures Consistent(s, cur)
  {
    TableIsConsistent(r.tcp, plans, Tcp, s.tcp, cur);
    TableIsConsistent(r.udp, plans, Udp, s.udp, cur);
  }

  lemma TableIsConsistent(before: Table, plans: Plans, protocol: Protocol, t: Table, cur: Targets)
    requires TableFits(before, plans, protocol, t)
    requires cur.Keys == plans.Keys && forall id :: id in cur ==> cur[id] == plans[id].info
    ensures TableFits(t, KeepAll(cur), protocol, t)
  {
    assert forall p :: p in t ==> EntryFits(before, plans[t[p].info.id], protocol, p, t[p]);
  }

  lemma EffectiveMatchesPlan(cur: Targets, new_: Targets)
    ensures Effective(cur, new_).Keys == UpdatePlan(cur, new_).Keys
    ensures forall id :: id in Effective(cur, new_) ==> Effective(cur, new_)[id] == UpdatePlan(cur, new_)[id].info
  {
  }

  /** After an update the registry is consistent with the effective targets, ready for the next update. */
  lemma {:induction false} UpdateKeepsConsistency(r: Registry, cur: Targets, new_: Targets, removals: seq<string>, registrations: seq<string>, env: Listens)
    requires Consistent(r, cur) && Reconcilable(cur, new_, env) && Orders(cur, new_, removals, registrations)
    ensures Consistent(UpdateIn(r, cur, new_, removals, registrations, env), Effective(cur, new_))
  {
    UpdateFollowsPlan(r, cur, new_, removals, registrations, env);
    EffectiveMatchesPlan(cur, new_);
    FollowsIsConsistent(r, UpdatePlan(cur, new_), UpdateIn(r, cur, new_, removals, registrations, env), Effective(cur, new_));
  }

  /** The same listener as seen by a client: same container, target port and proxy configuration. */
  predicate SameListener(a: Mapping, b: Mapping) {
    a.info.id == b.info.id && a.targetPort == b.targetPort && InfoEqual(a.info, b.info)
  }

  predicate SameTable(t: Table, u: Table) {
    t.Keys == u.Keys && forall p :: p in t ==> SameListener(t[p], u[p])
  }

  /** The entry that one plan puts on a port and the entry that a plan for the same configuration puts there. */
  lemma {:induction false} SamePlansSameEntry(before: Table, plan: Plan, e: Mapping, before': Table, plan': Plan, f: Mapping,
                                              protocol: Protocol, p: int)
    requires EntryFits(before, plan, protocol, p, e) && EntryFits(before', plan', protocol, p, f)
    requires plan.info.id == plan'.info.id && InfoEqual(plan.info, plan'.info)
    ensures SameListener(e, f)
  {
    assert PortsOf(plan.info, protocol) == PortsOf(plan'.info, protocol);
  }

  lemma {:induction false} SamePlansSubtable(before: Table, plans: Plans, t: Table, before': Table, plans': Plans, u: Table, protocol: Protocol)
    requires TableFits(before, plans, protocol, t) && TableFits(before', plans', protocol, u)
    requires plans.Keys == plans'.Keys && forall id :: id in plans ==> InfoEqual(plans[id].info, plans'[id].info)
    ensures forall p :: p in t ==> p in u && SameListener(t[p], u[p])
  {
    forall p | p in t ensures p in u && SameListener(t[p], u[p]) {
      var id := t[p].info.id;
      assert EntryFits(before, plans[id], protocol, p, t[p]);
      assert id in plans' && PortsOf(plans'[id].info, protocol) == PortsOf(plans[id].info, protocol);
      assert p in u && u[p].info.id == id;
      assert EntryFits(before', plans'[id], protocol, p, u[p]);
      SamePlansSameEntry(before, plans[id], t[p], before', plans'[id], u[p], protocol, p);
    }
  }

  lemma {:induction false} SamePlansSameTable(before: Table, plans: Plans, t: Table, before': Table, plans': Plans, u: Table, protocol: Protocol)
    requires TableFits(before, plans, protocol, t) && TableFits(before', plans', protocol, u)
    requires plans.Keys == plans'.Keys && forall id :: id in plans ==> InfoEqual(plans[id].info, plans'[id].info)
    ensures SameTable(t, u)
  {
    SamePlansSubtable(before, plans, t, before', plans', u, protocol);
    SamePlansSubtable(before', plans', u, before, plans, t, protocol);
    SameDomain(t, u);
  }

  lemma SameDomain(t: Table, u: Table)
    requires (forall p :: p in t ==> p in u) && (forall p :: p in u ==> p in t)
    ensures t.Keys == u.Keys
  {
    forall p | p in t ensures p in u {
    }
    forall p | p in u ensures p in t {
    }
  }

  lemma EmptyIsConsistent()
    ensures Consistent(EMPTY, map[])
  {
  }

  /** Only new targets are present, and the unchanged ones have the entries they had before. */
  ghost predicate KeptAsBefore(cur: Targets, new_: Targets, before: Table, t: Table) {
    forall p :: p in t ==> Belongs(cur, new_, before, p, t[p])
  }

  ghost predicate Belongs(cur: Targets, new_: Targets, before: Table, p: int, e: Mapping) {
    e.info.id in new_ && (Changed(cur, new_, e.info.id) || (p in before && e == before[p]))
  }

  /**
   * An update leaves exactly the listeners that registering the new targets from nothing
   * would create, while every unchanged target keeps its own entries, activity included.
   */
  lemma UpdateIsFreshRegistration(r: Registry, cur: Targets, new_: Targets, env: Listens,
                                  removals: seq<string>, registrations: seq<string>, order: seq<string>)
    requires Consistent(r, cur) && Reconcilable(cur, new_, env) && Reconcilable(map[], new_, env)
    requires Orders(cur, new_, removals, registrations) && Orders(map[], new_, [], order)
    ensures var s := UpdateIn(r, cur, new_, removals, registrations, env);
            var anew := UpdateIn(EMPTY, map[], new_, [], order, env);
            && SameTable(s.tcp, anew.tcp) && SameTable(s.udp, anew.udp) && s.cronOnly.Keys == anew.cronOnly.Keys
            && KeptAsBefore(cur, new_, r.tcp, s.tcp) && KeptAsBefore(cur, new_, r.udp, s.udp)
  {
    var s := UpdateIn(r, cur, new_, removals, registrations, env);
    var anew := UpdateIn(EMPTY, map[], new_, [], order, env);
    EmptyIsConsistent();
    UpdateFollowsPlan(r, cur, new_, removals, registrations, env);
    UpdateFollowsPlan(EMPTY, map[], new_, [], order, env);
    TablesCompared(r.tcp, cur, new_, s.tcp, EMPTY.tcp, anew.tcp, Tcp);
    TablesCompared(r.udp, cur, new_, s.udp, EMPTY.udp, anew.udp, Udp);
    CronCompared(r.cronOnly, cur, new_, s.cronOnly, EMPTY.cronOnly, anew.cronOnly);
  }

  lemma TablesCompared(before: Table, cur: Targets, new_: Targets, t: Table, before': Table, u: Table, protocol: Protocol)
    requires TableFits(before, UpdatePlan(cur, new_), protocol, t) && TableFits(before', UpdatePlan(map[], new_), protocol, u)
    ensures SameTable(t, u) && KeptAsBefore(cur, new_, before, t)
  {
    SamePlansSameTable(before, UpdatePlan(cur, new_), t, before', UpdatePlan(map[], new_), u, protocol);
    assert forall p :: p in t ==> EntryFits(before, UpdatePlan(cur, new_)[t[p].info.id], protocol, p, t[p]);
  }

  lemma CronCompared(before: map<string, CronState>, cur: Targets, new_: Targets, t: map<string, CronState>,
                     before': map<string, CronState>, u: map<string, CronState>)
    requires CronFits(before, UpdatePlan(cur, new_), t) && CronFits(before', UpdatePlan(map[], new_), u)
    ensures t.Keys == u.Keys
  {
    forall p | p in t ensures p in u {
    }
    forall p | p in u ensures p in t {
    }
  }
}
