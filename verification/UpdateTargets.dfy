/** Reconciliation seen from the list the caller passes: which containers end up with which entries. */
module UpdateTargets {
  import opened Types
  import opened Registry
  import opened RegistryUpdate

  /** The new targets by container id; a later entry with the same id wins. */
  function NewById(targets: seq<TargetInfo>): Targets {
    if targets == [] then map[]
    else NewById(targets[..|targets| - 1])[targets[|targets| - 1].id := targets[|targets| - 1]]
  }

  predicate Listed(targets: seq<TargetInfo>, id: string) {
    exists i :: 0 <= i < |targets| && targets[i].id == id
  }

  /** No later target of the list has the same id. */
  predicate LastOfItsId(targets: seq<TargetInfo>, i: nat)
    requires i < |targets|
  {
    forall j :: i < j < |targets| ==> targets[j].id != targets[i].id
  }

  /** The map holds exactly the listed ids, each with the last target of that id. */
  ghost predicate HoldsLastOfEach(targets: seq<TargetInfo>, m: Targets) {
    && (forall id :: id in m <==> Listed(targets, id))
    && (forall i :: 0 <= i < |targets| && LastOfItsId(targets, i) ==> targets[i].id in m && m[targets[i].id] == targets[i])
  }

  lemma ListedFront(targets: seq<TargetInfo>, id: string)
    requires targets != []
    ensures Listed(targets, id) <==> Listed(targets[..|targets| - 1], id) || targets[|targets| - 1].id == id
  {
    var front := targets[..|targets| - 1];
    assert targets == front + [targets[|targets| - 1]];
    if Listed(front, id) {
      var i :| 0 <= i < |front| && front[i].id == id;
      assert targets[i].id == id;
    }
  }

  lemma {:induction false} NewByIdIsLast(targets: seq<TargetInfo>)
    ensures HoldsLastOfEach(targets, NewById(targets))
  {
    if targets != [] {
      var front, last := targets[..|targets| - 1], targets[|targets| - 1];
      NewByIdIsLast(front);
      forall id ensures id in NewById(targets) <==> Listed(targets, id) {
        ListedFront(targets, id);
      }
      forall i | 0 <= i < |targets| && LastOfItsId(targets, i)
        ensures targets[i].id in NewById(targets) && NewById(targets)[targets[i].id] == targets[i]
      {
        if i < |front| {
          assert last.id != targets[i].id;
          assert LastOfItsId(front, i) by {
            assert forall j :: i < j < |front| ==> front[j] == targets[j];
          }
          assert front[i] == targets[i];
        }
      }
    }
  }

  // ---- No entry is left of a container that is not listed ----------------------------------------

  /** The container has a listener or a port-less entry. */
  ghost predicate HasEntry(r: Registry, id: string) {
    || (exists p :: p in r.tcp && r.tcp[p].info.id == id)
    || (exists p :: p in r.udp && r.udp[p].info.id == id)
    || id in r.cronOnly
  }

  lemma RemoveDropsEntries(r: Registry, id: string, other: string)
    ensures HasEntry(Remove(r, id), other) <==> HasEntry(r, other) && other != id
  {
    var s := Remove(r, id);
    assert forall p :: p in s.tcp ==> p in r.tcp && s.tcp[p] == r.tcp[p];
    assert forall p :: p in s.udp ==> p in r.udp && s.udp[p] == r.udp[p];
    assert forall p :: p in r.tcp && r.tcp[p].info.id != id ==> p in s.tcp;
    assert forall p :: p in r.udp && r.udp[p].info.id != id ==> p in s.udp;
  }

  lemma RegisterAddsOwnOnly(r: Registry, info: TargetInfo, env: Listens, other: string)
    requires other != info.id && HasEntry(Register(r, info, env), other)
    ensures HasEntry(r, other)
  {
    var s := Register(r, info, env);
    RegisterPortsShape(r.tcp, info.ports, info, env.tcp);
    RegisterPortsShape(r.udp, info.udpPorts, info, env.udp);
    assert forall p :: p in s.tcp && s.tcp[p].info.id == other ==> p in r.tcp && r.tcp[p].info.id == other;
    assert forall p :: p in s.udp && s.udp[p].info.id == other ==> p in r.udp && r.udp[p].info.id == other;
  }

  lemma {:induction false} StaleAreGone(s: Registry, new_: Targets, order: seq<string>, id: string)
    ensures HasEntry(RemoveStale(s, new_, order), id) ==> HasEntry(s, id) && (id in Keys(order) ==> id in new_)
  {
    if order != [] {
      var front, last := order[..|order| - 1], order[|order| - 1];
      StaleAreGone(s, new_, front, id);
      RemoveDropsEntries(RemoveStale(s, new_, front), last, id);
    }
  }

  lemma {:induction false} ReconcileAddsNewOnly(s: Registry, cur: Targets, new_: Targets, order: seq<string>, env: Listens, id: string)
    requires forall k :: k in new_ ==> new_[k].id == k
    requires forall i :: 0 <= i < |order| ==> order[i] in new_
    requires id !in new_ && HasEntry(ReconcileAll(s, cur, new_, order, env), id)
    ensures HasEntry(s, id)
  {
    if order != [] {
      var front, last := order[..|order| - 1], order[|order| - 1];
      var mid := ReconcileAll(s, cur, new_, front, env);
      assert last in new_ && new_[last].id == last != id;
      if last !in cur {
        RegisterAddsOwnOnly(mid, new_[last], env, id);
      } else if !InfoEqual(cur[last], new_[last]) {
        RegisterAddsOwnOnly(Remove(mid, last), new_[last], env, id);
        RemoveDropsEntries(mid, last, id);
      }
      ReconcileAddsNewOnly(s, cur, new_, front, env, id);
    }
  }

  lemma {:induction false} IdsAreTheirOwn(targets: seq<TargetInfo>)
    ensures forall id :: id in NewById(targets) ==> NewById(targets)[id].id == id
  {
    if targets != [] {
      IdsAreTheirOwn(targets[..|targets| - 1]);
    }
  }

  /** In whatever state the registry was, an update leaves nothing of a container that is not listed. */
  lemma {:induction false} UnlistedAreGone(r: Registry, cur: Targets, targets: seq<TargetInfo>,
                                           removals: seq<string>, registrations: seq<string>, env: Listens, id: string)
    requires forall k :: HasEntry(r, k) ==> k in cur
    requires Orders(cur, NewById(targets), removals, registrations)
    requires HasEntry(UpdateIn(r, cur, NewById(targets), removals, registrations, env), id)
    ensures Listed(targets, id)
  {
    var new_ := NewById(targets);
    NewByIdIsLast(targets);
    IdsAreTheirOwn(targets);
    assert forall i :: 0 <= i < |registrations| ==> registrations[i] in Keys(registrations);
    if !Listed(targets, id) {
      ReconcileAddsNewOnly(RemoveStale(r, new_, removals), cur, new_, registrations, env, id);
      StaleAreGone(r, new_, removals, id);
    }
  }

  // ---- Every listed container has its entries --------------------------------------------------------

  /** The listener belongs to the given target: its container, its ports and its configuration. */
  predicate ServesTarget(t: Table, p: int, info: TargetInfo) {
    && p in t && t[p].info.id == info.id
    && t[p].info.ports == info.ports && t[p].info.udpPorts == info.udpPorts && t[p].info.config == info.config
  }

  /** The target had listeners with the very same ports and configuration. */
  predicate Unaltered(cur: Targets, info: TargetInfo) {
    && info.id in cur
    && cur[info.id].ports == info.ports && cur[info.id].udpPorts == info.udpPorts && cur[info.id].config == info.config
  }

  ghost predicate HasAllOf(r: Registry, cur: Targets, info: TargetInfo, s: Registry) {
    && (forall k :: 0 <= k < |info.ports| ==> HasOne(r.tcp, cur, info, info.ports, k, s.tcp))
    && (forall k :: 0 <= k < |info.udpPorts| ==> HasOne(r.udp, cur, info, info.udpPorts, k, s.udp))
    && (info.ports == [] && info.udpPorts == [] ==>
          && info.id in s.cronOnly && s.cronOnly[info.id].info.config == info.config
          && (if Unaltered(cur, info) then info.id in r.cronOnly && s.cronOnly[info.id] == r.cronOnly[info.id]
              else s.cronOnly[info.id] == CronState(info, info.running)))
  }

  /**
   * The k-th mapping has its listener, which leads to the target port of the last mapping of
   * that listen port; it is the old one, activity included, exactly for an unaltered target.
   */
  ghost predicate HasOne(before: Table, cur: Targets, info: TargetInfo, ports: seq<PortMapping>, k: nat, t: Table)
    requires k < |ports|
  {
    var p := ports[k].listenPort;
    && ServesTarget(t, p, info)
    && ((forall j :: k < j < |ports| ==> ports[j].listenPort != p) ==> t[p].targetPort == ports[k].targetPort)
    && (if Unaltered(cur, info) then p in before && t[p] == before[p]
        else t[p].info == info && t[p].running == info.running && t[p].missing == info.missing
             && t[p].activity == 0 && t[p].lastActive == 0)
  }

  lemma {:induction false} LastMappingCounts(ports: seq<PortMapping>, k: nat)
    requires k < |ports| && forall j :: k < j < |ports| ==> ports[j].listenPort != ports[k].listenPort
    ensures TargetOf(ports, ports[k].listenPort) == ports[k].targetPort
  {
    if k < |ports| - 1 {
      var front := ports[..|ports| - 1];
      assert forall j :: 0 <= j < |front| ==> front[j] == ports[j];
      LastMappingCounts(front, k);
    }
  }

  lemma PlannedHasOne(before: Table, cur: Targets, new_: Targets, id: string, k: nat, t: Table, protocol: Protocol)
    requires TableFits(before, UpdatePlan(cur, new_), protocol, t)
    requires id in new_ && new_[id].id == id && k < |PortsOf(new_[id], protocol)|
    ensures HasOne(before, cur, new_[id], PortsOf(new_[id], protocol), k, t)
  {
    var ports := PortsOf(new_[id], protocol);
    var p := ports[k].listenPort;
    if forall j :: k < j < |ports| ==> ports[j].listenPort != p {
      LastMappingCounts(ports, k);
    }
    var plan := UpdatePlan(cur, new_)[id];
    assert PortsOf(plan.info, protocol) == PortsOf(new_[id], protocol);
    assert p in t && t[p].info.id == id;
    assert EntryFits(before, plan, protocol, p, t[p]);
  }

  /**
   * After an update of a consistent registry every listed target that no later one with its id
   * overrides has a listener on each of its ports, or its port-less entry: the old one if it
   * was registered with the same ports and configuration, a fresh one otherwise.
   */
  lemma {:induction false} ListedAreServed(r: Registry, cur: Targets, targets: seq<TargetInfo>,
                                           removals: seq<string>, registrations: seq<string>, env: Listens, i: nat)
    requires Consistent(r, cur) && Reconcilable(cur, NewById(targets), env)
    requires Orders(cur, NewById(targets), removals, registrations)
    requires i < |targets| && LastOfItsId(targets, i)
    ensures HasAllOf(r, cur, targets[i], UpdateIn(r, cur, NewById(targets), removals, registrations, env))
  {
    var new_ := NewById(targets);
    var info, s := targets[i], UpdateIn(r, cur, new_, removals, registrations, env);
    NewByIdIsLast(targets);
    UpdateFollowsPlan(r, cur, new_, removals, registrations, env);
    assert info.id in new_ && new_[info.id] == info;
    forall k | 0 <= k < |info.ports| ensures HasOne(r.tcp, cur, info, info.ports, k, s.tcp) {
      PlannedHasOne(r.tcp, cur, new_, info.id, k, s.tcp, Tcp);
    }
    forall k | 0 <= k < |info.udpPorts| ensures HasOne(r.udp, cur, info, info.udpPorts, k, s.udp) {
      PlannedHasOne(r.udp, cur, new_, info.id, k, s.udp, Udp);
    }
    if Portless(info) {
      PlannedCron(r.cronOnly, cur, new_, info.id, s.cronOnly);
    }
  }

  lemma PlannedCron(before: map<string, CronState>, cur: Targets, new_: Targets, id: string, cron: map<string, CronState>)
    requires CronFits(before, UpdatePlan(cur, new_), cron) && id in new_ && new_[id].id == id && Portless(new_[id])
    ensures id in cron && cron[id].info.config == new_[id].config
    ensures if Unaltered(cur, new_[id]) then id in before && cron[id] == before[id] else cron[id] == CronState(new_[id], new_[id].running)
  {
    var plan := UpdatePlan(cur, new_)[id];
    assert Portless(plan.info);
  }
}
