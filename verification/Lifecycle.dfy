/**
 * Container events reported by the backend: what they change in the registry, and whose
 * dependants the handler hands on to a cascade.
 */
module Lifecycle {
  import opened Text
  import opened Types
  import opened Registry
  import opened RegistryUpdate
  import opened RegistryUpdateNames
  import Cascade

  datatype Event = Started | Stopped | Removed

  function Observe(e: Mapping, event: Event): Mapping {
    match event
    case Started => e.(running := true, missing := false)
    case Stopped => e.(running := false)
    case Removed => e.(running := false, missing := true)
  }

  function ObserveTable(t: Table, id: string, event: Event): Table {
    map p | p in t :: if t[p].info.id == id then Observe(t[p], event) else t[p]
  }

  /** A port-less target notices starts and stops; a removal leaves it as it is. */
  function ObserveCron(cron: map<string, CronState>, id: string, event: Event): map<string, CronState> {
    if id !in cron then cron
    else
      match event
      case Started => cron[id := CronState(cron[id].info.(missing := false), true)]
      case Stopped => cron[id := cron[id].(running := false)]
      case Removed => cron
  }

  function Handle(r: Registry, id: string, event: Event): Registry {
    Registry(ObserveTable(r.tcp, id, event), ObserveTable(r.udp, id, event), r.names, ObserveCron(r.cronOnly, id, event))
  }

  predicate Owns(t: Table, id: string) {
    exists p :: p in t && t[p].info.id == id
  }

  ghost predicate InfoIn(t: Table, id: string, info: TargetInfo) {
    exists p :: p in t && t[p].info == info && info.id == id
  }

  /** The listeners' info is used unless its id is empty and the port-less table knows that id. */
  predicate Recognised(r: Registry, id: string) {
    id != "" || id !in r.cronOnly
  }

  /** info is what the handler of the event may base a cascade on; which entry it comes from depends on map order. */
  ghost predicate HandsOn(r: Registry, id: string, event: Event, info: Option<TargetInfo>) {
    match event
    case Started =>
      if Owns(r.tcp, id) && Recognised(r, id) then info.Some? && InfoIn(r.tcp, id, info.value)
      else if id in r.cronOnly then info == Some(r.cronOnly[id].info.(missing := false))
      else info == None
    case Stopped =>
      if Owns(r.udp, id) && Recognised(r, id) then info.Some? && InfoIn(r.udp, id, info.value)
      else if Owns(r.tcp, id) && Recognised(r, id) then info.Some? && InfoIn(r.tcp, id, info.value)
      else if id in r.cronOnly then info == Some(r.cronOnly[id].info)
      else info == None
    case Removed => info == None
  }

  function DependantsOf(info: Option<TargetInfo>): seq<string> {
    if info.Some? then info.value.config.dependants else []
  }

  // ---- Events and cascades ------------------------------------------------------------------

  /** In a table that holds the targets cur, a container has entries exactly when it declares ports. */
  lemma OwnsExactly(t: Table, cur: Targets, protocol: Protocol, id: string)
    requires TableFits(t, KeepAll(cur), protocol, t)
    ensures Owns(t, id) <==> id in cur && PortsOf(cur[id], protocol) != []
    ensures forall info :: InfoIn(t, id, info) ==> id in cur && info == cur[id]
  {
    TableInfos(t, t, cur, protocol);
    forall p | p in t && t[p].info.id == id ensures PortsOf(cur[id], protocol) != [] {
      assert EntryFits(t, KeepAll(cur)[id], protocol, p, t[p]);
    }
  }

  lemma CronExactly(r: Registry, cur: Targets, id: string)
    requires Consistent(r, cur)
    ensures id in r.cronOnly <==> id in cur && Portless(cur[id])
    ensures id in r.cronOnly ==> r.cronOnly[id].info == cur[id]
  {
    assert id in cur ==> KeepAll(cur)[id].info == cur[id];
  }

  /**
   * In a consistent registry a start event cascades to the dependants of the container only if
   * it has TCP ports or none at all; a stop event cascades whatever ports it has.
   */
  lemma EventsHandOnDependants(r: Registry, cur: Targets, id: string, info: Option<TargetInfo>)
    requires Consistent(r, cur) && id != ""
    ensures HandsOn(r, id, Started, info) ==>
              DependantsOf(info) == Cascade.StartDependants(Cascade.World(cur, r.names), id)
    ensures HandsOn(r, id, Stopped, info) ==>
              DependantsOf(info) == Cascade.StopDependants(Cascade.World(cur, r.names), id)
  {
    OwnsExactly(r.tcp, cur, Tcp, id);
    OwnsExactly(r.udp, cur, Udp, id);
    CronExactly(r, cur, id);
  }

  // ---- Events and reconciliation --------------------------------------------------------------

  /** The targets after an event: only a port-less target's own info changes, when it starts. */
  function Observed(cur: Targets, id: string, event: Event): Targets {
    if event.Started? && id in cur && Portless(cur[id]) then cur[id := cur[id].(missing := false)] else cur
  }

  lemma TableStaysFit(t: Table, cur: Targets, protocol: Protocol, id: string, event: Event)
    requires TableFits(t, KeepAll(cur), protocol, t)
    ensures var u := ObserveTable(t, id, event); TableFits(u, KeepAll(cur), protocol, u)
  {
    var u := ObserveTable(t, id, event);
    forall p | p in u ensures u[p].info.id in cur && EntryFits(u, KeepAll(cur)[u[p].info.id], protocol, p, u[p]) {
      assert EntryFits(t, KeepAll(cur)[t[p].info.id], protocol, p, t[p]);
    }
  }

  lemma PortlessEntries(t: Table, cur: Targets, id: string, more: Plans, protocol: Protocol)
    requires TableFits(t, KeepAll(cur), protocol, t) && id in cur && PortsOf(cur[id], protocol) == []
    requires forall other :: other in cur && other != id ==> other in more && more[other] == Keep(cur[other])
    ensures forall p :: p in t ==> t[p].info.id in more && EntryFits(t, more[t[p].info.id], protocol, p, t[p])
  {
    OwnsExactly(t, cur, protocol, id);
    forall p | p in t ensures t[p].info.id in more && EntryFits(t, more[t[p].info.id], protocol, p, t[p]) {
      assert t[p].info.id != id;
      assert EntryFits(t, KeepAll(cur)[t[p].info.id], protocol, p, t[p]);
    }
  }

  lemma PortlessDeclares(t: Table, cur: Targets, id: string, more: Plans, protocol: Protocol)
    requires TableFits(t, KeepAll(cur), protocol, t)
    requires id in more && PortsOf(more[id].info, protocol) == []
    requires forall other :: other in more && other != id ==> other in cur && more[other] == Keep(cur[other])
    ensures forall other, p :: other in more && p in Declared(PortsOf(more[other].info, protocol)) ==> p in t && t[p].info.id == other
  {
    forall other, p | other in more && p in Declared(PortsOf(more[other].info, protocol)) ensures p in t && t[p].info.id == other {
      assert other != id && other in KeepAll(cur) && KeepAll(cur)[other] == more[other];
    }
  }

  /** A target without ports of the protocol plays no part in that protocol's table. */
  lemma PortlessIsIrrelevant(t: Table, cur: Targets, id: string, info: TargetInfo, protocol: Protocol)
    requires TableFits(t, KeepAll(cur), protocol, t)
    requires id in cur && PortsOf(cur[id], protocol) == [] && PortsOf(info, protocol) == []
    ensures TableFits(t, KeepAll(cur[id := info]), protocol, t)
  {
    var more := KeepAll(cur[id := info]);
    PortlessEntries(t, cur, id, more, protocol);
    PortlessDeclares(t, cur, id, more, protocol);
  }

  lemma TableFollowsObserved(t: Table, cur: Targets, protocol: Protocol, id: string, event: Event)
    requires TableFits(t, KeepAll(cur), protocol, t)
    ensures var u := ObserveTable(t, id, event); TableFits(u, KeepAll(Observed(cur, id, event)), protocol, u)
  {
    TableStaysFit(t, cur, protocol, id, event);
    if event.Started? && id in cur && Portless(cur[id]) {
      PortlessIsIrrelevant(ObserveTable(t, id, event), cur, id, cur[id].(missing := false), protocol);
    }
  }

  lemma CronFollowsObserved(cron: map<string, CronState>, cur: Targets, id: string, event: Event)
    requires CronFits(cron, KeepAll(cur), cron)
    ensures var after := ObserveCron(cron, id, event); CronFits(after, KeepAll(Observed(cur, id, event)), after)
  {
    var after, more := ObserveCron(cron, id, event), Observed(cur, id, event);
    forall other | other in more && Portless(more[other]) ensures other in after {
      assert other in KeepAll(cur) && Portless(KeepAll(cur)[other].info);
    }
  }

  /** Container events keep the registry consistent, so that the guarantees of an update survive them. */
  lemma {:induction false} EventsKeepConsistency(r: Registry, cur: Targets, id: string, event: Event)
    requires Consistent(r, cur)
    ensures Consistent(Handle(r, id, event), Observed(cur, id, event))
    ensures NamesFit(cur, r.names) ==> NamesFit(Observed(cur, id, event), Handle(r, id, event).names)
  {
    TableFollowsObserved(r.tcp, cur, Tcp, id, event);
    TableFollowsObserved(r.udp, cur, Udp, id, event);
    if NamesFit(cur, r.names) {
      SameNamesFit(cur, Observed(cur, id, event), r.names);
    }
    CronFollowsObserved(r.cronOnly, cur, id, event);
  }
}
