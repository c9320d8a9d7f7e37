/** What one registration, one removal and a series of container events do to each entry, field by field. */
module RegistryEffects {
  import opened Text
  import opened Types
  import opened Registry
  import opened RegistryUpdate
  import opened UpdateTargets
  import opened Lifecycle

  // ---- Registration ---------------------------------------------------------------------

  predicate ListedPort(ports: seq<PortMapping>, p: int) {
    exists k :: 0 <= k < |ports| && ports[k].listenPort == p
  }

  /** The last mapping of the port leads to the target. */
  predicate LeadsTo(ports: seq<PortMapping>, p: int, target: int) {
    exists k :: 0 <= k < |ports| && ports[k] == PortMapping(p, target)
                && forall j :: k < j < |ports| ==> ports[j].listenPort != p
  }

  /** The entry takes the target's info and flags; activity is kept if the port was held, else none. */
  predicate TakenOver(t: Table, p: int, ports: seq<PortMapping>, info: TargetInfo, e: Mapping) {
    && e.info == info && e.running == info.running && e.missing == info.missing
    && LeadsTo(ports, p, e.targetPort)
    && (if p in t then e.activity == t[p].activity && e.lastActive == t[p].lastActive
        else e.activity == 0 && e.lastActive == 0)
  }

  /** A listed port is taken over if it is held or can be listened on; everything else stays as it is. */
  ghost predicate Registered(t: Table, ports: seq<PortMapping>, info: TargetInfo, canListen: set<int>, u: Table) {
    forall p: int ::
      if ListedPort(ports, p) && (p in t || p in canListen) then p in u && TakenOver(t, p, ports, info, u[p])
      else (p in u <==> p in t) && (p in t ==> u[p] == t[p])
  }

  lemma {:induction false} ListedFrontPort(ports: seq<PortMapping>, p: int)
    requires ports != []
    ensures ListedPort(ports, p) <==> ListedPort(ports[..|ports| - 1], p) || ports[|ports| - 1].listenPort == p
  {
    var front := ports[..|ports| - 1];
    assert forall k :: 0 <= k < |front| ==> front[k] == ports[k];
    if ListedPort(front, p) {
      var k :| 0 <= k < |front| && front[k].listenPort == p;
      assert ports[k].listenPort == p;
    }
  }

  lemma LeadsToFront(ports: seq<PortMapping>, p: int, target: int)
    requires ports != []
    ensures ports[|ports| - 1].listenPort != p ==> (LeadsTo(ports[..|ports| - 1], p, target) ==> LeadsTo(ports, p, target))
    ensures ports[|ports| - 1] == PortMapping(p, target) ==> LeadsTo(ports, p, target)
  {
    var front, last := ports[..|ports| - 1], ports[|ports| - 1];
    assert forall k :: 0 <= k < |front| ==> front[k] == ports[k];
    if last.listenPort != p && LeadsTo(front, p, target) {
      var k :| 0 <= k < |front| && front[k] == PortMapping(p, target)
               && forall j :: k < j < |front| ==> front[j].listenPort != p;
      assert ports[k] == PortMapping(p, target);
    }
    if last == PortMapping(p, target) {
      assert ports[|front|] == last;
    }
  }

  lemma {:induction false} PortsRegistered(t: Table, ports: seq<PortMapping>, info: TargetInfo, canListen: set<int>)
    ensures Registered(t, ports, info, canListen, RegisterPorts(t, ports, info, canListen))
  {
    if ports != [] {
      var front, last := ports[..|ports| - 1], ports[|ports| - 1];
      var mid := RegisterPorts(t, front, info, canListen);
      PortsRegistered(t, front, info, canListen);
      forall p: int
        ensures var u := RegisterPorts(t, ports, info, canListen);
                if ListedPort(ports, p) && (p in t || p in canListen) then p in u && TakenOver(t, p, ports, info, u[p])
                else (p in u <==> p in t) && (p in t ==> u[p] == t[p])
      {
        PortRegistered(t, ports, info, canListen, mid, p);
      }
    }
  }

  lemma {:induction false} PortRegistered(t: Table, ports: seq<PortMapping>, info: TargetInfo, canListen: set<int>, mid: Table, p: int)
    requires ports != [] && Registered(t, ports[..|ports| - 1], info, canListen, mid)
    ensures var u := RegisterPort(mid, ports[|ports| - 1], info, canListen);
            if ListedPort(ports, p) && (p in t || p in canListen) then p in u && TakenOver(t, p, ports, info, u[p])
            else (p in u <==> p in t) && (p in t ==> u[p] == t[p])
  {
    var last := ports[|ports| - 1];
    var u := RegisterPort(mid, last, info, canListen);
    ListedFrontPort(ports, p);
    if last.listenPort == p {
      LeadsToFront(ports, p, last.targetPort);
    } else if p in u {
      LeadsToFront(ports, p, u[p].targetPort);
    }
  }

  /** Some listed port is held by another container. */
  predicate Blocked(t: Table, ports: seq<PortMapping>, id: string) {
    exists k :: 0 <= k < |ports| && ports[k].listenPort in t && t[ports[k].listenPort].info.id != id
  }

  /**
   * A registration that meets a port of another container changes nothing; any other one takes over
   * exactly the listed ports it holds or can listen on, its name, and the port-less entry if it has no ports.
   */
  lemma {:induction false} RegistrationEffect(r: Registry, info: TargetInfo, env: Listens)
    ensures var s := Register(r, info, env);
            if Blocked(r.tcp, info.ports, info.id) || Blocked(r.udp, info.udpPorts, info.id) then s == r
            else
              && Registered(r.tcp, info.ports, info, env.tcp, s.tcp)
              && Registered(r.udp, info.udpPorts, info, env.udp, s.udp)
              && s.names == r.names[info.name := info.id]
              && s.cronOnly == if info.ports == [] && info.udpPorts == [] then r.cronOnly[info.id := CronState(info, info.running)]
                               else r.cronOnly
  {
    PortsRegistered(r.tcp, info.ports, info, env.tcp);
    PortsRegistered(r.udp, info.udpPorts, info, env.udp);
  }

  // ---- Removal ------------------------------------------------------------------------------

  /** The table without the container's entries. */
  predicate Dropped(t: Table, id: string, u: Table) {
    && (forall p :: p in u ==> p in t && t[p].info.id != id && u[p] == t[p])
    && (forall p :: p in t && t[p].info.id != id ==> p in u)
  }

  /** A removal drops the container's entries, and of the names exactly those its entries carry. */
  lemma {:induction false} RemovalEffect(r: Registry, id: string, name: string)
    ensures var s := Remove(r, id);
            && Dropped(r.tcp, id, s.tcp) && Dropped(r.udp, id, s.udp)
            && (forall k :: k in s.cronOnly <==> k in r.cronOnly && k != id)
            && (forall k :: k in s.cronOnly ==> s.cronOnly[k] == r.cronOnly[k])
            && (name in s.names <==>
                  && name in r.names
                  && (forall p :: p in r.tcp && r.tcp[p].info.id == id ==> r.tcp[p].info.name != name)
                  && (forall p :: p in r.udp && r.udp[p].info.id == id ==> r.udp[p].info.name != name)
                  && (id in r.cronOnly ==> r.cronOnly[id].info.name != name))
            && (name in s.names ==> s.names[name] == r.names[name])
  {
    NamesDropped(r.tcp, id, name);
    NamesDropped(r.udp, id, name);
  }

  lemma NamesDropped(t: Table, id: string, name: string)
    ensures name in NamesOwned(t, id) <==> exists p :: p in t && t[p].info.id == id && t[p].info.name == name
  {
  }

  // ---- Container events -------------------------------------------------------------------------

  datatype Happening = Happening(id: string, event: Event)

  function HandleAll(r: Registry, events: seq<Happening>): Registry {
    if events == [] then r
    else Handle(HandleAll(r, events[..|events| - 1]), events[|events| - 1].id, events[|events| - 1].event)
  }

  /** The k-th event is the last one of its container. */
  predicate LastOf(events: seq<Happening>, k: nat, id: string) {
    k < |events| && events[k].id == id && forall j :: k < j < |events| ==> events[j].id != id
  }

  /** The k-th event is the last one that says whether its container exists. */
  predicate LastPresence(events: seq<Happening>, k: nat, id: string) {
    && k < |events| && events[k].id == id && !events[k].event.Stopped?
    && forall j :: k < j < |events| && events[j].id == id ==> events[j].event.Stopped?
  }

  /** The running flag is the one the events report. */
  ghost predicate RunningFollows(before: Mapping, events: seq<Happening>, running: bool) {
    var id := before.info.id;
    && (forall k: nat :: LastOf(events, k, id) ==> (running <==> events[k].event.Started?))
    && ((forall k :: 0 <= k < |events| ==> events[k].id != id) ==> running == before.running)
  }

  /** So is the missing flag. */
  ghost predicate MissingFollows(before: Mapping, events: seq<Happening>, missing: bool) {
    var id := before.info.id;
    && (forall k: nat :: LastPresence(events, k, id) ==> (missing <==> events[k].event.Removed?))
    && ((forall k :: 0 <= k < |events| && events[k].id == id ==> events[k].event.Stopped?) ==> missing == before.missing)
  }

  /** e has the flags that the events report, and is otherwise the entry it was. */
  ghost predicate FlagsFollow(before: Mapping, events: seq<Happening>, e: Mapping) {
    && RunningFollows(before, events, e.running) && MissingFollows(before, events, e.missing)
    && e.info == before.info && e.targetPort == before.targetPort
    && e.activity == before.activity && e.lastActive == before.lastActive
  }

  lemma FrontEvents(events: seq<Happening>)
    requires events != []
    ensures var front := events[..|events| - 1];
            events[|front|] == events[|events| - 1] && forall k :: 0 <= k < |front| ==> front[k] == events[k]
  {
  }

  lemma RunningFollowsMore(before: Mapping, events: seq<Happening>, running: bool)
    requires events != [] && RunningFollows(before, events[..|events| - 1], running)
    ensures var last := events[|events| - 1];
            RunningFollows(before, events, if last.id == before.info.id then last.event.Started? else running)
  {
    var id, front, last := before.info.id, events[..|events| - 1], events[|events| - 1];
    FrontEvents(events);
    var after := if last.id == id then last.event.Started? else running;
    forall k: nat | LastOf(events, k, id) ensures after <==> events[k].event.Started? {
      if k < |front| {
        assert events[|front|].id != id;
        assert LastOf(front, k, id) && front[k] == events[k];
      }
    }
    if forall k :: 0 <= k < |events| ==> events[k].id != id {
      assert events[|front|].id != id;
    }
  }

  lemma MissingFollowsMore(before: Mapping, events: seq<Happening>, missing: bool)
    requires events != [] && MissingFollows(before, events[..|events| - 1], missing)
    ensures var last := events[|events| - 1];
            MissingFollows(before, events, if last.id == before.info.id && !last.event.Stopped? then last.event.Removed? else missing)
  {
    var id, front, last := before.info.id, events[..|events| - 1], events[|events| - 1];
    FrontEvents(events);
    var after := if last.id == id && !last.event.Stopped? then last.event.Removed? else missing;
    forall k: nat | LastPresence(events, k, id) ensures after <==> events[k].event.Removed? {
      if k < |front| {
        assert events[|front|] == last;
        assert LastPresence(front, k, id) && front[k] == events[k];
      }
    }
    if forall k :: 0 <= k < |events| && events[k].id == id ==> events[k].event.Stopped? {
      assert events[|front|] == last;
    }
  }

  lemma {:induction false} OneMoreEvent(before: Mapping, events: seq<Happening>, e: Mapping, id: string)
    requires events != [] && id == before.info.id && FlagsFollow(before, events[..|events| - 1], e)
    ensures var last := events[|events| - 1];
            FlagsFollow(before, events, if last.id == id then Observe(e, last.event) else e)
  {
    RunningFollowsMore(before, events, e.running);
    MissingFollowsMore(before, events, e.missing);
  }

  ghost predicate TableFollows(t: Table, events: seq<Happening>, u: Table) {
    u.Keys == t.Keys && forall p :: p in t ==> FlagsFollow(t[p], events, u[p])
  }

  lemma TableFollowsMore(t: Table, events: seq<Happening>, mid: Table)
    requires events != [] && TableFollows(t, events[..|events| - 1], mid)
    ensures TableFollows(t, events, ObserveTable(mid, events[|events| - 1].id, events[|events| - 1].event))
  {
    forall p | p in t
      ensures FlagsFollow(t[p], events, ObserveTable(mid, events[|events| - 1].id, events[|events| - 1].event)[p])
    {
      assert FlagsFollow(t[p], events[..|events| - 1], mid[p]);
      OneMoreEvent(t[p], events, mid[p], t[p].info.id);
    }
  }

  /** However many events arrive, an entry is marked running exactly if its container's last one is a start, and missing exactly if the last start or removal is a removal. */
  lemma {:induction false} FlagsFollowEvents(r: Registry, events: seq<Happening>)
    ensures var s := HandleAll(r, events);
            TableFollows(r.tcp, events, s.tcp) && TableFollows(r.udp, events, s.udp) && s.names == r.names
  {
    if events != [] {
      var mid := HandleAll(r, events[..|events| - 1]);
      FlagsFollowEvents(r, events[..|events| - 1]);
      TableFollowsMore(r.tcp, events, mid.tcp);
      TableFollowsMore(r.udp, events, mid.udp);
    } else {
      assert forall p :: p in r.tcp ==> FlagsFollow(r.tcp[p], events, r.tcp[p]);
      assert forall p :: p in r.udp ==> FlagsFollow(r.udp[p], events, r.udp[p]);
    }
  }

  /** The entry's running flag is the one the events report. */
  ghost predicate CronRuns(before: CronState, events: seq<Happening>, id: string, e: CronState) {
    && (forall k: nat :: LastStartOrStop(events, k, id) ==> (e.running <==> events[k].event.Started?))
    && ((forall k :: 0 <= k < |events| && events[k].id == id ==> events[k].event.Removed?) ==> e.running == before.running)
  }

  predicate SomeStart(events: seq<Happening>, id: string) {
    exists k :: 0 <= k < |events| && events[k].id == id && events[k].event.Started?
  }

  /** A start, and nothing else, records that the container is not missing. */
  ghost predicate CronFollows(before: CronState, events: seq<Happening>, id: string, e: CronState) {
    CronRuns(before, events, id, e) && e.info == if SomeStart(events, id) then before.info.(missing := false) else before.info
  }

  predicate LastStartOrStop(events: seq<Happening>, k: nat, id: string) {
    && k < |events| && events[k].id == id && !events[k].event.Removed?
    && forall j :: k < j < |events| && events[j].id == id ==> events[j].event.Removed?
  }

  /** A port-less entry is marked running exactly if the last start or stop of its container is a start; removals leave it alone. */
  lemma {:induction false} CronFollowsEvents(r: Registry, events: seq<Happening>, id: string)
    ensures var s := HandleAll(r, events);
            s.cronOnly.Keys == r.cronOnly.Keys && (id in r.cronOnly ==> CronFollows(r.cronOnly[id], events, id, s.cronOnly[id]))
  {
    if events == [] {
      assert !SomeStart(events, id);
    } else {
      var mid := HandleAll(r, events[..|events| - 1]);
      CronFollowsEvents(r, events[..|events| - 1], id);
      CronHandled(mid, events, id);
      if id in r.cronOnly {
        CronFollowsMore(r.cronOnly[id], events, id, mid.cronOnly[id]);
      }
    }
  }

  lemma CronHandled(mid: Registry, events: seq<Happening>, id: string)
    requires events != []
    ensures var after := Handle(mid, events[|events| - 1].id, events[|events| - 1].event).cronOnly;
            after.Keys == mid.cronOnly.Keys && (id in mid.cronOnly ==> after[id] == AfterLast(events, id, mid.cronOnly[id]))
  {
  }

  lemma {:induction false} CronFollowsMore(before: CronState, events: seq<Happening>, id: string, e: CronState)
    requires events != [] && CronFollows(before, events[..|events| - 1], id, e)
    ensures CronFollows(before, events, id, AfterLast(events, id, e))
  {
    CronRunsMore(before, events, id, e);
    SomeStartMore(events, id);
  }

  function AfterLast(events: seq<Happening>, id: string, e: CronState): CronState
    requires events != []
  {
    var last := events[|events| - 1];
    if last.id != id then e else ObserveCron(map[id := e], id, last.event)[id]
  }

  lemma SomeStartMore(events: seq<Happening>, id: string)
    requires events != []
    ensures var last := events[|events| - 1];
            SomeStart(events, id) <==> SomeStart(events[..|events| - 1], id) || (last.id == id && last.event.Started?)
  {
    var front := events[..|events| - 1];
    assert events == front + [events[|events| - 1]];
    if SomeStart(front, id) {
      var k :| 0 <= k < |front| && front[k].id == id && front[k].event.Started?;
      assert events[k].id == id && events[k].event.Started?;
    }
  }

  lemma CronRunsMore(before: CronState, events: seq<Happening>, id: string, e: CronState)
    requires events != [] && CronRuns(before, events[..|events| - 1], id, e)
    ensures CronRuns(before, events, id, AfterLast(events, id, e))
  {
    var front, last := events[..|events| - 1], events[|events| - 1];
    var after := AfterLast(events, id, e);
    assert forall k :: 0 <= k < |front| ==> front[k] == events[k];
    assert events[|front|] == last;
    forall k: nat | LastStartOrStop(events, k, id) ensures after.running <==> events[k].event.Started? {
      if k < |front| {
        assert LastStartOrStop(front, k, id);
      }
    }
  }

  // ---- What an event hands on ------------------------------------------------------------------------

  /** The dependants of the info handed on, if any. */
  function HandedOn(info: Option<TargetInfo>): seq<string> {
    match info
    case None => []
    case Some(target) => target.config.dependants
  }

  /** On a start only a target with TCP ports, or with no ports at all, hands its dependants on; on a stop every target does. */
  lemma {:induction false} HandsOnExactly(r: Registry, cur: Targets, id: string, info: Option<TargetInfo>)
    requires Consistent(r, cur) && id != ""
    ensures HandsOn(r, id, Started, info) ==>
              HandedOn(info) == if id in cur && (cur[id].ports != [] || cur[id].udpPorts == []) then cur[id].config.dependants else []
    ensures HandsOn(r, id, Stopped, info) ==> HandedOn(info) == if id in cur then cur[id].config.dependants else []
    ensures HandsOn(r, id, Removed, info) ==> HandedOn(info) == []
  {
    EventsHandOnDependants(r, cur, id, info);
  }
}
