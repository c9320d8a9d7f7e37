/** The server's registry object: the in-place operations, each proved equal to its transition. */
module ProxyServing {
  import opened Text
  import opened Types
  import opened Registry
  import opened RegistryUpdate
  import opened UpdateTargets
  import opened Lifecycle

  /** cur holds, for each registered container, the info of one of its entries. */
  ghost predicate IsSnapshot(r: Registry, cur: Targets) {
    && (forall p :: p in r.tcp ==> r.tcp[p].info.id in cur)
    && (forall p :: p in r.udp ==> r.udp[p].info.id in cur)
    && (forall id :: id in r.cronOnly ==> id in cur)
    && (forall id :: id in cur ==> SomeEntryHas(r, id, cur[id]))
  }

  ghost predicate SomeEntryHas(r: Registry, id: string, info: TargetInfo) {
    || (exists p :: p in r.tcp && r.tcp[p].info == info && info.id == id)
    || (exists p :: p in r.udp && r.udp[p].info == info && info.id == id)
    || (id in r.cronOnly && r.cronOnly[id].info == info)
  }

  /** In a consistent registry the snapshot is unique: it is the registered targets. */
  lemma SnapshotOfConsistent(r: Registry, cur: Targets, snap: Targets)
    requires Consistent(r, cur) && IsSnapshot(r, snap)
    ensures snap == cur
  {
    forall id | id in snap ensures id in cur && snap[id] == cur[id] {
      SnapshotEntryIsCurrent(r, cur, snap, id);
    }
    forall id | id in cur ensures id in snap {
      SnapshotCovers(r, cur, snap, id);
    }
  }

  lemma SnapshotEntryIsCurrent(r: Registry, cur: Targets, snap: Targets, id: string)
    requires Consistent(r, cur) && IsSnapshot(r, snap) && id in snap
    ensures id in cur && snap[id] == cur[id]
  {
    assert SomeEntryHas(r, id, snap[id]);
    EntryInfoIsCurrent(r, cur, id, snap[id]);
  }

  lemma SnapshotCovers(r: Registry, cur: Targets, snap: Targets, id: string)
    requires Consistent(r, cur) && IsSnapshot(r, snap) && id in cur
    ensures id in snap
  {
    ConsistentHasEntry(r, cur, id);
  }

  lemma EntryInfoIsCurrent(r: Registry, cur: Targets, id: string, info: TargetInfo)
    requires Consistent(r, cur) && SomeEntryHas(r, id, info)
    ensures id in cur && info == cur[id]
  {
    TableInfos(r.tcp, r.tcp, cur, Tcp);
    TableInfos(r.udp, r.udp, cur, Udp);
  }

  lemma ConsistentHasEntry(r: Registry, cur: Targets, id: string)
    requires Consistent(r, cur) && id in cur
    ensures (exists p :: p in r.tcp && r.tcp[p].info.id == id) || (exists p :: p in r.udp && r.udp[p].info.id == id) || id in r.cronOnly
  {
    TableInfos(r.tcp, r.tcp, cur, Tcp);
    TableInfos(r.udp, r.udp, cur, Udp);
    if PortsOf(cur[id], Tcp) == [] && PortsOf(cur[id], Udp) == [] {
      assert id in KeepAll(cur) && Portless(KeepAll(cur)[id].info);
    }
  }

  lemma RemovedTwice(m: map<string, string>, a: set<string>, b: set<string>, c: set<string>)
    ensures m - a - b - c == m - (a + b + c)
    ensures c == {} ==> m - a - b == m - (a + b + c)
  {
  }

  lemma SomePort(ports: set<int>)
    ensures ports == {} || exists p: int :: p in ports
  {
    if forall p: int :: p !in ports {
      assert ports == {};
    }
  }

  /** The event has been applied to the entries outside `left`. */
  ghost predicate ObservedOutside(t: Table, left: set<int>, id: string, event: Event, u: Table) {
    && u.Keys == t.Keys
    && forall p :: p in t ==> u[p] == if p !in left && t[p].info.id == id then Observe(t[p], event) else t[p]
  }

  lemma AllObserved(t: Table, id: string, event: Event, u: Table)
    requires ObservedOutside(t, {}, id, event, u)
    ensures u == ObserveTable(t, id, event)
  {
    var v := ObserveTable(t, id, event);
    assert u.Keys == v.Keys;
    assert forall p :: p in t ==> u[p] == v[p];
  }

  /** The container's entries outside `left` are gone. */
  ghost predicate RemovedOutside(t: Table, left: set<int>, id: string, u: Table) {
    && (forall p :: p in u <==> p in t && (p in left || t[p].info.id != id))
    && (forall p :: p in u ==> u[p] == t[p])
  }

  function NamesOutside(t: Table, left: set<int>, id: string): set<string> {
    set p | p in t && p !in left && t[p].info.id == id :: t[p].info.name
  }

  lemma NamesOneFewer(t: Table, left: set<int>, port: int, id: string)
    requires port in t && port in left
    ensures NamesOutside(t, left - {port}, id)
         == NamesOutside(t, left, id) + (if t[port].info.id == id then {t[port].info.name} else {})
  {
  }

  lemma AllRemoved(t: Table, id: string, u: Table)
    requires RemovedOutside(t, {}, id, u)
    ensures u == WithoutOwner(t, id) && NamesOutside(t, {}, id) == NamesOwned(t, id)
  {
    var v := WithoutOwner(t, id);
    forall p | p in u ensures p in v && v[p] == u[p] {
    }
    forall p | p in v ensures p in u {
    }
  }

  ghost predicate OwnsOutside(t: Table, left: set<int>, id: string) {
    exists p :: p in t && p !in left && t[p].info.id == id
  }

  lemma OneFewer(t: Table, left: set<int>, port: int, id: string)
    requires port in t && port in left
    ensures OwnsOutside(t, left - {port}, id) <==> OwnsOutside(t, left, id) || t[port].info.id == id
  {
    if OwnsOutside(t, left, id) {
      var p :| p in t && p !in left && t[p].info.id == id;
      assert p !in left - {port};
    }
  }

  /** What an update means for the list it was given. */
  lemma ListLaws(r: Registry, cur: Targets, targets: seq<TargetInfo>, removals: seq<string>, registrations: seq<string>, env: Listens)
    requires IsSnapshot(r, cur) && Orders(cur, NewById(targets), removals, registrations)
    ensures HoldsLastOfEach(targets, NewById(targets))
    ensures forall id :: HasEntry(UpdateIn(r, cur, NewById(targets), removals, registrations, env), id) ==> Listed(targets, id)
  {
    NewByIdIsLast(targets);
    forall id | HasEntry(UpdateIn(r, cur, NewById(targets), removals, registrations, env), id) ensures Listed(targets, id) {
      UnlistedAreGone(r, cur, targets, removals, registrations, env, id);
    }
  }

  class ProxyServer {
    var tcp: Table
    var udp: Table
    var names: map<string, string>
    var cronOnly: map<string, CronState>

    ghost function View(): Registry
      reads this
    {
      Registry(tcp, udp, names, cronOnly)
    }

    constructor ()
      ensures View() == EMPTY
    {
      tcp, udp, names, cronOnly := map[], map[], map[], map[];
    }

    method HasConflict(t: Table, ports: seq<PortMapping>, id: string) returns (found: bool)
      ensures found == Conflict(t, ports, id)
    {
      for i := 0 to |ports|
        invariant forall k :: 0 <= k < i ==> !(ports[k].listenPort in t && t[ports[k].listenPort].info.id != id)
      {
        if ports[i].listenPort in t && t[ports[i].listenPort].info.id != id {
          return true;
        }
      }
      found := false;
    }

    method RegisterAll(t: Table, ports: seq<PortMapping>, info: TargetInfo, canListen: set<int>) returns (u: Table)
      ensures u == RegisterPorts(t, ports, info, canListen)
    {
      u := t;
      for i := 0 to |ports|
        invariant u == RegisterPorts(t, ports[..i], info, canListen)
      {
        var m := ports[i];
        assert ports[..i + 1][..i] == ports[..i];
        if m.listenPort in u {
          var existing := u[m.listenPort];
          u := u[m.listenPort := existing.(info := info, targetPort := m.targetPort, running := info.running, missing := info.missing)];
          continue;
        }
        if m.listenPort !in canListen {
          continue;
        }
        u := u[m.listenPort := Fresh(info, m.targetPort)];
      }
      assert ports[..|ports|] == ports;
    }

    method RegisterTarget(info: TargetInfo, env: Listens)
      modifies this
      ensures View() == Register(old(View()), info, env)
    {
      var conflict := HasConflict(tcp, info.ports, info.id);
      if conflict {
        return;
      }
      conflict := HasConflict(udp, info.udpPorts, info.id);
      if conflict {
        return;
      }
      tcp := RegisterAll(tcp, info.ports, info, env.tcp);
      udp := RegisterAll(udp, info.udpPorts, info, env.udp);
      names := names[info.name := info.id];
      if |info.ports| == 0 && |info.udpPorts| == 0 {
        cronOnly := cronOnly[info.id := CronState(info, info.running)];
      }
    }

    method RemoveOwned(t: Table, names: map<string, string>, id: string) returns (u: Table, names': map<string, string>)
      ensures u == WithoutOwner(t, id) && names' == names - NamesOwned(t, id)
    {
      u, names' := t, names;
      var left := t.Keys;
      while left != {}
        invariant left <= t.Keys && RemovedOutside(t, left, id, u)
        invariant names' == names - NamesOutside(t, left, id)
        decreases left
      {
        SomePort(left);
        var port: int :| port in left;
        NamesOneFewer(t, left, port, id);
        if t[port].info.id == id {
          names' := names' - {t[port].info.name};
          u := u - {port};
        }
        left := left - {port};
      }
      AllRemoved(t, id, u);
    }

    method RemoveTarget(id: string)
      modifies this
      ensures View() == Remove(old(View()), id)
    {
      ghost var before := names;
      tcp, names := RemoveOwned(tcp, names, id);
      udp, names := RemoveOwned(udp, names, id);
      if id in cronOnly {
        names := names - {cronOnly[id].info.name};
        cronOnly := cronOnly - {id};
      }
      RemovedTwice(before, NamesOwned(old(tcp), id), NamesOwned(old(udp), id), CronName(old(View()), id));
    }

    /** Applies an event to the container's entries, remembering the info of the last one met. */
    method ObserveAll(t: Table, id: string, event: Event, seen: Option<TargetInfo>) returns (u: Table, last: Option<TargetInfo>)
      ensures u == ObserveTable(t, id, event)
      ensures if Owns(t, id) then last.Some? && InfoIn(t, id, last.value) else last == seen
    {
      u, last := t, seen;
      var left := t.Keys;
      while left != {}
        invariant left <= t.Keys && ObservedOutside(t, left, id, event, u)
        invariant if OwnsOutside(t, left, id) then last.Some? && InfoIn(t, id, last.value) else last == seen
        decreases left
      {
        SomePort(left);
        var port: int :| port in left;
        OneFewer(t, left, port, id);
        if t[port].info.id == id {
          u := u[port := Observe(t[port], event)];
          last := Some(t[port].info);
          assert InfoIn(t, id, t[port].info);
        }
        left := left - {port};
      }
      AllObserved(t, id, event, u);
    }

    /** Returns the info whose dependants are to be started, if any. */
    method ContainerStarted(id: string) returns (info: Option<TargetInfo>)
      modifies this
      ensures View() == Handle(old(View()), id, Started) && HandsOn(old(View()), id, Started, info)
    {
      var ignored;
      tcp, info := ObserveAll(tcp, id, Started, None);
      udp, ignored := ObserveAll(udp, id, Started, None);
      if id in cronOnly {
        var ct := CronState(cronOnly[id].info.(missing := false), true);
        cronOnly := cronOnly[id := ct];
        if info.None? || info.value.id == "" {
          info := Some(ct.info);
        }
      }
    }

    /** Returns the info whose dependants are to be stopped, if any. */
    method ContainerStopped(id: string) returns (info: Option<TargetInfo>)
      modifies this
      ensures View() == Handle(old(View()), id, Stopped) && HandsOn(old(View()), id, Stopped, info)
    {
      tcp, info := ObserveAll(tcp, id, Stopped, None);
      udp, info := ObserveAll(udp, id, Stopped, info);
      if id in cronOnly {
        cronOnly := cronOnly[id := cronOnly[id].(running := false)];
        if info.None? || info.value.id == "" {
          info := Some(cronOnly[id].info);
        }
      }
    }

    method ContainerRemoved(id: string)
      modifies this
      ensures View() == Handle(old(View()), id, Removed)
    {
      var ignored;
      tcp, ignored := ObserveAll(tcp, id, Removed, None);
      udp, ignored := ObserveAll(udp, id, Removed, None);
    }

    method CollectInfos(t: Table, out: Targets) returns (out': Targets)
      ensures out.Keys <= out'.Keys && forall p :: p in t ==> t[p].info.id in out'
      ensures forall id :: id in out' ==>
        (id in out && out'[id] == out[id]) || exists p :: p in t && t[p].info == out'[id] && out'[id].id == id
    {
      out' := out;
      var left := t.Keys;
      while left != {}
        invariant left <= t.Keys && out.Keys <= out'.Keys
        invariant forall p :: p in t && p !in left ==> t[p].info.id in out'
        invariant forall id :: id in out' ==>
          (id in out && out'[id] == out[id]) || exists p :: p in t && t[p].info == out'[id] && out'[id].id == id
        decreases left
      {
        SomePort(left);
        var port: int :| port in left;
        out' := out'[t[port].info.id := t[port].info];
        left := left - {port};
      }
    }

    method CurrentTargetsById() returns (out: Targets)
      ensures IsSnapshot(View(), out)
    {
      out := CollectInfos(tcp, map[]);
      out := CollectInfos(udp, out);
      ghost var listening := out;
      var left := cronOnly.Keys;
      while left != {}
        invariant left <= cronOnly.Keys && listening.Keys <= out.Keys
        invariant forall id :: id in cronOnly && id !in left ==> id in out
        invariant forall id :: id in out ==>
          (id in listening && out[id] == listening[id]) || (id in cronOnly && out[id] == cronOnly[id].info)
        decreases left
      {
        var id :| id in left;
        out := out[id := cronOnly[id].info];
        left := left - {id};
      }
    }

    /**
     * Reconciliation, walking both maps in an arbitrary order: every listed id is registered once,
     * as the last target of the list with that id. The ghost results name the snapshot taken,
     * that map and the orders walked; UpdateOrderIrrelevant says that the entries do not
     * depend on them, and UpdateOrderIrrelevantExactly when the names do not either.
     */
    method Update(newTargets: seq<TargetInfo>, env: Listens)
      returns (ghost current: Targets, ghost newById: Targets, ghost removals: seq<string>, ghost registrations: seq<string>)
      modifies this
      ensures IsSnapshot(old(View()), current) && newById == NewById(newTargets)
      ensures forall id :: id in Keys(registrations) <==> exists i :: 0 <= i < |newTargets| && newTargets[i].id == id
      ensures forall i :: 0 <= i < |newTargets| && (forall j :: i < j < |newTargets| ==> newTargets[j].id != newTargets[i].id) ==>
                newTargets[i].id in newById && newById[newTargets[i].id] == newTargets[i]
      ensures Orders(current, newById, removals, registrations)
      ensures View() == UpdateIn(old(View()), current, newById, removals, registrations, env)
      ensures forall id :: HasEntry(View(), id) ==> exists i :: 0 <= i < |newTargets| && newTargets[i].id == id
    {
      var cur := CurrentTargetsById();
      var byId := IndexById(newTargets);
      current, newById := cur, byId;
      removals := RemoveUnlisted(cur, byId);
      registrations := ReconcileEach(cur, byId, env);
      ListLaws(old(View()), cur, newTargets, removals, registrations, env);
    }

    method IndexById(newTargets: seq<TargetInfo>) returns (byId: Targets)
      ensures byId == NewById(newTargets)
    {
      byId := map[];
      for i := 0 to |newTargets|
        invariant byId == NewById(newTargets[..i])
      {
        assert newTargets[..i + 1][..i] == newTargets[..i];
        byId := byId[newTargets[i].id := newTargets[i]];
      }
      assert newTargets[..|newTargets|] == newTargets;
    }

    method RemoveUnlisted(cur: Targets, newById: Targets) returns (ghost removals: seq<string>)
      modifies this
      ensures Keys(removals) == cur.Keys
      ensures View() == RemoveStale(old(View()), newById, removals)
    {
      removals := [];
      var left := cur.Keys;
      while left != {}
        invariant left <= cur.Keys && Keys(removals) == cur.Keys - left
        invariant View() == RemoveStale(old(View()), newById, removals)
        decreases left
      {
        var id :| id in left;
        if id !in newById {
          RemoveTarget(id);
        }
        assert (removals + [id])[..|removals|] == removals;
        removals := removals + [id];
        left := left - {id};
      }
    }

    method ReconcileEach(cur: Targets, newById: Targets, env: Listens) returns (ghost order: seq<string>)
      modifies this
      ensures Keys(order) == newById.Keys && NoDuplicates(order) && forall i :: 0 <= i < |order| ==> order[i] in newById
      ensures View() == ReconcileAll(old(View()), cur, newById, order, env)
    {
      order := [];
      var left := newById.Keys;
      while left != {}
        invariant left <= newById.Keys && Keys(order) == newById.Keys - left
        invariant NoDuplicates(order) && forall i :: 0 <= i < |order| ==> order[i] in newById
        invariant View() == ReconcileAll(old(View()), cur, newById, order, env)
        decreases left
      {
        var id :| id in left;
        var info := newById[id];
        if id !in cur {
          RegisterTarget(info, env);
        } else if !InfoEqual(cur[id], info) {
          RemoveTarget(id);
          RegisterTarget(info, env);
        }
        assert (order + [id])[..|order|] == order;
        order := order + [id];
        left := left - {id};
      }
    }
  }
}
