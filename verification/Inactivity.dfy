/** The idle checker: its two-pass grouping by container against the rule it implements. */
module Inactivity {
  import opened Types

  type Id = string

  /** One listener as the checker sees it. */
  datatype Listener =
    | TcpListener(port: int, info: TargetInfo, removed: bool, running: bool, lastActive: int, conns: nat)
    | UdpListener(port: int, info: TargetInfo, removed: bool, running: bool, lastActive: int, flows: nat, pending: nat)

  /** Open connections, or established flows together with those being established. */
  function Activity(l: Listener): nat {
    if l.TcpListener? then l.conns else l.flows + l.pending
  }

  /** The checker only deals with listeners still in place and managed on demand. */
  predicate Managed(l: Listener) {
    !l.removed && EffectiveAvailability(l.info) == ON_DEMAND
  }

  predicate Idle(l: Listener, now: int, globalTimeout: int) {
    l.running && Activity(l) == 0 && now - l.lastActive >= EffectiveTimeout(l.info.config.idleTimeout, globalTimeout)
  }

  /** When each listener is looked at: the clock readings of the two passes. */
  datatype Clock = Clock(tcp: nat -> int, udp: nat -> int, globalTimeout: int)

  // ---- The rule ----------------------------------------------------------------------

  predicate IsMember(ls: seq<Listener>, id: Id, i: nat) {
    i < |ls| && Managed(ls[i]) && ls[i].info.id == id
  }

  /** Among the first n listeners some is a managed one of the container. */
  ghost predicate HasManaged(ls: seq<Listener>, n: nat, id: Id) {
    exists i: nat :: i < n && IsMember(ls, id, i)
  }

  /** Among the first n listeners all managed ones of the container are idle when looked at. */
  ghost predicate AllIdle(ls: seq<Listener>, n: nat, id: Id, now: nat -> int, globalTimeout: int) {
    forall i: nat :: i < n && IsMember(ls, id, i) ==> Idle(ls[i], now(i), globalTimeout)
  }

  /** A container is due when it has an on-demand listener and all of those are idle. */
  ghost predicate Due(tcp: seq<Listener>, udp: seq<Listener>, clock: Clock, id: Id) {
    && (HasManaged(tcp, |tcp|, id) || HasManaged(udp, |udp|, id))
    && AllIdle(tcp, |tcp|, id, clock.tcp, clock.globalTimeout)
    && AllIdle(udp, |udp|, id, clock.udp, clock.globalTimeout)
  }

  // ---- The grouping ----------------------------------------------------------------------

  datatype Group = Group(allIdle: bool, tcp: set<nat>, udp: set<nat>)

  type Groups = map<Id, Group>

  /** groups is right about the container, as far as the first m TCP and the first n UDP listeners go. */
  ghost predicate GroupFits(tcp: seq<Listener>, m: nat, udp: seq<Listener>, n: nat, clock: Clock, groups: Groups, id: Id) {
    && (id in groups <==> HasManaged(tcp, m, id) || HasManaged(udp, n, id))
    && (id in groups ==>
          && (groups[id].allIdle <==> AllIdle(tcp, m, id, clock.tcp, clock.globalTimeout)
                                      && AllIdle(udp, n, id, clock.udp, clock.globalTimeout))
          && (forall i: nat :: i in groups[id].tcp <==> i < m && IsMember(tcp, id, i))
          && (forall i: nat :: i in groups[id].udp <==> i < n && IsMember(udp, id, i)))
  }

  ghost predicate Grouped(tcp: seq<Listener>, m: nat, udp: seq<Listener>, n: nat, clock: Clock, groups: Groups) {
    forall id :: GroupFits(tcp, m, udp, n, clock, groups, id)
  }

  function GroupOf(groups: Groups, id: Id): Group {
    if id in groups then groups[id] else Group(true, {}, {})
  }

  /** Adding listener number i to its container's group. */
  function AddTcp(groups: Groups, l: Listener, i: nat, idle: bool): Groups {
    var g := GroupOf(groups, l.info.id);
    groups[l.info.id := Group(g.allIdle && idle, g.tcp + {i}, g.udp)]
  }

  function AddUdp(groups: Groups, l: Listener, i: nat, idle: bool): Groups {
    var g := GroupOf(groups, l.info.id);
    groups[l.info.id := Group(g.allIdle && idle, g.tcp, g.udp + {i})]
  }

  lemma TcpStepFor(tcp: seq<Listener>, m: nat, udp: seq<Listener>, n: nat, clock: Clock, groups: Groups, id: Id)
    requires m < |tcp| && GroupFits(tcp, m, udp, n, clock, groups, id)
    ensures var idle := Idle(tcp[m], clock.tcp(m), clock.globalTimeout);
            var after := if Managed(tcp[m]) then AddTcp(groups, tcp[m], m, idle) else groups;
            GroupFits(tcp, m + 1, udp, n, clock, after, id)
  {
    OneMore(tcp, m, id, clock.tcp, clock.globalTimeout);
  }

  lemma TcpStep(tcp: seq<Listener>, m: nat, udp: seq<Listener>, n: nat, clock: Clock, groups: Groups)
    requires m < |tcp| && Grouped(tcp, m, udp, n, clock, groups)
    ensures var idle := Idle(tcp[m], clock.tcp(m), clock.globalTimeout);
            Grouped(tcp, m + 1, udp, n, clock, if Managed(tcp[m]) then AddTcp(groups, tcp[m], m, idle) else groups)
  {
    var idle := Idle(tcp[m], clock.tcp(m), clock.globalTimeout);
    var after := if Managed(tcp[m]) then AddTcp(groups, tcp[m], m, idle) else groups;
    var next := m + 1;
    forall id ensures GroupFits(tcp, next, udp, n, clock, after, id) {
      assert GroupFits(tcp, m, udp, n, clock, groups, id);
      TcpStepFor(tcp, m, udp, n, clock, groups, id);
    }
  }

  lemma UdpStepFor(tcp: seq<Listener>, m: nat, udp: seq<Listener>, n: nat, clock: Clock, groups: Groups, id: Id)
    requires n < |udp| && GroupFits(tcp, m, udp, n, clock, groups, id)
    ensures var idle := Idle(udp[n], clock.udp(n), clock.globalTimeout);
            var after := if Managed(udp[n]) then AddUdp(groups, udp[n], n, idle) else groups;
            GroupFits(tcp, m, udp, n + 1, clock, after, id)
  {
    OneMore(udp, n, id, clock.udp, clock.globalTimeout);
  }

  lemma UdpStep(tcp: seq<Listener>, m: nat, udp: seq<Listener>, n: nat, clock: Clock, groups: Groups)
    requires n < |udp| && Grouped(tcp, m, udp, n, clock, groups)
    ensures var idle := Idle(udp[n], clock.udp(n), clock.globalTimeout);
            Grouped(tcp, m, udp, n + 1, clock, if Managed(udp[n]) then AddUdp(groups, udp[n], n, idle) else groups)
  {
    var idle := Idle(udp[n], clock.udp(n), clock.globalTimeout);
    var after := if Managed(udp[n]) then AddUdp(groups, udp[n], n, idle) else groups;
    var next := n + 1;
    forall id ensures GroupFits(tcp, m, udp, next, clock, after, id) {
      assert GroupFits(tcp, m, udp, n, clock, groups, id);
      UdpStepFor(tcp, m, udp, n, clock, groups, id);
    }
  }

  lemma OneMore(ls: seq<Listener>, n: nat, id: Id, now: nat -> int, globalTimeout: int)
    requires n < |ls|
    ensures HasManaged(ls, n + 1, id) <==> HasManaged(ls, n, id) || IsMember(ls, id, n)
    ensures AllIdle(ls, n + 1, id, now, globalTimeout) <==>
              AllIdle(ls, n, id, now, globalTimeout) && (IsMember(ls, id, n) ==> Idle(ls[n], now(n), globalTimeout))
  {
    if HasManaged(ls, n, id) {
      var i: nat :| i < n && IsMember(ls, id, i);
      assert i < n + 1;
    }
  }

  method GroupListeners(tcp: seq<Listener>, udp: seq<Listener>, clock: Clock) returns (groups: Groups)
    ensures Grouped(tcp, |tcp|, udp, |udp|, clock, groups)
  {
    groups := map[];
    for m := 0 to |tcp|
      invariant Grouped(tcp, m, udp, 0, clock, groups)
    {
      TcpStep(tcp, m, udp, 0, clock, groups);
      var l := tcp[m];
      if !Managed(l) {
        continue;
      }
      groups := AddTcp(groups, l, m, Idle(l, clock.tcp(m), clock.globalTimeout));
    }
    for n := 0 to |udp|
      invariant Grouped(tcp, |tcp|, udp, n, clock, groups)
    {
      UdpStep(tcp, |tcp|, udp, n, clock, groups);
      var l := udp[n];
      if !Managed(l) {
        continue;
      }
      groups := AddUdp(groups, l, n, Idle(l, clock.udp(n), clock.globalTimeout));
    }
  }

  /** Groups with the allIdle flag set are exactly the containers that are due. */
  lemma FlaggedIsDue(tcp: seq<Listener>, udp: seq<Listener>, clock: Clock, groups: Groups, id: Id)
    requires Grouped(tcp, |tcp|, udp, |udp|, clock, groups)
    ensures (id in groups && groups[id].allIdle) <==> Due(tcp, udp, clock, id)
  {
    assert GroupFits(tcp, |tcp|, udp, |udp|, clock, groups, id);
  }

  // ---- What the check means for one listener -------------------------------------------------

  /** The listener is in place, belongs to the container and its lifecycle is on-demand: by name, or for want of a name and a schedule. */
  predicate OnDemandFor(l: Listener, id: Id) {
    && !l.removed && l.info.id == id
    && (l.info.config.availability == "ondemand"
        || (l.info.config.availability == "" && l.info.config.cronStart == "" && l.info.config.cronStop == ""))
  }

  /** Nothing is open and nothing being opened, and the last activity lies at least the container's own timeout back, or the global one's if it has none. */
  predicate QuietSince(l: Listener, now: int, globalTimeout: int) {
    && (match l
        case TcpListener(_, _, _, _, _, conns) => conns == 0
        case UdpListener(_, _, _, _, _, flows, pending) => flows == 0 && pending == 0)
    && (match l.info.config.idleTimeout
        case Some(own) => l.lastActive + own <= now
        case None => l.lastActive + globalTimeout <= now)
  }

  lemma ManagedIsOnDemand(l: Listener)
    ensures Managed(l) <==> OnDemandFor(l, l.info.id)
  {
  }

  lemma IdleIsQuiet(l: Listener, now: int, globalTimeout: int)
    ensures Idle(l, now, globalTimeout) <==> l.running && QuietSince(l, now, globalTimeout)
  {
  }

  /** Among the listeners the container's on-demand ones all run and have been quiet long enough. */
  ghost predicate AllQuiet(ls: seq<Listener>, id: Id, now: nat -> int, globalTimeout: int) {
    forall i: nat :: i < |ls| && OnDemandFor(ls[i], id) ==> ls[i].running && QuietSince(ls[i], now(i), globalTimeout)
  }

  ghost predicate AnyOnDemand(ls: seq<Listener>, id: Id) {
    exists i: nat :: i < |ls| && OnDemandFor(ls[i], id)
  }

  /** Some listener of the container is on-demand, and all those run and have been quiet for the timeout that applies. */
  ghost predicate Quiet(tcp: seq<Listener>, udp: seq<Listener>, clock: Clock, id: Id) {
    && (AnyOnDemand(tcp, id) || AnyOnDemand(udp, id))
    && AllQuiet(tcp, id, clock.tcp, clock.globalTimeout) && AllQuiet(udp, id, clock.udp, clock.globalTimeout)
  }

  lemma TableIsQuiet(ls: seq<Listener>, id: Id, now: nat -> int, globalTimeout: int)
    ensures HasManaged(ls, |ls|, id) <==> AnyOnDemand(ls, id)
    ensures AllIdle(ls, |ls|, id, now, globalTimeout) <==> AllQuiet(ls, id, now, globalTimeout)
  {
    forall i: nat | i < |ls|
      ensures IsMember(ls, id, i) <==> OnDemandFor(ls[i], id)
      ensures Idle(ls[i], now(i), globalTimeout) <==> ls[i].running && QuietSince(ls[i], now(i), globalTimeout)
    {
      ManagedIsOnDemand(ls[i]);
      IdleIsQuiet(ls[i], now(i), globalTimeout);
    }
    if AnyOnDemand(ls, id) {
      var i: nat :| i < |ls| && OnDemandFor(ls[i], id);
      assert IsMember(ls, id, i);
    }
  }

  /** The rule the checker follows is the one stated on each listener's own fields. */
  lemma DueIsQuiet(tcp: seq<Listener>, udp: seq<Listener>, clock: Clock, id: Id)
    ensures Due(tcp, udp, clock, id) <==> Quiet(tcp, udp, clock, id)
  {
    TableIsQuiet(tcp, id, clock.tcp, clock.globalTimeout);
    TableIsQuiet(udp, id, clock.udp, clock.globalTimeout);
  }

  // ---- Stopping ---------------------------------------------------------------------------------

  function Marked(l: Listener, stopped: set<Id>): Listener {
    if Managed(l) && l.info.id in stopped then l.(running := false) else l
  }

  /** The listener with its running flag cleared, if it is on-demand and its container was stopped. */
  function Stilled(l: Listener, stopped: set<Id>): (after: Listener)
    ensures after.running <==> l.running && forall id :: id in stopped ==> !OnDemandFor(l, id)
    ensures after.(running := l.running) == l
  {
    if OnDemandFor(l, l.info.id) && l.info.id in stopped then l.(running := false) else l
  }

  /** Clears the running flag of the given members, in place. */
  method MarkStopped(a: array<Listener>, members: set<nat>)
    requires forall i :: i in members ==> i < a.Length
    modifies a
    ensures forall i :: 0 <= i < a.Length ==> a[i] == if i in members then old(a[i]).(running := false) else old(a[i])
  {
    for i := 0 to a.Length
      invariant forall k :: 0 <= k < a.Length ==>
        a[k] == if k < i && k in members then old(a[k]).(running := false) else old(a[k])
    {
      if i in members {
        a[i] := a[i].(running := false);
      }
    }
  }

  /**
   * One check: exactly those containers get a stop call that have an on-demand listener and
   * whose on-demand listeners all run and have been quiet for the timeout that applies; and
   * where the call succeeds (`succeeds`) exactly those listeners are marked as not running.
   */
  method CheckInactivity(tcp: array<Listener>, udp: array<Listener>, clock: Clock, succeeds: set<Id>)
    returns (called: set<Id>)
    requires tcp != udp
    modifies tcp, udp
    ensures forall id :: id in called <==> Quiet(old(tcp[..]), old(udp[..]), clock, id)
    ensures forall i :: 0 <= i < tcp.Length ==> tcp[i] == Stilled(old(tcp[i]), called * succeeds)
    ensures forall i :: 0 <= i < udp.Length ==> udp[i] == Stilled(old(udp[i]), called * succeeds)
  {
    ghost var tcp0, udp0 := tcp[..], udp[..];
    var groups := GroupListeners(tcp[..], udp[..], clock);
    called := {};
    var left := groups.Keys;
    while left != {}
      invariant left <= groups.Keys
      invariant forall id :: id in called <==> id in groups && id !in left && groups[id].allIdle
      invariant forall i :: 0 <= i < tcp.Length ==> tcp[i] == Marked(tcp0[i], called * succeeds)
      invariant forall i :: 0 <= i < udp.Length ==> udp[i] == Marked(udp0[i], called * succeeds)
      decreases left
    {
      var id :| id in left;
      left := left - {id};
      MembersOf(tcp0, udp0, clock, groups, id);
      if groups[id].allIdle {
        called := called + {id};
        if id in succeeds {
          MarkStopped(tcp, groups[id].tcp);
          MarkStopped(udp, groups[id].udp);
        }
      }
    }
    forall id ensures id in called <==> Quiet(tcp0, udp0, clock, id) {
      FlaggedIsDue(tcp0, udp0, clock, groups, id);
      DueIsQuiet(tcp0, udp0, clock, id);
    }
    forall l: Listener ensures Marked(l, called * succeeds) == Stilled(l, called * succeeds) {
      ManagedIsOnDemand(l);
    }
  }

  lemma MembersOf(tcp: seq<Listener>, udp: seq<Listener>, clock: Clock, groups: Groups, id: Id)
    requires Grouped(tcp, |tcp|, udp, |udp|, clock, groups) && id in groups
    ensures forall i: nat :: i in groups[id].tcp <==> IsMember(tcp, id, i)
    ensures forall i: nat :: i in groups[id].udp <==> IsMember(udp, id, i)
  {
    assert GroupFits(tcp, |tcp|, udp, |udp|, clock, groups, id);
  }
}
