/** Dependants graphs: what a cascade from a hub can reach, and what a hub hands on. */
module Cascade {
  import opened Types

  type Id = string

  /** The registered targets and the name-to-id map. */
  datatype World = World(targets: map<Id, TargetInfo>, names: map<string, Id>)

  /**
   * The dependants cascaded when a container's start event is handled. The event handler
   * takes its info from the TCP listeners, else from the port-less entry, so a target with
   * UDP ports only hands nothing on.
   */
  function StartDependants(w: World, id: Id): seq<string> {
    if id in w.targets && (w.targets[id].ports != [] || w.targets[id].udpPorts == []) then w.targets[id].config.dependants
    else []
  }

  /** A stop event cascades whatever kind of target it concerns. */
  function StopDependants(w: World, id: Id): seq<string> {
    if id in w.targets then w.targets[id].config.dependants else []
  }

  /** The containers named by a list of dependants; unregistered names are skipped. */
  predicate Names(w: World, deps: seq<string>, id: Id) {
    exists i :: 0 <= i < |deps| && deps[i] in w.names && w.names[deps[i]] == id
  }

  type Graph = (Id, Id) -> bool

  function StartGraph(w: World): Graph {
    (a, b) => Names(w, StartDependants(w, a), b)
  }

  function StopGraph(w: World): Graph {
    (a, b) => Names(w, StopDependants(w, a), b)
  }

  /** b is registered under a name that a lists as its dependant. */
  ghost predicate ListsDependant(w: World, a: Id, b: Id) {
    a in w.targets && exists name :: name in w.targets[a].config.dependants && name in w.names && w.names[name] == b
  }

  /** Only a target with TCP ports, or with none at all, passes a start on. */
  predicate PassesStartOn(w: World, a: Id) {
    a in w.targets && (w.targets[a].ports != [] || w.targets[a].udpPorts == [])
  }

  lemma NamesExactly(w: World, deps: seq<string>, b: Id)
    ensures Names(w, deps, b) <==> exists name :: name in deps && name in w.names && w.names[name] == b
  {
    if name :| name in deps && name in w.names && w.names[name] == b {
      var i :| 0 <= i < |deps| && deps[i] == name;
    }
  }

  /** The cascades follow exactly the registered dependants. */
  lemma {:induction false} EdgesExactly(w: World, a: Id, b: Id)
    ensures StartGraph(w)(a, b) <==> PassesStartOn(w, a) && ListsDependant(w, a, b)
    ensures StopGraph(w)(a, b) <==> ListsDependant(w, a, b)
  {
    NamesExactly(w, StartDependants(w, a), b);
    NamesExactly(w, StopDependants(w, a), b);
  }

  /** path leads from hub to id over edges of g, through eligible containers only. */
  ghost predicate IsPath(g: Graph, eligible: Id -> bool, hub: Id, path: seq<Id>, id: Id) {
    && |path| > 0
    && path[|path| - 1] == id
    && g(hub, path[0])
    && (forall i :: 0 <= i < |path| ==> eligible(path[i]))
    && (forall i :: 0 <= i < |path| - 1 ==> g(path[i], path[i + 1]))
  }

  ghost predicate Reaches(g: Graph, eligible: Id -> bool, hub: Id, id: Id) {
    exists path :: IsPath(g, eligible, hub, path, id)
  }

  lemma ReachesNext(g: Graph, eligible: Id -> bool, hub: Id, a: Id, b: Id)
    requires a == hub || Reaches(g, eligible, hub, a)
    requires g(a, b) && eligible(b)
    ensures Reaches(g, eligible, hub, b)
  {
    if a == hub {
      assert IsPath(g, eligible, hub, [b], b);
    } else {
      var path :| IsPath(g, eligible, hub, path, a);
      assert IsPath(g, eligible, hub, path + [b], b);
    }
  }

  /** A set closed under eligible edges from the hub and from its own members holds everything reachable. */
  lemma {:induction false} ClosedHoldsReachable(g: Graph, eligible: Id -> bool, hub: Id, path: seq<Id>, id: Id, inside: Id -> bool)
    requires IsPath(g, eligible, hub, path, id)
    requires forall a, b :: (a == hub || inside(a)) && g(a, b) && eligible(b) ==> inside(b)
    ensures inside(id)
    decreases |path|
  {
    if |path| > 1 {
      var front := path[..|path| - 1];
      ClosedHoldsReachable(g, eligible, hub, front, front[|front| - 1], inside);
      assert g(front[|front| - 1], id);
    }
  }

  lemma ReachableIsEligible(g: Graph, eligible: Id -> bool, hub: Id, id: Id)
    ensures Reaches(g, eligible, hub, id) ==> eligible(id)
  {
    if Reaches(g, eligible, hub, id) {
      var path :| IsPath(g, eligible, hub, path, id);
      assert eligible(path[|path| - 1]);
    }
  }

  /** The start event of a UDP-only hub reaches nothing, whatever its dependants. */
  lemma UdpOnlyHubReachesNothing(w: World, eligible: Id -> bool, hub: Id, id: Id)
    requires hub in w.targets && w.targets[hub].ports == [] && w.targets[hub].udpPorts != []
    ensures !Reaches(StartGraph(w), eligible, hub, id)
  {
    assert StartDependants(w, hub) == [];
    assert forall b :: !StartGraph(w)(hub, b);
  }

  /** No target hands on more than d dependants. */
  ghost predicate AtMostDependants(w: World, d: nat) {
    forall id :: |StopDependants(w, id)| <= d
  }

  /** Every finite world has such a bound. */
  lemma {:induction false} DependantsAreBounded(w: World)
    ensures exists d: nat :: AtMostDependants(w, d)
    decreases |w.targets|
  {
    if w.targets == map[] {
      assert AtMostDependants(w, 0);
    } else {
      var id :| id in w.targets;
      var rest := World(w.targets - {id}, w.names);
      DependantsAreBounded(rest);
      var d: nat :| AtMostDependants(rest, d);
      var more := d + |StopDependants(w, id)|;
      forall other ensures |StopDependants(w, other)| <= more {
        assert other != id ==> StopDependants(w, other) == StopDependants(rest, other);
      }
      assert AtMostDependants(w, more);
    }
  }

  function Without<T>(s: seq<T>, i: nat): (r: seq<T>)
    requires i < |s|
    ensures |r| == |s| - 1
    ensures forall x :: x in r ==> x in s
    ensures forall x :: x in s ==> x in r || x == s[i]
  {
    assert s == s[..i] + [s[i]] + s[i + 1..];
    s[..i] + s[i + 1..]
  }

  /** n items of weight k. */
  function Weigh(n: nat, k: nat): nat {
    n * k
  }

  lemma WeighOneMore(n: nat, k: nat)
    ensures Weigh(n + 1, k) == Weigh(n, k) + k
  {
  }
}
