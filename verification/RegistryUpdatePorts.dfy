/**
 * Updates whose targets overlap in ports: which of them an update places, and exactly when that
 * does not depend on the order in which the maps are walked.
 */
module RegistryUpdatePorts {
  import opened Types
  import opened Registry
  import opened RegistryUpdate
  import opened RegistryUpdateNames

  // ---- What an update places -------------------------------------------------------------------

  /** With `done` reconciled and `placed` registered, nothing in the way holds a port of the new target x. */
  ghost predicate FitsIn(cur: Targets, new_: Targets, done: set<string>, placed: set<string>, x: string)
    requires x in new_
  {
    forall y :: y in new_ && y != x ==> OutOfTheWay(cur, new_, done, placed, x, y)
  }

  /** y holds what it was placed with, or what it held before the update if it has not been reconciled. */
  ghost predicate OutOfTheWay(cur: Targets, new_: Targets, done: set<string>, placed: set<string>, x: string, y: string)
    requires x in new_ && y in new_
  {
    if y in placed then Disjoint(new_[x], new_[y])
    else y in cur && !(Changed(cur, new_, y) && y in done) ==> Disjoint(new_[x], cur[y])
  }

  /** The changed targets that get their ports when the new targets are reconciled in this order. */
  ghost function Placed(cur: Targets, new_: Targets, order: seq<string>): (r: set<string>)
    requires forall i :: 0 <= i < |order| ==> order[i] in new_
    ensures forall x :: x in r ==> x in new_ && Changed(cur, new_, x) && x in Keys(order)
  {
    if order == [] then {}
    else
      var front, x := order[..|order| - 1], order[|order| - 1];
      var before := Placed(cur, new_, front);
      if Changed(cur, new_, x) && FitsIn(cur, new_, Keys(front), before, x) then before + {x} else before
  }

  function PlanWith(cur: Targets, new_: Targets, done: set<string>, placed: set<string>): Plans {
    map id | id in new_ && (id in placed || (id in cur && !(Changed(cur, new_, id) && id in done))) ::
      if id in placed then Place(new_[id]) else Keep(cur[id])
  }

  ghost predicate Given(cur: Targets, new_: Targets, env: Listens) {
    && (forall id :: id in new_ ==> new_[id].id == id)
    && (forall id :: id in new_ && Changed(cur, new_, id) ==> CanListenOn(env, new_[id]))
  }

  /** A target that overlaps a planned one is turned away. */
  lemma {:induction false} OverlapConflicts(r: Registry, plans: Plans, s: Registry, info: TargetInfo, other: string)
    requires Follows(r, plans, s) && other in plans && other != info.id && !Disjoint(info, plans[other].info)
    ensures Conflicts(s, info)
  {
    if !(Declared(info.ports) !! Declared(plans[other].info.ports)) {
      OverlapInTable(r.tcp, plans, Tcp, s.tcp, info, other);
    } else {
      OverlapInTable(r.udp, plans, Udp, s.udp, info, other);
    }
  }

  lemma {:induction false} OverlapInTable(before: Table, plans: Plans, protocol: Protocol, t: Table, info: TargetInfo, other: string)
    requires TableFits(before, plans, protocol, t) && other in plans && other != info.id
    requires !(Declared(PortsOf(info, protocol)) !! Declared(PortsOf(plans[other].info, protocol)))
    ensures Conflict(t, PortsOf(info, protocol), info.id)
  {
    var ports := PortsOf(info, protocol);
    var p := SharedPort(ports, PortsOf(plans[other].info, protocol));
    assert p in t && t[p].info.id == other;
    var i :| 0 <= i < |ports| && ports[i].listenPort == p;
    assert ports[i].listenPort in t && t[ports[i].listenPort].info.id != info.id;
  }

  lemma SharedPort(a: seq<PortMapping>, b: seq<PortMapping>) returns (p: int)
    requires !(Declared(a) !! Declared(b))
    ensures p in Declared(a) && p in Declared(b)
  {
    if forall q: int :: !(q in Declared(a) && q in Declared(b)) {
      NothingShared(Declared(a), Declared(b));
    }
    p :| p in Declared(a) && p in Declared(b);
  }

  lemma NothingShared(a: set<int>, b: set<int>)
    requires forall q: int :: !(q in a && q in b)
    ensures a !! b
  {
    forall q: int | q in a ensures q !in b {
    }
  }

  /** The plan without x, once x's turn has come. */
  lemma PlanWithout(cur: Targets, new_: Targets, done: set<string>, placed: set<string>, x: string)
    requires x in new_ && x !in done && x !in placed
    ensures Changed(cur, new_, x) ==> PlanWith(cur, new_, done, placed) - {x} == PlanWith(cur, new_, done + {x}, placed)
    ensures Changed(cur, new_, x) ==>
              (PlanWith(cur, new_, done, placed) - {x})[x := Place(new_[x])] == PlanWith(cur, new_, done + {x}, placed + {x})
    ensures x !in cur ==> PlanWith(cur, new_, done, placed) - {x} == PlanWith(cur, new_, done, placed)
    ensures !Changed(cur, new_, x) ==> PlanWith(cur, new_, done + {x}, placed) == PlanWith(cur, new_, done, placed)
  {
  }

  lemma FitsIsDisjoint(cur: Targets, new_: Targets, done: set<string>, placed: set<string>, x: string)
    requires x in new_
    ensures FitsIn(cur, new_, done, placed, x) ==> DisjointFromAll(PlanWith(cur, new_, done, placed) - {x}, new_[x])
    ensures !FitsIn(cur, new_, done, placed, x) ==>
              exists y :: y in PlanWith(cur, new_, done, placed) - {x} && !Disjoint(new_[x], (PlanWith(cur, new_, done, placed) - {x})[y].info)
  {
    var rest := PlanWith(cur, new_, done, placed) - {x};
    if FitsIn(cur, new_, done, placed, x) {
      forall y | y in rest ensures Disjoint(new_[x], rest[y].info) {
        assert OutOfTheWay(cur, new_, done, placed, x, y);
      }
    } else {
      var y :| y in new_ && y != x && !OutOfTheWay(cur, new_, done, placed, x, y);
      assert y in rest && !Disjoint(new_[x], rest[y].info);
    }
  }

  /** Registering a changed target whose turn has come places it if it fits, and otherwise changes nothing. */
  lemma {:induction false} TurnFollows(r: Registry, cur: Targets, new_: Targets, done: set<string>, placed: set<string>,
                                       t: Registry, x: string, env: Listens)
    requires Given(cur, new_, env) && x in new_ && x !in done && x !in placed && Changed(cur, new_, x)
    requires Follows(r, PlanWith(cur, new_, done, placed) - {x}, t)
    ensures Follows(r, PlanWith(cur, new_, done + {x}, if FitsIn(cur, new_, done, placed, x) then placed + {x} else placed),
                    Register(t, new_[x], env))
  {
    var rest := PlanWith(cur, new_, done, placed) - {x};
    FitsIsDisjoint(cur, new_, done, placed, x);
    PlanWithout(cur, new_, done, placed, x);
    if FitsIn(cur, new_, done, placed, x) {
      DisjointIsFree(r, rest, t, new_[x]);
      PlaceFollows(r, rest, t, new_[x], env);
    } else {
      var y :| y in rest && !Disjoint(new_[x], rest[y].info);
      OverlapConflicts(r, rest, t, new_[x], y);
    }
  }

  lemma {:induction false} ReconcileFollowsPlan(r: Registry, cur: Targets, new_: Targets, done: set<string>, placed: set<string>,
                                                s: Registry, x: string, env: Listens)
    requires Given(cur, new_, env) && x in new_ && x !in done && x !in placed && Follows(r, PlanWith(cur, new_, done, placed), s)
    ensures var after := if Changed(cur, new_, x) && FitsIn(cur, new_, done, placed, x) then placed + {x} else placed;
            Follows(r, PlanWith(cur, new_, done + {x}, after), Reconcile(s, cur, new_, x, env))
  {
    PlanWithout(cur, new_, done, placed, x);
    if Changed(cur, new_, x) {
      if x in cur {
        RemoveFollows(r, PlanWith(cur, new_, done, placed), s, x);
        TurnFollows(r, cur, new_, done, placed, Remove(s, x), x, env);
      } else {
        TurnFollows(r, cur, new_, done, placed, s, x, env);
      }
    }
  }

  lemma {:induction false} ReconcilingPlaces(r: Registry, cur: Targets, new_: Targets, s: Registry, order: seq<string>, env: Listens)
    requires Given(cur, new_, env) && Follows(r, PlanWith(cur, new_, {}, {}), s)
    requires NoDuplicates(order) && forall i :: 0 <= i < |order| ==> order[i] in new_
    ensures Follows(r, PlanWith(cur, new_, Keys(order), Placed(cur, new_, order)), ReconcileAll(s, cur, new_, order, env))
  {
    if order == [] {
      assert Keys(order) == {};
    } else {
      var front, x := order[..|order| - 1], order[|order| - 1];
      ReconcilingPlaces(r, cur, new_, s, front, env);
      LastIsNew(order);
      ReconcileFollowsPlan(r, cur, new_, Keys(front), Placed(cur, new_, front), ReconcileAll(s, cur, new_, front, env), x, env);
    }
  }

  lemma NothingPlacedYet(cur: Targets, new_: Targets)
    ensures PlanWith(cur, new_, {}, {}) == RemovalPlan(cur, cur.Keys - new_.Keys)
  {
  }

  lemma OrderIsNew(cur: Targets, new_: Targets, removals: seq<string>, order: seq<string>)
    requires Orders(cur, new_, removals, order)
    ensures forall i :: 0 <= i < |order| ==> order[i] in new_
  {
    assert forall i :: 0 <= i < |order| ==> order[i] in Keys(order);
  }

  /** In every order an update keeps the unchanged targets and places exactly the changed ones that fit at their turn. */
  lemma {:induction false} UpdatePlaces(r: Registry, cur: Targets, new_: Targets, removals: seq<string>, order: seq<string>, env: Listens)
    requires Consistent(r, cur) && Given(cur, new_, env) && Orders(cur, new_, removals, order)
    requires forall i :: 0 <= i < |order| ==> order[i] in new_
    ensures Follows(r, PlanWith(cur, new_, new_.Keys, Placed(cur, new_, order)), UpdateIn(r, cur, new_, removals, order, env))
  {
    RemoveStaleFollows(r, cur, new_, removals);
    NothingPlacedYet(cur, new_);
    ReconcilingPlaces(r, cur, new_, RemoveStale(r, new_, removals), order, env);
  }

  // ---- The result tells what was placed ---------------------------------------------------------------

  ghost predicate HasEntry(s: Registry, id: string) {
    (exists p :: p in s.tcp && s.tcp[p].info.id == id) || (exists p :: p in s.udp && s.udp[p].info.id == id) || id in s.cronOnly
  }

  lemma {:induction false} PlannedHasEntry(r: Registry, plans: Plans, s: Registry, id: string)
    requires Follows(r, plans, s)
    ensures HasEntry(s, id) <==> id in plans
  {
    if id in plans {
      if plans[id].info.ports != [] {
        var p := PortsOf(plans[id].info, Tcp)[0].listenPort;
        assert p in Declared(PortsOf(plans[id].info, Tcp)) && p in s.tcp && s.tcp[p].info.id == id;
      } else if plans[id].info.udpPorts != [] {
        var p := PortsOf(plans[id].info, Udp)[0].listenPort;
        assert p in Declared(PortsOf(plans[id].info, Udp)) && p in s.udp && s.udp[p].info.id == id;
      }
    }
  }

  /** Two updates leave the same entries exactly when they place the same targets. */
  lemma {:induction false} SameEntriesSamePlaced(r: Registry, cur: Targets, new_: Targets, placed: set<string>, s: Registry,
                                                 placed': set<string>, t: Registry)
    requires Follows(r, PlanWith(cur, new_, new_.Keys, placed), s) && Follows(r, PlanWith(cur, new_, new_.Keys, placed'), t)
    requires forall x :: x in placed ==> x in new_ && Changed(cur, new_, x)
    requires forall x :: x in placed' ==> x in new_ && Changed(cur, new_, x)
    ensures SameEntries(s, t) <==> placed == placed'
  {
    if placed == placed' {
      FollowsIsUnique(r, PlanWith(cur, new_, new_.Keys, placed), s, t);
    } else if SameEntries(s, t) {
      forall x ensures x in placed <==> x in placed' {
        PlannedHasEntry(r, PlanWith(cur, new_, new_.Keys, placed), s, x);
        PlannedHasEntry(r, PlanWith(cur, new_, new_.Keys, placed'), t, x);
      }
    }
  }

  // ---- The exact condition ---------------------------------------------------------------------------------

  /** The changed target overlaps nothing that another retained target held before the update. */
  ghost predicate Unobstructed(cur: Targets, new_: Targets, x: string) {
    && x in new_ && Changed(cur, new_, x)
    && forall y :: y in new_ && y != x && y in cur ==> Disjoint(new_[x], cur[y])
  }

  /** Whatever the order, something is in the way of x: an unchanged target, or one that holds a port of x before and after. */
  ghost predicate Blocked(cur: Targets, new_: Targets, x: string)
    requires x in new_
  {
    exists y :: y in new_ && y != x && y in cur && !Disjoint(new_[x], cur[y])
                && (!Changed(cur, new_, y) || (Unobstructed(cur, new_, y) && !Disjoint(new_[x], new_[y])))
  }

  ghost predicate Settled(cur: Targets, new_: Targets) {
    && (forall a, b :: Unobstructed(cur, new_, a) && Unobstructed(cur, new_, b) && a != b ==> Disjoint(new_[a], new_[b]))
    && (forall x :: x in new_ && Changed(cur, new_, x) && !Unobstructed(cur, new_, x) ==> Blocked(cur, new_, x))
  }

  lemma {:induction false} SettledTurn(cur: Targets, new_: Targets, done: set<string>, placed: set<string>, x: string)
    requires Settled(cur, new_) && x in new_ && Changed(cur, new_, x) && x !in done
    requires forall y :: y in placed <==> y in done && Unobstructed(cur, new_, y)
    ensures FitsIn(cur, new_, done, placed, x) <==> Unobstructed(cur, new_, x)
  {
    if Unobstructed(cur, new_, x) {
      forall y | y in new_ && y != x ensures OutOfTheWay(cur, new_, done, placed, x, y) {
      }
    } else {
      var y :| y in new_ && y != x && y in cur && !Disjoint(new_[x], cur[y])
               && (!Changed(cur, new_, y) || (Unobstructed(cur, new_, y) && !Disjoint(new_[x], new_[y])));
      assert !OutOfTheWay(cur, new_, done, placed, x, y);
    }
  }

  lemma {:induction false} SettledPlaces(cur: Targets, new_: Targets, order: seq<string>)
    requires Settled(cur, new_) && NoDuplicates(order) && forall i :: 0 <= i < |order| ==> order[i] in new_
    ensures forall x :: x in Placed(cur, new_, order) <==> x in Keys(order) && Unobstructed(cur, new_, x)
  {
    if order != [] {
      var front, x := order[..|order| - 1], order[|order| - 1];
      SettledPlaces(cur, new_, front);
      LastIsNew(order);
      if Changed(cur, new_, x) {
        SettledTurn(cur, new_, Keys(front), Placed(cur, new_, front), x);
      }
    }
  }

  /** Reconciling the new targets places the same ones in every order. */
  ghost predicate PlacesTheSame(cur: Targets, new_: Targets) {
    forall a, b :: WholeOrder(new_, a) && WholeOrder(new_, b) ==> Placed(cur, new_, a) == Placed(cur, new_, b)
  }

  ghost predicate WholeOrder(new_: Targets, order: seq<string>) {
    Keys(order) == new_.Keys && NoDuplicates(order) && forall i :: 0 <= i < |order| ==> order[i] in new_
  }

  /** Going on with an order keeps what is placed and places no more of what came before. */
  lemma {:induction false} PlacedGrows(cur: Targets, new_: Targets, a: seq<string>, b: seq<string>, x: string)
    requires forall i :: 0 <= i < |a + b| ==> (a + b)[i] in new_
    requires forall i :: 0 <= i < |a| ==> a[i] in new_
    requires x !in Keys(b)
    ensures x in Placed(cur, new_, a + b) <==> x in Placed(cur, new_, a)
    decreases |b|
  {
    if b == [] {
      assert a + b == a;
    } else {
      var front, last := b[..|b| - 1], b[|b| - 1];
      assert (a + b)[..|a + b| - 1] == a + front && (a + b)[|a + b| - 1] == last;
      assert Keys(b) == Keys(front) + {last};
      PlacedGrows(cur, new_, a, front, x);
    }
  }

  lemma {:induction false} PlacedSubset(cur: Targets, new_: Targets, a: seq<string>, b: seq<string>)
    requires forall i :: 0 <= i < |a + b| ==> (a + b)[i] in new_
    requires forall i :: 0 <= i < |a| ==> a[i] in new_
    ensures Placed(cur, new_, a) <= Placed(cur, new_, a + b)
    decreases |b|
  {
    if b == [] {
      assert a + b == a;
    } else {
      assert (a + b)[..|a + b| - 1] == a + b[..|b| - 1];
      PlacedSubset(cur, new_, a, b[..|b| - 1]);
    }
  }

  lemma {:induction false} KeysConcat(a: seq<string>, b: seq<string>)
    ensures Keys(a + b) == Keys(a) + Keys(b)
    decreases |b|
  {
    if b == [] {
      assert a + b == a;
    } else {
      assert (a + b)[..|a + b| - 1] == a + b[..|b| - 1];
      KeysConcat(a, b[..|b| - 1]);
    }
  }

  /** A beginning can be continued to a whole order. */
  lemma Continue(new_: Targets, a: seq<string>) returns (b: seq<string>)
    requires NoDuplicates(a) && Keys(a) <= new_.Keys
    ensures WholeOrder(new_, a + b) && Keys(a) !! Keys(b)
  {
    b := SomeOrder(new_.Keys - Keys(a));
    KeysConcat(a, b);
    assert forall i :: 0 <= i < |a| ==> a[i] in Keys(a);
    assert forall i :: 0 <= i < |b| ==> b[i] in Keys(b);
  }

  /** The target reconciled last is placed exactly if it fits then. */
  lemma {:induction false} PlacedLast(cur: Targets, new_: Targets, front: seq<string>, x: string)
    requires (forall i :: 0 <= i < |front| ==> front[i] in new_) && x in new_ && x !in Keys(front)
    requires forall i :: 0 <= i < |front + [x]| ==> (front + [x])[i] in new_
    ensures x in Placed(cur, new_, front + [x]) <==>
              Changed(cur, new_, x) && FitsIn(cur, new_, Keys(front), Placed(cur, new_, front), x)
  {
    assert (front + [x])[..|front|] == front;
  }

  /** A beginning and one more target, continued to a whole order. */
  lemma ContinueAfter(new_: Targets, front: seq<string>, x: string) returns (b: seq<string>)
    requires NoDuplicates(front) && Keys(front) <= new_.Keys && x in new_ && x !in Keys(front)
    ensures WholeOrder(new_, front + [x] + b) && x !in Keys(b)
  {
    OneMoreInOrder(front, x);
    b := Continue(new_, front + [x]);
    assert x in Keys(front + [x]);
  }

  /** If all orders place the same, a changed target is placed exactly when it fits after this beginning. */
  lemma {:induction false} PlacedAfter(cur: Targets, new_: Targets, front: seq<string>, x: string, order: seq<string>)
    requires PlacesTheSame(cur, new_) && WholeOrder(new_, order)
    requires NoDuplicates(front) && Keys(front) <= new_.Keys && (forall i :: 0 <= i < |front| ==> front[i] in new_)
    requires x in new_ && x !in Keys(front) && Changed(cur, new_, x)
    ensures x in Placed(cur, new_, order) <==> FitsIn(cur, new_, Keys(front), Placed(cur, new_, front), x)
    ensures Placed(cur, new_, front) <= Placed(cur, new_, order)
  {
    var b := ContinueAfter(new_, front, x);
    var a := front + [x];
    assert Placed(cur, new_, a + b) == Placed(cur, new_, order);
    PlacedAtTurn(cur, new_, front, x, b);
  }

  lemma {:induction false} PlacedAtTurn(cur: Targets, new_: Targets, front: seq<string>, x: string, b: seq<string>)
    requires forall i :: 0 <= i < |front + [x] + b| ==> (front + [x] + b)[i] in new_
    requires (forall i :: 0 <= i < |front| ==> front[i] in new_) && x in new_ && Changed(cur, new_, x)
    requires x !in Keys(front) && x !in Keys(b)
    ensures x in Placed(cur, new_, front + [x] + b) <==> FitsIn(cur, new_, Keys(front), Placed(cur, new_, front), x)
    ensures Placed(cur, new_, front) <= Placed(cur, new_, front + [x] + b)
  {
    var a := front + [x];
    forall i | 0 <= i < |a| ensures a[i] in new_ {
      assert a[i] == (a + b)[i];
    }
    PlacedGrows(cur, new_, a, b, x);
    PlacedLast(cur, new_, front, x);
    PlacedSubset(cur, new_, front, [x]);
    PlacedSubset(cur, new_, a, b);
  }

  lemma PlacedIsUnobstructed(cur: Targets, new_: Targets, x: string, order: seq<string>)
    requires PlacesTheSame(cur, new_) && WholeOrder(new_, order) && x in new_ && Changed(cur, new_, x)
    ensures x in Placed(cur, new_, order) <==> Unobstructed(cur, new_, x)
  {
    PlacedAfter(cur, new_, [], x, order);
    assert Keys([]) == {};
    if Unobstructed(cur, new_, x) {
      assert forall y :: y in new_ && y != x ==> OutOfTheWay(cur, new_, {}, {}, x, y);
    } else {
      var y :| y in new_ && y != x && y in cur && !Disjoint(new_[x], cur[y]);
      assert !OutOfTheWay(cur, new_, {}, {}, x, y);
    }
  }

  lemma UnobstructedAreDisjoint(cur: Targets, new_: Targets, a: string, b: string, order: seq<string>)
    requires PlacesTheSame(cur, new_) && WholeOrder(new_, order)
    requires Unobstructed(cur, new_, a) && Unobstructed(cur, new_, b) && a != b
    ensures Disjoint(new_[b], new_[a])
  {
    assert [a][..0] == [] && Keys([a]) == {a};
    PlacedIsUnobstructed(cur, new_, b, order);
    PlacedAfter(cur, new_, [a], b, order);
    assert forall y :: y in new_ && y != a ==> OutOfTheWay(cur, new_, {}, {}, a, y);
    PlacedLast(cur, new_, [], a);
    assert [] + [a] == [a] && a in Placed(cur, new_, [a]);
    assert OutOfTheWay(cur, new_, {a}, Placed(cur, new_, [a]), b, a);
  }

  /** The changed targets that have to give way, or to be turned away, before x. */
  ghost function Before(cur: Targets, new_: Targets, x: string): (r: set<string>)
    requires x in new_
  {
    set y | y in new_ && y != x && Changed(cur, new_, y)
            && !(Unobstructed(cur, new_, y) && (y in cur ==> Disjoint(new_[x], cur[y])))
  }

  lemma ObstructedIsBlocked(cur: Targets, new_: Targets, x: string, order: seq<string>)
    requires PlacesTheSame(cur, new_) && WholeOrder(new_, order)
    requires x in new_ && Changed(cur, new_, x) && !Unobstructed(cur, new_, x)
    ensures Blocked(cur, new_, x)
  {
    var front := SomeOrder(Before(cur, new_, x));
    assert forall i :: 0 <= i < |front| ==> front[i] in Keys(front);
    PlacedIsUnobstructed(cur, new_, x, order);
    PlacedAfter(cur, new_, front, x, order);
    var placed := Placed(cur, new_, front);
    var y :| y in new_ && y != x && !OutOfTheWay(cur, new_, Keys(front), placed, x, y);
    if y in placed {
      PlacedIsUnobstructed(cur, new_, y, order);
      assert y in Before(cur, new_, x) && Unobstructed(cur, new_, y);
      assert y in cur && !Disjoint(new_[x], cur[y]) && !Disjoint(new_[x], new_[y]);
    } else {
      assert y in cur && !Disjoint(new_[x], cur[y]) && !Changed(cur, new_, y);
    }
  }

  lemma PlacesTheSameExactly(cur: Targets, new_: Targets)
    ensures PlacesTheSame(cur, new_) <==> Settled(cur, new_)
  {
    if Settled(cur, new_) {
      forall a, b | WholeOrder(new_, a) && WholeOrder(new_, b) ensures Placed(cur, new_, a) == Placed(cur, new_, b) {
        SettledPlaces(cur, new_, a);
        SettledPlaces(cur, new_, b);
      }
    } else if PlacesTheSame(cur, new_) {
      var order := SomeOrder(new_.Keys);
      assert forall i :: 0 <= i < |order| ==> order[i] in Keys(order);
      forall a, b | Unobstructed(cur, new_, a) && Unobstructed(cur, new_, b) && a != b ensures Disjoint(new_[a], new_[b]) {
        UnobstructedAreDisjoint(cur, new_, b, a, order);
      }
      forall x | x in new_ && Changed(cur, new_, x) && !Unobstructed(cur, new_, x) ensures Blocked(cur, new_, x) {
        ObstructedIsBlocked(cur, new_, x, order);
      }
    }
  }

  /** Whatever the orders, the listeners and port-less entries come out the same. */
  ghost predicate EntriesIndependent(r: Registry, cur: Targets, new_: Targets, env: Listens) {
    forall removals, order, removals', order' :: Orders(cur, new_, removals, order) && Orders(cur, new_, removals', order') ==>
      SameEntries(UpdateIn(r, cur, new_, removals, order, env), UpdateIn(r, cur, new_, removals', order', env))
  }

  lemma OrdersAgreeExactly(r: Registry, cur: Targets, new_: Targets, env: Listens, removals: seq<string>, order: seq<string>,
                           removals': seq<string>, order': seq<string>)
    requires Consistent(r, cur) && Given(cur, new_, env)
    requires Orders(cur, new_, removals, order) && Orders(cur, new_, removals', order')
    ensures WholeOrder(new_, order) && WholeOrder(new_, order')
    ensures SameEntries(UpdateIn(r, cur, new_, removals, order, env), UpdateIn(r, cur, new_, removals', order', env)) <==>
              Placed(cur, new_, order) == Placed(cur, new_, order')
  {
    OrderIsNew(cur, new_, removals, order);
    OrderIsNew(cur, new_, removals', order');
    UpdatePlaces(r, cur, new_, removals, order, env);
    UpdatePlaces(r, cur, new_, removals', order', env);
    SameEntriesSamePlaced(r, cur, new_, Placed(cur, new_, order), UpdateIn(r, cur, new_, removals, order, env),
                          Placed(cur, new_, order'), UpdateIn(r, cur, new_, removals', order', env));
  }

  /**
   * From a consistent registry, all listens succeeding, an update leaves the same listeners and
   * port-less entries in every order if and only if the changed targets that overlap nothing held
   * before are disjoint, and each of the others has something in its way in every order.
   */
  lemma EntriesIndependentExactly(r: Registry, cur: Targets, new_: Targets, env: Listens)
    requires Consistent(r, cur) && Given(cur, new_, env)
    ensures EntriesIndependent(r, cur, new_, env) <==> Settled(cur, new_)
  {
    PlacesTheSameExactly(cur, new_);
    if PlacesTheSame(cur, new_) {
      forall removals, order, removals', order' | Orders(cur, new_, removals, order) && Orders(cur, new_, removals', order')
        ensures SameEntries(UpdateIn(r, cur, new_, removals, order, env), UpdateIn(r, cur, new_, removals', order', env))
      {
        OrdersAgreeExactly(r, cur, new_, env, removals, order, removals', order');
      }
    } else {
      var a, b :| WholeOrder(new_, a) && WholeOrder(new_, b) && Placed(cur, new_, a) != Placed(cur, new_, b);
      var removals := SomeOrder(cur.Keys);
      OrdersAgreeExactly(r, cur, new_, env, removals, a, removals, b);
      assert Orders(cur, new_, removals, a) && Orders(cur, new_, removals, b);
    }
  }

  /** Pairwise disjoint targets, the usual case, are settled. */
  lemma ReconcilableIsSettled(cur: Targets, new_: Targets, env: Listens)
    requires Reconcilable(cur, new_, env)
    ensures Given(cur, new_, env) && Settled(cur, new_)
  {
  }
}
