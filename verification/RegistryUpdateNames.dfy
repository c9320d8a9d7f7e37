/**
 * The name-to-id map under an update. Unlike the listeners it can depend on the order in which
 * the maps are walked; these lemmas say exactly when it does not, and what it then holds.
 */
module RegistryUpdateNames {
  import opened Types
  import opened Registry
  import opened RegistryUpdate

  /** names holds exactly the names of the targets, each leading to its target. */
  ghost predicate NamesFit(cur: Targets, names: map<string, string>) {
    && (forall n :: n in names ==> names[n] in cur && cur[names[n]].name == n)
    && (forall id :: id in cur ==> cur[id].name in names && names[cur[id].name] == id)
  }

  /** No changed target takes a name that another changed target takes or still has. */
  ghost predicate NamesSeparate(cur: Targets, new_: Targets) {
    forall a, b :: a in new_ && b in new_ && a != b && Changed(cur, new_, a) && Changed(cur, new_, b) ==> NamesApart(cur, new_, a, b)
  }

  ghost predicate NamesApart(cur: Targets, new_: Targets, a: string, b: string)
    requires a in new_ && b in new_
  {
    new_[a].name != new_[b].name && (b in cur ==> new_[a].name != cur[b].name)
  }

  /** The container has been reconciled, and had to be. */
  predicate Renewed(cur: Targets, new_: Targets, done: set<string>, id: string) {
    id in new_ && id in done && Changed(cur, new_, id)
  }

  /** While the targets in `done` have been reconciled, the name n leads to the container id. */
  ghost predicate LeadsTo(cur: Targets, new_: Targets, done: set<string>, n: string, id: string) {
    if Renewed(cur, new_, done, id) then new_[id].name == n
    else id in new_ && id in cur && cur[id].name == n && forall a :: Renewed(cur, new_, done, a) ==> new_[a].name != n
  }

  ghost predicate NamesAt(cur: Targets, new_: Targets, done: set<string>, names: map<string, string>) {
    forall n, id :: (n in names && names[n] == id) <==> LeadsTo(cur, new_, done, n, id)
  }

  lemma NamesAtIsUnique(cur: Targets, new_: Targets, done: set<string>, a: map<string, string>, b: map<string, string>)
    requires NamesAt(cur, new_, done, a) && NamesAt(cur, new_, done, b)
    ensures a == b
  {
    forall n | n in a ensures n in b && b[n] == a[n] {
      assert LeadsTo(cur, new_, done, n, a[n]);
    }
    forall n | n in b ensures n in a {
      assert LeadsTo(cur, new_, done, n, b[n]);
    }
  }

  // ---- The names while the update goes on --------------------------------------------------------

  /** after is before, without the names that lead to a container in gone. */
  ghost predicate WithoutIds(before: map<string, string>, gone: set<string>, after: map<string, string>) {
    && (forall n :: n in after <==> n in before && before[n] !in gone)
    && (forall n :: n in after ==> after[n] == before[n])
  }

  lemma {:induction false} StaleNames(r: Registry, cur: Targets, new_: Targets, order: seq<string>)
    requires Consistent(r, cur) && NamesFit(cur, r.names)
    ensures WithoutIds(r.names, Keys(order) - new_.Keys, RemoveStale(r, new_, order).names)
  {
    if order != [] {
      var front, id := order[..|order| - 1], order[|order| - 1];
      var gone := Keys(front) - new_.Keys;
      var s := RemoveStale(r, new_, front);
      StaleNames(r, cur, new_, front);
      if id in new_ {
        assert Keys(order) - new_.Keys == gone;
      } else {
        assert Keys(order) - new_.Keys == gone + {id};
        RemoveStaleFollows(r, cur, new_, front);
        RemovedName(r, RemovalPlan(cur, gone), s, id);
        StaleName(r.names, cur, s.names, gone, id);
      }
    }
  }

  /** One more container gone, and its name with it. */
  lemma {:induction false} StaleName(before: map<string, string>, cur: Targets, names: map<string, string>, gone: set<string>, id: string)
    requires NamesFit(cur, before) && WithoutIds(before, gone, names)
    ensures WithoutIds(before, gone + {id},
                       names - (if id in RemovalPlan(cur, gone) then {RemovalPlan(cur, gone)[id].info.name} else {}))
  {
  }

  lemma {:induction false} NamesAfterRemoval(r: Registry, cur: Targets, new_: Targets, removals: seq<string>)
    requires Consistent(r, cur) && NamesFit(cur, r.names) && Keys(removals) == cur.Keys
    ensures NamesAt(cur, new_, {}, RemoveStale(r, new_, removals).names)
  {
    StaleNames(r, cur, new_, removals);
    RemainingNames(cur, new_, r.names, RemoveStale(r, new_, removals).names);
  }

  lemma RemainingNames(cur: Targets, new_: Targets, before: map<string, string>, names: map<string, string>)
    requires NamesFit(cur, before) && WithoutIds(before, cur.Keys - new_.Keys, names)
    ensures NamesAt(cur, new_, {}, names)
  {
    forall n, id ensures (n in names && names[n] == id) <==> LeadsTo(cur, new_, {}, n, id) {
      assert !Renewed(cur, new_, {}, id);
    }
  }

  ghost predicate DistinctNames(cur: Targets) {
    forall a, b :: a in cur && b in cur && a != b ==> cur[a].name != cur[b].name
  }

  function Renamed(names: map<string, string>, cur: Targets, info: TargetInfo): map<string, string> {
    (names - (if info.id in cur then {cur[info.id].name} else {}))[info.name := info.id]
  }

  /** Before a target present in the registry is registered again its former name is given up. */
  lemma {:induction false} ReleasedName(r: Registry, cur: Targets, new_: Targets, done: set<string>, s: Registry, id: string)
    requires id in new_ && id !in done && id in cur && Follows(r, PlanAfter(cur, new_, done), s)
    ensures Remove(s, id).names == s.names - {cur[id].name}
    ensures Follows(r, PlanAfter(cur, new_, done) - {id}, Remove(s, id))
  {
    var plans := PlanAfter(cur, new_, done);
    assert plans[id] == Keep(cur[id]);
    RemovedName(r, plans, s, id);
    RemoveFollows(r, plans, s, id);
  }

  lemma {:induction false} TakenName(r: Registry, cur: Targets, new_: Targets, done: set<string>, t: Registry, id: string, env: Listens)
    requires Reconcilable(cur, new_, env) && id in new_ && Changed(cur, new_, id)
    requires Follows(r, PlanAfter(cur, new_, done) - {id}, t)
    ensures Register(t, new_[id], env).names == t.names[new_[id].name := id]
  {
    var rest := PlanAfter(cur, new_, done) - {id};
    ChangedIsDisjoint(cur, new_, done, id, env);
    DisjointIsFree(r, rest, t, new_[id]);
    PlaceFollows(r, rest, t, new_[id], env);
  }

  /** What reconciling one changed target does to the names. */
  lemma {:induction false} ReconciledNames(r: Registry, cur: Targets, new_: Targets, done: set<string>, s: Registry, id: string, env: Listens)
    requires Reconcilable(cur, new_, env) && id in new_ && id !in done && Follows(r, PlanAfter(cur, new_, done), s)
    ensures Reconcile(s, cur, new_, id, env).names == if Changed(cur, new_, id) then Renamed(s.names, cur, new_[id]) else s.names
  {
    if Changed(cur, new_, id) {
      PlanAfterGrows(cur, new_, done, id);
      if id in cur {
        ReleasedName(r, cur, new_, done, s, id);
        TakenName(r, cur, new_, done, Remove(s, id), id, env);
      } else {
        assert s.names - {} == s.names;
        TakenName(r, cur, new_, done, s, id, env);
      }
    }
  }

  /** With separate names the map depends only on which targets have been reconciled. */
  lemma NamesAtGrows(cur: Targets, new_: Targets, done: set<string>, names: map<string, string>, id: string)
    requires DistinctNames(cur) && NamesSeparate(cur, new_) && NamesAt(cur, new_, done, names)
    requires id in new_ && id !in done && new_[id].id == id && Changed(cur, new_, id)
    ensures NamesAt(cur, new_, done + {id}, Renamed(names, cur, new_[id]))
  {
    var after := Renamed(names, cur, new_[id]);
    forall n, v ensures (n in after && after[n] == v) <==> LeadsTo(cur, new_, done + {id}, n, v) {
      assert Renewed(cur, new_, done + {id}, id);
      assert forall a :: Renewed(cur, new_, done + {id}, a) <==> Renewed(cur, new_, done, a) || a == id;
      assert (n in names && names[n] == v) <==> LeadsTo(cur, new_, done, n, v);
      if v in new_ && v != id && Changed(cur, new_, v) {
        assert NamesApart(cur, new_, v, id) && NamesApart(cur, new_, id, v);
      }
    }
  }

  lemma UnchangedKeepsNamesAt(cur: Targets, new_: Targets, done: set<string>, names: map<string, string>, id: string)
    requires NamesAt(cur, new_, done, names) && id in new_ && !Changed(cur, new_, id)
    ensures NamesAt(cur, new_, done + {id}, names)
  {
    assert forall a :: Renewed(cur, new_, done + {id}, a) <==> Renewed(cur, new_, done, a);
    forall n, v ensures (n in names && names[n] == v) <==> LeadsTo(cur, new_, done + {id}, n, v) {
      assert (n in names && names[n] == v) <==> LeadsTo(cur, new_, done, n, v);
    }
  }

  lemma {:induction false} NamesWhileReconciling(r: Registry, cur: Targets, new_: Targets, s: Registry, order: seq<string>, env: Listens)
    requires Reconcilable(cur, new_, env) && Follows(r, PlanAfter(cur, new_, {}), s)
    requires DistinctNames(cur) && NamesSeparate(cur, new_) && NamesAt(cur, new_, {}, s.names)
    requires NoDuplicates(order) && forall i :: 0 <= i < |order| ==> order[i] in new_
    ensures NamesAt(cur, new_, Keys(order), ReconcileAll(s, cur, new_, order, env).names)
  {
    if order == [] {
      assert Keys(order) == {};
    } else {
      var front, id := order[..|order| - 1], order[|order| - 1];
      var before := ReconcileAll(s, cur, new_, front, env);
      NamesWhileReconciling(r, cur, new_, s, front, env);
      ReconcileAllFollows(r, cur, new_, s, front, env);
      LastIsNew(order);
      ReconciledNames(r, cur, new_, Keys(front), before, id, env);
      if Changed(cur, new_, id) {
        NamesAtGrows(cur, new_, Keys(front), before.names, id);
      } else {
        UnchangedKeepsNamesAt(cur, new_, Keys(front), before.names, id);
      }
    }
  }

  /** With separate names every order ends with the same names. */
  lemma UpdateNames(r: Registry, cur: Targets, new_: Targets, removals: seq<string>, registrations: seq<string>, env: Listens)
    requires Consistent(r, cur) && NamesFit(cur, r.names) && Reconcilable(cur, new_, env) && NamesSeparate(cur, new_)
    requires Orders(cur, new_, removals, registrations)
    ensures NamesAt(cur, new_, new_.Keys, UpdateIn(r, cur, new_, removals, registrations, env).names)
  {
    RemoveStaleFollows(r, cur, new_, removals);
    RemovalLeadsToReconciliation(cur, new_);
    NamesAfterRemoval(r, cur, new_, removals);
    assert forall i :: 0 <= i < |registrations| ==> registrations[i] in Keys(registrations);
    NamesWhileReconciling(r, cur, new_, RemoveStale(r, new_, removals), registrations, env);
  }

  // ---- The exact condition ----------------------------------------------------------------------------

  /** Whatever the orders, the whole registry comes out the same. */
  ghost predicate OrderIndependent(r: Registry, cur: Targets, new_: Targets, env: Listens) {
    forall removals, registrations, removals', registrations' ::
      Orders(cur, new_, removals, registrations) && Orders(cur, new_, removals', registrations') ==>
      UpdateIn(r, cur, new_, removals, registrations, env) == UpdateIn(r, cur, new_, removals', registrations', env)
  }

  lemma OneMoreInOrder(front: seq<string>, id: string)
    requires NoDuplicates(front) && id !in Keys(front)
    ensures NoDuplicates(front + [id]) && Keys(front + [id]) == Keys(front) + {id}
  {
    assert (front + [id])[..|front|] == front;
    assert forall i :: 0 <= i < |front| ==> front[i] in Keys(front);
  }

  lemma {:induction false} SomeOrder(ids: set<string>) returns (order: seq<string>)
    ensures Keys(order) == ids && NoDuplicates(order)
    decreases ids
  {
    if ids == {} {
      order := [];
    } else {
      var id :| id in ids;
      var front := SomeOrder(ids - {id});
      OneMoreInOrder(front, id);
      order := front + [id];
    }
  }

  /** An order that ends with the given container. */
  lemma OrderEndingWith(ids: set<string>, last: string) returns (order: seq<string>)
    requires last in ids
    ensures Keys(order) == ids && NoDuplicates(order) && order != [] && order[|order| - 1] == last
  {
    var front := SomeOrder(ids - {last});
    OneMoreInOrder(front, last);
    order := front + [last];
  }

  /** The state in which the last container of the order is reconciled. */
  function BeforeLast(r: Registry, cur: Targets, new_: Targets, removals: seq<string>, registrations: seq<string>, env: Listens): Registry
    requires Keys(registrations) == new_.Keys && registrations != []
  {
    assert forall i :: 0 <= i < |registrations| ==> registrations[i] in Keys(registrations);
    ReconcileAll(RemoveStale(r, new_, removals), cur, new_, registrations[..|registrations| - 1], env)
  }

  lemma {:induction false} BeforeLastFollows(r: Registry, cur: Targets, new_: Targets, env: Listens, removals: seq<string>, registrations: seq<string>)
    requires Consistent(r, cur) && Reconcilable(cur, new_, env) && Orders(cur, new_, removals, registrations) && registrations != []
    ensures var done := Keys(registrations[..|registrations| - 1]);
            && registrations[|registrations| - 1] !in done
            && Follows(r, PlanAfter(cur, new_, done), BeforeLast(r, cur, new_, removals, registrations, env))
  {
    assert forall i :: 0 <= i < |registrations| ==> registrations[i] in Keys(registrations);
    RemoveStaleFollows(r, cur, new_, removals);
    RemovalLeadsToReconciliation(cur, new_);
    ReconcileAllFollows(r, cur, new_, RemoveStale(r, new_, removals), registrations[..|registrations| - 1], env);
    LastIsNew(registrations);
  }

  /** The changed target reconciled last has its new name, and nothing is left under its former one. */
  lemma {:induction false} LastTakesItsName(r: Registry, cur: Targets, new_: Targets, env: Listens,
                                            removals: seq<string>, registrations: seq<string>, id: string)
    requires Consistent(r, cur) && Reconcilable(cur, new_, env) && Orders(cur, new_, removals, registrations)
    requires registrations != [] && registrations[|registrations| - 1] == id && id in new_ && Changed(cur, new_, id)
    ensures var names := UpdateIn(r, cur, new_, removals, registrations, env).names;
            && new_[id].name in names && names[new_[id].name] == id
            && (id in cur && cur[id].name in names ==> names[cur[id].name] == id)
  {
    var s := BeforeLast(r, cur, new_, removals, registrations, env);
    assert UpdateIn(r, cur, new_, removals, registrations, env) == Reconcile(s, cur, new_, id, env);
    BeforeLastFollows(r, cur, new_, env, removals, registrations);
    ReconciledNames(r, cur, new_, Keys(registrations[..|registrations| - 1]), s, id, env);
  }

  lemma SharedNameDependsOnOrder(r: Registry, cur: Targets, new_: Targets, env: Listens, a: string, b: string)
    requires Consistent(r, cur) && Reconcilable(cur, new_, env) && a in new_ && b in new_ && a != b
    requires Changed(cur, new_, a) && Changed(cur, new_, b) && !NamesApart(cur, new_, a, b)
    ensures !OrderIndependent(r, cur, new_, env)
  {
    var removals := SomeOrder(cur.Keys);
    var endsA := OrderEndingWith(new_.Keys, a);
    var endsB := OrderEndingWith(new_.Keys, b);
    LastTakesItsName(r, cur, new_, env, removals, endsA, a);
    LastTakesItsName(r, cur, new_, env, removals, endsB, b);
    assert Orders(cur, new_, removals, endsA) && Orders(cur, new_, removals, endsB);
    assert UpdateIn(r, cur, new_, removals, endsA, env) != UpdateIn(r, cur, new_, removals, endsB, env);
  }

  /**
   * From a consistent registry an update leaves the same registry, names included, in every order
   * exactly when no changed target takes a name that another changed one takes or still has.
   */
  lemma UpdateOrderIrrelevantExactly(r: Registry, cur: Targets, new_: Targets, env: Listens)
    requires Consistent(r, cur) && NamesFit(cur, r.names) && Reconcilable(cur, new_, env)
    ensures OrderIndependent(r, cur, new_, env) <==> NamesSeparate(cur, new_)
  {
    if NamesSeparate(cur, new_) {
      forall removals, registrations, removals', registrations'
        | Orders(cur, new_, removals, registrations) && Orders(cur, new_, removals', registrations')
        ensures UpdateIn(r, cur, new_, removals, registrations, env) == UpdateIn(r, cur, new_, removals', registrations', env)
      {
        UpdateOrderIrrelevant(r, cur, new_, env, removals, registrations, removals', registrations');
        UpdateNames(r, cur, new_, removals, registrations, env);
        UpdateNames(r, cur, new_, removals', registrations', env);
        NamesAtIsUnique(cur, new_, new_.Keys, UpdateIn(r, cur, new_, removals, registrations, env).names,
                        UpdateIn(r, cur, new_, removals', registrations', env).names);
      }
    } else {
      var a, b :| a in new_ && b in new_ && a != b && Changed(cur, new_, a) && Changed(cur, new_, b) && !NamesApart(cur, new_, a, b);
      SharedNameDependsOnOrder(r, cur, new_, env, a, b);
    }
  }

  /** The smallest case: two new targets without ports that share a name. */
  lemma NewNamesakesDependOnOrder(a: TargetInfo, b: TargetInfo, env: Listens)
    requires a.id != b.id && a.name == b.name && Portless(a) && Portless(b)
    ensures !OrderIndependent(EMPTY, map[], map[a.id := a, b.id := b], env)
  {
    var new_ := map[a.id := a, b.id := b];
    EmptyIsConsistent();
    assert Declared([]) == {};
    assert Reconcilable(map[], new_, env);
    assert !NamesApart(map[], new_, a.id, b.id);
    UpdateOrderIrrelevantExactly(EMPTY, map[], new_, env);
  }

  // ---- What the names then are -------------------------------------------------------------------------

  /** The names again fit the registered targets exactly when these have different names. */
  lemma UpdateKeepsNames(r: Registry, cur: Targets, new_: Targets, removals: seq<string>, registrations: seq<string>, env: Listens)
    requires Consistent(r, cur) && NamesFit(cur, r.names) && Reconcilable(cur, new_, env) && NamesSeparate(cur, new_)
    requires Orders(cur, new_, removals, registrations)
    ensures NamesFit(Effective(cur, new_), UpdateIn(r, cur, new_, removals, registrations, env).names) <==>
            DistinctNames(Effective(cur, new_))
  {
    var names := UpdateIn(r, cur, new_, removals, registrations, env).names;
    UpdateNames(r, cur, new_, removals, registrations, env);
    if DistinctNames(Effective(cur, new_)) {
      DistinctNamesFit(cur, new_, names);
    }
  }

  lemma DistinctNamesFit(cur: Targets, new_: Targets, names: map<string, string>)
    requires DistinctNames(Effective(cur, new_)) && NamesAt(cur, new_, new_.Keys, names)
    ensures NamesFit(Effective(cur, new_), names)
  {
    var eff := Effective(cur, new_);
    forall n | n in names ensures names[n] in eff && eff[names[n]].name == n {
      assert LeadsTo(cur, new_, new_.Keys, n, names[n]);
    }
    forall id | id in eff ensures eff[id].name in names && names[eff[id].name] == id {
      assert forall a :: Renewed(cur, new_, new_.Keys, a) ==> eff[a].name == new_[a].name;
      assert LeadsTo(cur, new_, new_.Keys, eff[id].name, id);
    }
  }

  lemma NamesFitIsUnique(cur: Targets, a: map<string, string>, b: map<string, string>)
    requires NamesFit(cur, a) && NamesFit(cur, b)
    ensures a == b
  {
    forall n | n in a ensures n in b && b[n] == a[n] {
      assert a[n] in cur;
    }
    forall n | n in b ensures n in a {
      assert b[n] in cur;
    }
  }

  lemma SameNamesFit(cur: Targets, more: Targets, names: map<string, string>)
    requires NamesFit(cur, names)
    requires cur.Keys == more.Keys && forall id :: id in cur ==> more[id].name == cur[id].name
    ensures NamesFit(more, names)
  {
  }

  ghost predicate UnchangedKeepNames(cur: Targets, new_: Targets) {
    forall id :: id in new_ && !Changed(cur, new_, id) ==> cur[id].name == new_[id].name
  }

  lemma EffectiveNames(cur: Targets, new_: Targets)
    requires DistinctNames(new_) && UnchangedKeepNames(cur, new_)
    ensures DistinctNames(Effective(cur, new_))
    ensures Effective(cur, new_).Keys == new_.Keys && forall id :: id in new_ ==> Effective(cur, new_)[id].name == new_[id].name
  {
  }

  /** If the new targets have different names and unchanged ones keep theirs, an update leaves exactly the new names. */
  lemma {:induction false} UpdateInstallsNames(r: Registry, cur: Targets, new_: Targets,
                                               removals: seq<string>, registrations: seq<string>, env: Listens)
    requires Consistent(r, cur) && NamesFit(cur, r.names) && Reconcilable(cur, new_, env) && NamesSeparate(cur, new_)
    requires DistinctNames(new_) && UnchangedKeepNames(cur, new_) && Orders(cur, new_, removals, registrations)
    ensures NamesFit(new_, UpdateIn(r, cur, new_, removals, registrations, env).names)
  {
    EffectiveNames(cur, new_);
    UpdateKeepsNames(r, cur, new_, removals, registrations, env);
    SameNamesFit(Effective(cur, new_), new_, UpdateIn(r, cur, new_, removals, registrations, env).names);
  }

  /** Those are then the names that registering the new targets from nothing would leave. */
  lemma {:induction false} NamesAreThoseOfFreshRegistration(r: Registry, cur: Targets, new_: Targets, env: Listens,
                                         removals: seq<string>, registrations: seq<string>, order: seq<string>)
    requires Consistent(r, cur) && NamesFit(cur, r.names) && Reconcilable(cur, new_, env) && Reconcilable(map[], new_, env)
    requires NamesSeparate(cur, new_) && DistinctNames(new_) && UnchangedKeepNames(cur, new_)
    requires Orders(cur, new_, removals, registrations) && Orders(map[], new_, [], order)
    ensures UpdateIn(r, cur, new_, removals, registrations, env).names == UpdateIn(EMPTY, map[], new_, [], order, env).names
  {
    EmptyIsConsistent();
    UpdateInstallsNames(r, cur, new_, removals, registrations, env);
    UpdateInstallsNames(EMPTY, map[], new_, [], order, env);
    NamesFitIsUnique(new_, UpdateIn(r, cur, new_, removals, registrations, env).names, UpdateIn(EMPTY, map[], new_, [], order, env).names);
  }
}
