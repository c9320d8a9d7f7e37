/**
 * Stale names: entries of the name-to-id map that no registered target backs any more. Removal
 * never leaves one; a registration does exactly when it takes no entry of its own or overwrites
 * the last entry that backs another name of the container.
 */
module StaleNames {
  import opened Types
  import opened Registry
  import opened RegistryNames

  /** Some entry of the container carries the name. */
  ghost predicate Backed(r: Registry, name: string, id: string) {
    || TableBacks(r.tcp, {}, name, id)
    || TableBacks(r.udp, {}, name, id)
    || CronBacks(r.cronOnly, name, id)
  }

  /** Some listener of the container outside the given ports carries the name. */
  ghost predicate TableBacks(t: Table, except_: set<int>, name: string, id: string) {
    exists p :: p in t && p !in except_ && t[p].info.id == id && t[p].info.name == name
  }

  ghost predicate CronBacks(cron: map<string, CronState>, name: string, id: string) {
    id in cron && cron[id].info.id == id && cron[id].info.name == name
  }

  ghost predicate NoStaleName(r: Registry) {
    forall n :: n in r.names ==> Backed(r, n, r.names[n])
  }

  // ---- Removal -----------------------------------------------------------------------------------

  lemma WithoutOwnerBacks(t: Table, id: string, name: string, owner: string)
    requires owner != id
    ensures TableBacks(WithoutOwner(t, id), {}, name, owner) <==> TableBacks(t, {}, name, owner)
  {
    if TableBacks(t, {}, name, owner) {
      var p :| p in t && t[p].info.id == owner && t[p].info.name == name;
      assert p in WithoutOwner(t, id);
    }
  }

  /** A backed name of a removed container is given up. */
  lemma BackedIsReleased(r: Registry, id: string, name: string)
    requires Backed(r, name, id)
    ensures name !in Remove(r, id).names
  {
    if TableBacks(r.tcp, {}, name, id) {
      assert name in NamesOwned(r.tcp, id);
    } else if TableBacks(r.udp, {}, name, id) {
      assert name in NamesOwned(r.udp, id);
    } else {
      assert name in CronName(r, id);
    }
  }

  /** Removal never leaves a stale name. */
  lemma RemovalLeavesNoStaleName(r: Registry, id: string)
    requires NoStaleName(r)
    ensures NoStaleName(Remove(r, id))
  {
    var s := Remove(r, id);
    forall n | n in s.names ensures Backed(s, n, s.names[n]) {
      assert n in r.names && s.names[n] == r.names[n] && Backed(r, n, r.names[n]);
      if r.names[n] == id {
        BackedIsReleased(r, id, n);
      }
      WithoutOwnerBacks(r.tcp, id, n, r.names[n]);
      WithoutOwnerBacks(r.udp, id, n, r.names[n]);
    }
  }

  // ---- Registration ---------------------------------------------------------------------------------

  /** The registration gets an entry: a port it already holds or can listen on, or the port-less one. */
  ghost predicate GetsEntry(r: Registry, info: TargetInfo, env: Listens) {
    || Portless(info)
    || (exists p :: p in Declared(info.ports) && (p in r.tcp || p in env.tcp))
    || (exists p :: p in Declared(info.udpPorts) && (p in r.udp || p in env.udp))
  }

  /** Another name of the container keeps an entry that the registration does not overwrite. */
  ghost predicate KeepsBacking(r: Registry, info: TargetInfo, name: string) {
    || TableBacks(r.tcp, Declared(info.ports), name, info.id)
    || TableBacks(r.udp, Declared(info.udpPorts), name, info.id)
    || (!Portless(info) && CronBacks(r.cronOnly, name, info.id))
  }

  ghost predicate OtherNamesStay(r: Registry, info: TargetInfo) {
    forall n :: n in r.names && n != info.name && r.names[n] == info.id ==> KeepsBacking(r, info, n)
  }

  /** What a non-conflicting registration does to one table. */
  lemma {:induction false} RegisteredTable(t: Table, ports: seq<PortMapping>, info: TargetInfo, canListen: set<int>)
    ensures var u := RegisterPorts(t, ports, info, canListen);
            && (forall p :: p in u <==> p in t || (p in Declared(ports) && p in canListen))
            && (forall p :: p in u ==> if p in Declared(ports) then u[p].info == info else u[p] == t[p])
  {
    if ports != [] {
      DeclaredLast(ports);
      RegisteredTable(t, ports[..|ports| - 1], info, canListen);
    }
  }

  lemma RegisteredBacks(t: Table, ports: seq<PortMapping>, info: TargetInfo, canListen: set<int>, name: string, id: string)
    ensures TableBacks(RegisterPorts(t, ports, info, canListen), {}, name, id) <==>
              TableBacks(t, Declared(ports), name, id)
              || (name == info.name && id == info.id && exists p :: p in Declared(ports) && (p in t || p in canListen))
  {
    var u := RegisterPorts(t, ports, info, canListen);
    RegisteredTable(t, ports, info, canListen);
    if TableBacks(t, Declared(ports), name, id) {
      var p :| p in t && p !in Declared(ports) && t[p].info.id == id && t[p].info.name == name;
      assert p in u && u[p] == t[p];
    }
    if name == info.name && id == info.id {
      if p :| p in Declared(ports) && (p in t || p in canListen) {
        assert p in u && u[p].info == info;
      }
    }
    if TableBacks(u, {}, name, id) {
      var p :| p in u && u[p].info.id == id && u[p].info.name == name;
      assert p !in Declared(ports) ==> p in t && t[p] == u[p];
    }
  }

  /** Entries of other containers are not among those a registration overwrites. */
  lemma OthersKeepBacking(t: Table, ports: seq<PortMapping>, info: TargetInfo, name: string, id: string)
    requires !Conflict(t, ports, info.id) && id != info.id
    ensures TableBacks(t, Declared(ports), name, id) <==> TableBacks(t, {}, name, id)
  {
    if TableBacks(t, {}, name, id) {
      var p :| p in t && t[p].info.id == id && t[p].info.name == name;
      assert p !in Declared(ports);
    }
  }

  /** When a name is backed after a registration. */
  lemma BackedAfter(r: Registry, info: TargetInfo, env: Listens, name: string, id: string)
    requires !Conflicts(r, info)
    ensures id != info.id ==> (Backed(Register(r, info, env), name, id) <==> Backed(r, name, id))
    ensures id == info.id ==>
      (Backed(Register(r, info, env), name, id) <==> KeepsBacking(r, info, name) || (name == info.name && GetsEntry(r, info, env)))
  {
    RegisteredBacks(r.tcp, info.ports, info, env.tcp, name, id);
    RegisteredBacks(r.udp, info.udpPorts, info, env.udp, name, id);
    if id != info.id {
      OthersKeepBacking(r.tcp, info.ports, info, name, id);
      OthersKeepBacking(r.udp, info.udpPorts, info, name, id);
    }
  }

  /**
   * Without stale names before, a registration that does not conflict leaves none exactly when it
   * gets an entry, or the name it binds is backed anyway, and the container's other names stay backed.
   */
  lemma RegistrationLeavesNoStaleNameExactly(r: Registry, info: TargetInfo, env: Listens)
    requires NoStaleName(r) && !Conflicts(r, info)
    ensures NoStaleName(Register(r, info, env)) <==>
              (GetsEntry(r, info, env) || KeepsBacking(r, info, info.name)) && OtherNamesStay(r, info)
  {
    var s := Register(r, info, env);
    forall n | n in s.names
      ensures Backed(s, n, s.names[n]) <==>
        if n == info.name then GetsEntry(r, info, env) || KeepsBacking(r, info, info.name)
        else r.names[n] == info.id ==> KeepsBacking(r, info, n)
    {
      BackedAfter(r, info, env, n, s.names[n]);
      assert n != info.name ==> n in r.names && s.names[n] == r.names[n] && Backed(r, n, r.names[n]);
    }
    assert info.name in s.names;
    assert forall n :: n in r.names && n != info.name ==> n in s.names;
  }

  // ---- Runs -------------------------------------------------------------------------------------------

  /** Every registration of the run conflicts or meets that condition. */
  ghost predicate CleanRegistrations(ops: seq<Op>) {
    forall i :: 0 <= i < |ops| && ops[i].RegisterOp? ==> CleanAt(Run(EMPTY, ops[..i]), ops[i].info, ops[i].env)
  }

  ghost predicate CleanAt(r: Registry, info: TargetInfo, env: Listens) {
    Conflicts(r, info) || ((GetsEntry(r, info, env) || KeepsBacking(r, info, info.name)) && OtherNamesStay(r, info))
  }

  lemma {:induction false} CleanRunsLeaveNoStaleName(ops: seq<Op>)
    requires CleanRegistrations(ops)
    ensures NoStaleName(Run(EMPTY, ops))
  {
    if ops != [] {
      var front, last := ops[..|ops| - 1], ops[|ops| - 1];
      assert CleanRegistrations(front) by {
        assert forall i :: 0 <= i < |front| ==> front[i] == ops[i] && front[..i] == ops[..i];
      }
      CleanRunsLeaveNoStaleName(front);
      var r := Run(EMPTY, front);
      match last
      case RegisterOp(info, env) =>
        assert CleanAt(r, info, env);
        if !Conflicts(r, info) {
          RegistrationLeavesNoStaleNameExactly(r, info, env);
        }
      case RemoveOp(id) => RemovalLeavesNoStaleName(r, id);
    }
  }
}
