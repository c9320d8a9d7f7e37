/**
 * The registry of targets: registration and removal as transitions on values, and what
 * every run of them keeps. TCP and UDP listeners live in two tables of the same shape.
 */
module Registry {
  import opened Types

  /** One listener's runtime state; `activity` counts its open connections or flows. */
  datatype Mapping = Mapping(
    info: TargetInfo,
    targetPort: int,
    running: bool,
    missing: bool,
    activity: nat,
    lastActive: int)

  type Table = map<int, Mapping>

  datatype CronState = CronState(info: TargetInfo, running: bool)

  datatype Registry = Registry(
    tcp: Table,
    udp: Table,
    names: map<string, string>,
    cronOnly: map<string, CronState>)

  /** The ports on which a listen call succeeds at the time of a registration. */
  datatype Listens = Listens(tcp: set<int>, udp: set<int>)

  const EMPTY := Registry(map[], map[], map[], map[])

  // ---- Registration ---------------------------------------------------------------

  function Fresh(info: TargetInfo, targetPort: int): Mapping {
    Mapping(info, targetPort, info.running, info.missing, 0, 0)
  }

  function RegisterPort(t: Table, m: PortMapping, info: TargetInfo, canListen: set<int>): Table {
    if m.listenPort in t then
      t[m.listenPort := t[m.listenPort].(info := info, targetPort := m.targetPort, running := info.running, missing := info.missing)]
    else if m.listenPort in canListen then t[m.listenPort := Fresh(info, m.targetPort)]
    else t
  }

  function RegisterPorts(t: Table, ports: seq<PortMapping>, info: TargetInfo, canListen: set<int>): Table {
    if ports == [] then t
    else RegisterPort(RegisterPorts(t, ports[..|ports| - 1], info, canListen), ports[|ports| - 1], info, canListen)
  }

  /** The listen ports of the mappings. */
  function Declared(ports: seq<PortMapping>): (r: set<int>)
    ensures forall p :: p in r <==> exists i :: 0 <= i < |ports| && ports[i].listenPort == p
  {
    set i | 0 <= i < |ports| :: ports[i].listenPort
  }

  lemma DeclaredLast(ports: seq<PortMapping>)
    requires ports != []
    ensures Declared(ports) == Declared(ports[..|ports| - 1]) + {ports[|ports| - 1].listenPort}
  {
    var front := ports[..|ports| - 1];
    assert ports == front + [ports[|ports| - 1]];
    assert forall i :: 0 <= i < |front| ==> front[i].listenPort == ports[i].listenPort;
  }

  /** Some declared port is held by another container. */
  predicate Conflict(t: Table, ports: seq<PortMapping>, id: string) {
    exists i :: 0 <= i < |ports| && ports[i].listenPort in t && t[ports[i].listenPort].info.id != id
  }

  predicate Conflicts(r: Registry, info: TargetInfo) {
    Conflict(r.tcp, info.ports, info.id) || Conflict(r.udp, info.udpPorts, info.id)
  }

  predicate Portless(info: TargetInfo) {
    info.ports == [] && info.udpPorts == []
  }

  function Register(r: Registry, info: TargetInfo, env: Listens): Registry {
    if Conflicts(r, info) then r
    else
      Registry(
        RegisterPorts(r.tcp, info.ports, info, env.tcp),
        RegisterPorts(r.udp, info.udpPorts, info, env.udp),
        r.names[info.name := info.id],
        if Portless(info) then r.cronOnly[info.id := CronState(info, info.running)] else r.cronOnly)
  }

  // ---- Removal -------------------------------------------------------------------------

  function WithoutOwner(t: Table, id: string): Table {
    map p | p in t && t[p].info.id != id :: t[p]
  }

  function NamesOwned(t: Table, id: string): set<string> {
    set p | p in t && t[p].info.id == id :: t[p].info.name
  }

  function CronName(r: Registry, id: string): set<string> {
    if id in r.cronOnly then {r.cronOnly[id].info.name} else {}
  }

  function Remove(r: Registry, id: string): Registry {
    Registry(
      WithoutOwner(r.tcp, id),
      WithoutOwner(r.udp, id),
      r.names - (NamesOwned(r.tcp, id) + NamesOwned(r.udp, id) + CronName(r, id)),
      r.cronOnly - {id})
  }

  // ---- Runs ---------------------------------------------------------------------------

  datatype Op = RegisterOp(info: TargetInfo, env: Listens) | RemoveOp(id: string)

  function Apply(r: Registry, op: Op): Registry {
    match op
    case RegisterOp(info, env) => Register(r, info, env)
    case RemoveOp(id) => Remove(r, id)
  }

  function Run(r: Registry, ops: seq<Op>): Registry {
    if ops == [] then r else Apply(Run(r, ops[..|ops| - 1]), ops[|ops| - 1])
  }

  /** A conflicting registration changes nothing; any other one binds its name and takes every port it can. */
  lemma ConflictingRegistrationIsVoid(r: Registry, info: TargetInfo, env: Listens)
    ensures Conflicts(r, info) ==> Register(r, info, env) == r
    ensures !Conflicts(r, info) ==>
      var s := Register(r, info, env);
      && info.name in s.names && s.names[info.name] == info.id
      && (forall i :: 0 <= i < |info.ports| && (info.ports[i].listenPort in r.tcp || info.ports[i].listenPort in env.tcp) ==>
            info.ports[i].listenPort in s.tcp && s.tcp[info.ports[i].listenPort].info == info)
      && (forall i :: 0 <= i < |info.udpPorts| && (info.udpPorts[i].listenPort in r.udp || info.udpPorts[i].listenPort in env.udp) ==>
            info.udpPorts[i].listenPort in s.udp && s.udp[info.udpPorts[i].listenPort].info == info)
  {
    RegisterPortsTake(r.tcp, info.ports, info, env.tcp);
    RegisterPortsTake(r.udp, info.udpPorts, info, env.udp);
  }

  lemma {:induction false} RegisterPortsTake(t: Table, ports: seq<PortMapping>, info: TargetInfo, canListen: set<int>)
    ensures var u := RegisterPorts(t, ports, info, canListen);
            && t.Keys <= u.Keys
            && (forall i :: 0 <= i < |ports| && (ports[i].listenPort in t || ports[i].listenPort in canListen) ==>
                  ports[i].listenPort in u && u[ports[i].listenPort].info == info)
  {
    if ports != [] {
      var front, last := ports[..|ports| - 1], ports[|ports| - 1];
      RegisterPortsTake(t, front, info, canListen);
      var mid := RegisterPorts(t, front, info, canListen);
      var u := RegisterPorts(t, ports, info, canListen);
      forall i | 0 <= i < |ports| && (ports[i].listenPort in t || ports[i].listenPort in canListen)
        ensures ports[i].listenPort in u && u[ports[i].listenPort].info == info
      {
        if i < |front| {
          assert front[i] == ports[i];
          assert ports[i].listenPort in mid && mid[ports[i].listenPort].info == info;
        }
      }
    }
  }

  // ---- Entries declare their ports -----------------------------------------------------

  ghost predicate DeclaresPort(ports: seq<PortMapping>, p: int, target: int) {
    PortMapping(p, target) in ports
  }

  ghost predicate TcpDeclared(t: Table) {
    forall p :: p in t ==> DeclaresPort(t[p].info.ports, p, t[p].targetPort)
  }

  ghost predicate UdpDeclared(t: Table) {
    forall p :: p in t ==> DeclaresPort(t[p].info.udpPorts, p, t[p].targetPort)
  }

  /** Every entry is either untouched, or carries the new info with a mapping that info declares. */
  lemma {:induction false} RegisterPortsShape(t: Table, ports: seq<PortMapping>, info: TargetInfo, canListen: set<int>)
    ensures var u := RegisterPorts(t, ports, info, canListen);
            forall p :: p in u ==> (p in t && u[p] == t[p]) || (u[p].info == info && PortMapping(p, u[p].targetPort) in ports)
  {
    if ports != [] {
      var front, last := ports[..|ports| - 1], ports[|ports| - 1];
      RegisterPortsShape(t, front, info, canListen);
      assert ports == front + [last];
    }
  }

  /** Over every run each entry's own info declares that port with the entry's current target port. */
  lemma {:induction false} EntriesDeclareTheirPort(r: Registry, ops: seq<Op>)
    requires TcpDeclared(r.tcp) && UdpDeclared(r.udp)
    ensures TcpDeclared(Run(r, ops).tcp) && UdpDeclared(Run(r, ops).udp)
  {
    if ops != [] {
      EntriesDeclareTheirPort(r, ops[..|ops| - 1]);
      var before := Run(r, ops[..|ops| - 1]);
      match ops[|ops| - 1]
      case RegisterOp(info, env) =>
        RegisterPortsShape(before.tcp, info.ports, info, env.tcp);
        RegisterPortsShape(before.udp, info.udpPorts, info, env.udp);
      case RemoveOp(_) =>
    }
  }

  // ---- Owners change only through removal ----------------------------------------------

  predicate OwnedBy(t: Table, p: int, id: string) {
    p in t && t[p].info.id == id
  }

  lemma {:induction false} RegisterPortsKeepOwners(t: Table, ports: seq<PortMapping>, info: TargetInfo, canListen: set<int>)
    requires !Conflict(t, ports, info.id)
    ensures forall p :: p in t ==> OwnedBy(RegisterPorts(t, ports, info, canListen), p, t[p].info.id)
  {
    if ports != [] {
      var front, last := ports[..|ports| - 1], ports[|ports| - 1];
      assert !Conflict(t, front, info.id) by {
        assert forall i :: 0 <= i < |front| ==> front[i] == ports[i];
      }
      RegisterPortsKeepOwners(t, front, info, canListen);
      assert last == ports[|ports| - 1];
    }
  }

  /** Only removing its owner ever takes a port away from that owner. */
  lemma StepKeepsOwners(r: Registry, op: Op, p: int, id: string)
    ensures op != RemoveOp(id) && OwnedBy(r.tcp, p, id) ==> OwnedBy(Apply(r, op).tcp, p, id)
    ensures op != RemoveOp(id) && OwnedBy(r.udp, p, id) ==> OwnedBy(Apply(r, op).udp, p, id)
  {
    if op.RegisterOp? && !Conflicts(r, op.info) {
      RegisterPortsKeepOwners(r.tcp, op.info.ports, op.info, op.env.tcp);
      RegisterPortsKeepOwners(r.udp, op.info.udpPorts, op.info, op.env.udp);
    }
  }

  /** If a port no longer belongs to its former owner, the run removed that owner in between. */
  lemma {:induction false} OwnerChangesOnlyByRemoval(r: Registry, ops: seq<Op>, p: int, id: string)
    requires (OwnedBy(r.tcp, p, id) && !OwnedBy(Run(r, ops).tcp, p, id))
          || (OwnedBy(r.udp, p, id) && !OwnedBy(Run(r, ops).udp, p, id))
    ensures RemoveOp(id) in ops
  {
    assert ops != [];
    var front, last := ops[..|ops| - 1], ops[|ops| - 1];
    assert ops == front + [last];
    if last != RemoveOp(id) {
      StepKeepsOwners(Run(r, front), last, p, id);
      OwnerChangesOnlyByRemoval(r, front, p, id);
    }
  }
}
