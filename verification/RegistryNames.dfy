/** The name-to-id map over runs of registrations and removals: when exactly it can be relied on. */
module RegistryNames {
  import opened Types
  import opened Registry

  ghost predicate Resolves(r: Registry, info: TargetInfo) {
    info.name in r.names && r.names[info.name] == info.id
  }

  /** Some listener, or the port-less entry, of the container carries this info. */
  ghost predicate Holds(r: Registry, info: TargetInfo) {
    || (exists p :: p in r.tcp && r.tcp[p].info == info)
    || (exists p :: p in r.udp && r.udp[p].info == info)
    || (info.id in r.cronOnly && r.cronOnly[info.id].info == info)
  }

  ghost predicate NamesResolve(r: Registry) {
    forall info :: Holds(r, info) ==> Resolves(r, info)
  }

  ghost predicate RegistersOnly(ops: seq<Op>, infos: set<TargetInfo>) {
    forall i :: 0 <= i < |ops| && ops[i].RegisterOp? ==> ops[i].info in infos
  }

  /** Two targets that can never both be registered: each declares exactly the other's ports, and there are some. */
  ghost predicate Rivals(a: TargetInfo, b: TargetInfo) {
    !Portless(a) && Declared(a.ports) == Declared(b.ports) && Declared(a.udpPorts) == Declared(b.udpPorts)
  }

  /** Targets of one name with different ids are rivals. */
  ghost predicate NamesakesExclude(infos: set<TargetInfo>) {
    forall a, b :: a in infos && b in infos && a.name == b.name && a.id != b.id ==> Rivals(a, b)
  }

  // ---- Enough: namesakes exclude each other ---------------------------------------------------

  /** What every run keeps: known infos on their declared ports, no namesakes side by side, every name resolving. */
  ghost predicate Inv(r: Registry, infos: set<TargetInfo>) {
    && TcpDeclared(r.tcp) && UdpDeclared(r.udp)
    && (forall id :: id in r.cronOnly ==> r.cronOnly[id].info.id == id && Portless(r.cronOnly[id].info))
    && (forall info :: Holds(r, info) ==> info in infos && Resolves(r, info))
  }

  lemma RivalHolds(r: Registry, infos: set<TargetInfo>, held: TargetInfo, info: TargetInfo)
    requires Inv(r, infos) && NamesakesExclude(infos) && Holds(r, held) && info in infos
    requires held.name == info.name && held.id != info.id
    ensures Conflicts(r, info)
  {
    assert Rivals(held, info);
    if p :| p in r.tcp && r.tcp[p].info == held {
      assert DeclaresPort(held.ports, p, r.tcp[p].targetPort);
      assert p in Declared(info.ports);
    } else if p :| p in r.udp && r.udp[p].info == held {
      assert DeclaresPort(held.udpPorts, p, r.udp[p].targetPort);
      assert p in Declared(info.udpPorts);
    }
  }

  lemma RegisteredInfos(r: Registry, info: TargetInfo, env: Listens, other: TargetInfo)
    requires Holds(Register(r, info, env), other)
    ensures other == info || Holds(r, other)
  {
    RegisterPortsShape(r.tcp, info.ports, info, env.tcp);
    RegisterPortsShape(r.udp, info.udpPorts, info, env.udp);
  }

  lemma RegisterKeeps(r: Registry, info: TargetInfo, env: Listens, infos: set<TargetInfo>)
    requires Inv(r, infos) && NamesakesExclude(infos) && info in infos
    ensures Inv(Register(r, info, env), infos)
  {
    if !Conflicts(r, info) {
      var t := Register(r, info, env);
      RegisterPortsShape(r.tcp, info.ports, info, env.tcp);
      RegisterPortsShape(r.udp, info.udpPorts, info, env.udp);
      forall other | Holds(t, other) ensures other in infos && Resolves(t, other) {
        RegisteredInfos(r, info, env, other);
        if other.name == info.name && other.id != info.id {
          RivalHolds(r, infos, other, info);
        }
      }
    }
  }

  lemma RemovedInfos(r: Registry, id: string, other: TargetInfo)
    requires Holds(Remove(r, id), other)
    ensures Holds(r, other)
    ensures (forall c :: c in r.cronOnly ==> r.cronOnly[c].info.id == c) ==> other.id != id
  {
  }

  /** A name is given up only with an entry of the container removed. */
  lemma GoneNames(r: Registry, id: string, name: string)
    requires forall c :: c in r.cronOnly ==> r.cronOnly[c].info.id == c
    requires name in NamesOwned(r.tcp, id) + NamesOwned(r.udp, id) + CronName(r, id)
    ensures exists info :: Holds(r, info) && info.id == id && info.name == name
  {
    if name in NamesOwned(r.tcp, id) {
      var p :| p in r.tcp && r.tcp[p].info.id == id && r.tcp[p].info.name == name;
      assert Holds(r, r.tcp[p].info);
    } else if name in NamesOwned(r.udp, id) {
      var p :| p in r.udp && r.udp[p].info.id == id && r.udp[p].info.name == name;
      assert Holds(r, r.udp[p].info);
    } else {
      assert Holds(r, r.cronOnly[id].info);
    }
  }

  lemma RemoveKeeps(r: Registry, id: string, infos: set<TargetInfo>)
    requires Inv(r, infos)
    ensures Inv(Remove(r, id), infos)
  {
    var t := Remove(r, id);
    forall other | Holds(t, other) ensures other in infos && Resolves(t, other) {
      RemovedInfos(r, id, other);
      if other.name in NamesOwned(r.tcp, id) + NamesOwned(r.udp, id) + CronName(r, id) {
        GoneNames(r, id, other.name);
      }
    }
  }

  lemma {:induction false} NamesResolveOverRuns(ops: seq<Op>, infos: set<TargetInfo>)
    requires NamesakesExclude(infos) && RegistersOnly(ops, infos)
    ensures Inv(Run(EMPTY, ops), infos) && NamesResolve(Run(EMPTY, ops))
  {
    if ops != [] {
      var front, last := ops[..|ops| - 1], ops[|ops| - 1];
      NamesResolveOverRuns(front, infos);
      match last
      case RegisterOp(info, env) => RegisterKeeps(Run(EMPTY, front), info, env, infos);
      case RemoveOp(id) => RemoveKeeps(Run(EMPTY, front), id, infos);
    }
  }

  // ---- Needed: other namesakes can be registered side by side ----------------------------------------

  /** a can hold something that b does not declare. */
  ghost predicate CanStay(a: TargetInfo, b: TargetInfo) {
    || Portless(a)
    || (exists p :: p in Declared(a.ports) && p !in Declared(b.ports))
    || (exists p :: p in Declared(a.udpPorts) && p !in Declared(b.udpPorts))
  }

  lemma NotRivals(a: TargetInfo, b: TargetInfo)
    requires !Rivals(a, b)
    ensures CanStay(a, b) || CanStay(b, a)
  {
    if !Portless(a) && Declared(a.ports) != Declared(b.ports) {
      DifferentSets(Declared(a.ports), Declared(b.ports));
    } else if !Portless(a) {
      DifferentSets(Declared(a.udpPorts), Declared(b.udpPorts));
    }
  }

  lemma DifferentSets(x: set<int>, y: set<int>)
    requires x != y
    ensures (exists p :: p in x && p !in y) || (exists p :: p in y && p !in x)
  {
    if forall p: int :: p in x <==> p in y {
      SameElements(x, y);
    }
  }

  lemma SameElements(x: set<int>, y: set<int>)
    requires forall p: int :: p in x <==> p in y
    ensures x == y
  {
    forall p: int | p in x ensures p in y {
    }
    forall p: int | p in y ensures p in x {
    }
  }

  /** On an otherwise empty registry a takes what it can of the ports open to it. */
  lemma FirstTakes(a: TargetInfo, env: Listens)
    ensures var r := Register(EMPTY, a, env);
            && (forall p :: p in r.tcp ==> p in env.tcp && r.tcp[p].info == a)
            && (forall p :: p in r.udp ==> p in env.udp && r.udp[p].info == a)
            && (forall p :: p in Declared(a.ports) && p in env.tcp ==> p in r.tcp)
            && (forall p :: p in Declared(a.udpPorts) && p in env.udp ==> p in r.udp)
            && (Portless(a) ==> r.cronOnly == map[a.id := CronState(a, a.running)])
  {
    RegisterPortsTake(EMPTY.tcp, a.ports, a, env.tcp);
    RegisterPortsTake(EMPTY.udp, a.udpPorts, a, env.udp);
    OnlyOpenPorts(a.ports, a, env.tcp);
    OnlyOpenPorts(a.udpPorts, a, env.udp);
  }

  lemma {:induction false} OnlyOpenPorts(ports: seq<PortMapping>, info: TargetInfo, canListen: set<int>)
    ensures var u := RegisterPorts(map[], ports, info, canListen); forall p :: p in u ==> p in canListen && u[p].info == info
  {
    if ports != [] {
      OnlyOpenPorts(ports[..|ports| - 1], info, canListen);
    }
  }

  /** The ports on which a, and not b, can be given a listener. */
  lemma Opening(a: TargetInfo, b: TargetInfo) returns (env: Listens)
    requires CanStay(a, b)
    ensures var r := Register(EMPTY, a, env); Holds(r, a) && !Conflicts(r, b)
  {
    if Portless(a) {
      env := Listens({}, {});
    } else if p :| p in Declared(a.ports) && p !in Declared(b.ports) {
      env := Listens({p}, {});
    } else {
      var p :| p in Declared(a.udpPorts) && p !in Declared(b.udpPorts);
      env := Listens({}, {p});
    }
    FirstTakes(a, env);
    forall i | 0 <= i < |b.ports| ensures b.ports[i].listenPort !in Register(EMPTY, a, env).tcp {
      assert b.ports[i].listenPort in Declared(b.ports);
    }
    forall i | 0 <= i < |b.udpPorts| ensures b.udpPorts[i].listenPort !in Register(EMPTY, a, env).udp {
      assert b.udpPorts[i].listenPort in Declared(b.udpPorts);
    }
  }

  /** The earlier of two namesakes stays registered, and its name leads to the later one. */
  lemma NamesakeTakesOver(a: TargetInfo, b: TargetInfo, infos: set<TargetInfo>)
    requires a in infos && b in infos && a.name == b.name && a.id != b.id && CanStay(a, b)
    ensures exists ops :: RegistersOnly(ops, infos) && !NamesResolve(Run(EMPTY, ops))
  {
    var env := Opening(a, b);
    var none := Listens({}, {});
    var ops := [RegisterOp(a, env), RegisterOp(b, none)];
    assert ops[..1] == [RegisterOp(a, env)] && ops[..1][..0] == [];
    var r := Register(EMPTY, a, env);
    assert Run(EMPTY, ops[..1]) == r;
    assert Run(EMPTY, ops) == Register(r, b, none);
    StaysBeside(r, a, b, none);
    assert Holds(Register(r, b, none), a) && !Resolves(Register(r, b, none), a);
  }

  lemma StaysBeside(r: Registry, a: TargetInfo, b: TargetInfo, env: Listens)
    requires Holds(r, a) && a.id != b.id && !Conflicts(r, b)
    ensures Holds(Register(r, b, env), a)
  {
    var t := Register(r, b, env);
    RegisterPortsKeepInfo(r.tcp, b.ports, b, env.tcp);
    RegisterPortsKeepInfo(r.udp, b.udpPorts, b, env.udp);
    if p :| p in r.tcp && r.tcp[p].info == a {
      assert p in t.tcp && t.tcp[p].info == a;
    } else if p :| p in r.udp && r.udp[p].info == a {
      assert p in t.udp && t.udp[p].info == a;
    }
  }

  lemma {:induction false} RegisterPortsKeepInfo(t: Table, ports: seq<PortMapping>, info: TargetInfo, canListen: set<int>)
    requires !Conflict(t, ports, info.id)
    ensures forall p :: p in t && t[p].info.id != info.id ==>
              p in RegisterPorts(t, ports, info, canListen) && RegisterPorts(t, ports, info, canListen)[p] == t[p]
  {
    if ports != [] {
      var front := ports[..|ports| - 1];
      assert !Conflict(t, front, info.id) by {
        assert forall i :: 0 <= i < |front| ==> front[i] == ports[i];
      }
      RegisterPortsKeepInfo(t, front, info, canListen);
      assert ports[|ports| - 1].listenPort in t ==> t[ports[|ports| - 1].listenPort].info.id == info.id;
    }
  }

  /**
   * Every registered target's name resolves to its id, over every run that registers only these
   * targets, exactly when any two of them with one name and different ids declare the same ports.
   */
  lemma NamesResolveExactly(infos: set<TargetInfo>)
    ensures NamesakesExclude(infos) <==> forall ops :: RegistersOnly(ops, infos) ==> NamesResolve(Run(EMPTY, ops))
  {
    if NamesakesExclude(infos) {
      forall ops | RegistersOnly(ops, infos) ensures NamesResolve(Run(EMPTY, ops)) {
        NamesResolveOverRuns(ops, infos);
      }
    } else {
      var a, b :| a in infos && b in infos && a.name == b.name && a.id != b.id && !Rivals(a, b);
      NotRivals(a, b);
      if CanStay(a, b) {
        NamesakeTakesOver(a, b, infos);
      } else {
        NamesakeTakesOver(b, a, infos);
      }
    }
  }

  /** In any registry that holds two namesakes, removing one leaves the other with a name that does not resolve. */
  lemma SharedNameIsLost(r: Registry, a: TargetInfo, b: TargetInfo)
    requires Holds(r, a) && Holds(r, b) && a.id != b.id && a.name == b.name
    ensures Holds(Remove(r, a.id), b) && b.name !in Remove(r, a.id).names
  {
    var t := Remove(r, a.id);
    if p :| p in r.tcp && r.tcp[p].info == b {
      assert t.tcp[p].info == b;
    } else if p :| p in r.udp && r.udp[p].info == b {
      assert t.udp[p].info == b;
    }
    if p :| p in r.tcp && r.tcp[p].info == a {
      assert a.name in NamesOwned(r.tcp, a.id);
    } else if p :| p in r.udp && r.udp[p].info == a {
      assert a.name in NamesOwned(r.udp, a.id);
    }
  }
}
