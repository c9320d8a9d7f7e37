/** Allocator and configuration builder together: from a host spec to the router that serves it. */
module TraefikAllocation {
  import opened Text
  import opened PortAllocation
  import opened TraefikNames
  import TraefikOptions
  import opened TraefikConfig

  /** Reading back a printed host yields its domain for its own port, and for no other port. */
  lemma PrintedHostParses(domain: string, port: int, listenPort: int)
    requires domain != "" && MIN_INT <= port <= MAX_INT
    ensures MatchEntry(PrintHost(domain, port), listenPort) == (if listenPort == port then Some(domain) else None)
  {
    var entry := PrintHost(domain, port);
    var digits := Decimal(port);
    NoColonInDecimal(port);
    LastColon(domain, digits);
    assert entry[|domain| + 1..] == digits && entry[..|domain|] == domain;
    AtoiInverts(port);
  }

  /** All entries of the given kind were printed by the allocator, and none is out of Go's int range. */
  ghost predicate AllPrinted(st: State, kind: Kind, snaps: seq<TraefikOptions.Snapshot>) {
    forall snap, entry :: snap in snaps && entry in Hosts(kind, snap) ==> Printed(st, entry)
  }

  ghost predicate Printed(st: State, entry: string) {
    exists d :: d in st.portOf && st.portOf[d] <= MAX_INT && entry == PrintHost(d, st.portOf[d])
  }

  /**
   * End to end. After any run of claims and allocations from a non-negative base, let the
   * snapshots' entries be allocator output and let the web endpoint not sit on an allocated
   * port. Then a domain whose entry is listed under its own listen port is recovered
   * exactly, owns the router under its key, and that router's service is its assigned port:
   * no other domain's router has taken its place.
   */
  lemma AllocatedDomainIsRouted(base: int, ops: seq<Op>, cfg: Settings, snaps: seq<TraefikOptions.Snapshot>,
                                kind: Kind, snap: TraefikOptions.Snapshot, domain: string)
    requires base >= 0
    requires var st := Run(Start(base), ops);
             && AllPrinted(st, kind, snaps)
             && domain in st.portOf && st.portOf[domain] <= MAX_INT
             && snap in snaps && snap.listenPort == st.portOf[domain]
             && PrintHost(domain, st.portOf[domain]) in Hosts(kind, snap)
             && (cfg.webHost != "" ==> cfg.webPort >= 0 && cfg.webPort !in st.portOf.Values)
    ensures var port := Run(Start(base), ops).portOf[domain];
            var sec := SectionOf(ConfigFor(cfg, snaps), kind); var key := RouterKey(domain, port);
            && MatchEntry(PrintHost(domain, port), port) == Some(domain)
            && key in sec.routers && ReadRule(sec.routers[key].rule) == Some((kind, domain))
            && ServesPort(sec, sec.routers[key].service, kind, cfg.proxyHost, port)
  {
    var st := Run(Start(base), ops);
    RunKeeps(Start(base), ops);
    var port := st.portOf[domain];
    RuleReads(kind, domain);
    AddressLeads(kind, cfg.proxyHost, port);
    var c := ConfigFor(cfg, snaps);
    var key := RouterKey(domain, port);
    PrintedHostParses(domain, port, port);
    EntryHasRouter(cfg, snaps, kind, snap, PrintHost(domain, port), domain);
    EveryRouterIsExplained(cfg, snaps, kind, key);
    assert domain in st.portOf.Keys && port in st.portOf.Values;
    if kind.Http? && IsWebRouter(cfg, c, key) {
      KeysAgree(domain, port, cfg.webHost, cfg.webPort);
      NamesSeparatePorts(domain, port, cfg.webHost, cfg.webPort);
      assert false;
    } else {
      var w :| WroteRouter(cfg, kind, snaps, OptionsOf(c), SectionOf(c, kind), key, w);
      WriterIsTheDomain(st, kind, snaps, domain, w);
    }
  }

  /** Only the domain's own entry can have written under its key. */
  lemma {:induction false} WriterIsTheDomain(st: State, kind: Kind, snaps: seq<TraefikOptions.Snapshot>, domain: string, w: Writer)
    requires Sound(st) && st.base >= 0 && AllPrinted(st, kind, snaps) && domain in st.portOf
    requires w.snap in snaps && w.entry in Hosts(kind, w.snap)
    requires MatchEntry(w.entry, w.snap.listenPort) == Some(w.domain)
    requires RouterKey(domain, st.portOf[domain]) == RouterKey(w.domain, w.snap.listenPort)
    ensures w.domain == domain && w.snap.listenPort == st.portOf[domain]
  {
    assert Printed(st, w.entry);
    var d :| d in st.portOf && st.portOf[d] <= MAX_INT && w.entry == PrintHost(d, st.portOf[d]);
    PrintedHostParses(d, st.portOf[d], w.snap.listenPort);
    KeysAgree(domain, st.portOf[domain], w.domain, w.snap.listenPort);
    NamesSeparatePorts(domain, st.portOf[domain], w.domain, w.snap.listenPort);
  }
}
