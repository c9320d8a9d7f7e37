/** The Traefik dynamic configuration: its builder and what every output satisfies. */
module TraefikConfig {
  import opened Text
  import opened TraefikNames
  import opened TraefikOptions

  /** HTTP routers match `Host`, TCP routers match `HostSNI`. */
  datatype Kind = Http | Tcp

  datatype RouterTls = RouterTls(certResolver: string, options: string)
  datatype Router = Router(rule: string, service: string, entryPoints: seq<string>, tls: Option<RouterTls>)
  datatype Service = Service(address: string, transport: string)
  datatype Section = Section(routers: map<string, Router>, services: map<string, Service>)

  datatype Timeouts = Timeouts(dial: string, responseHeader: string, idleConn: string)
  datatype Settings = Settings(
    proxyHost: string,
    entryPoint: string,
    certResolver: string,
    webHost: string,
    webPort: int,
    timeouts: Option<Timeouts>)

  datatype Config = Config(
    http: Section,
    transports: map<string, Timeouts>,
    tcp: Option<Section>,
    tls: Option<map<string, TlsOption>>)

  datatype Build = Build(http: Section, tcp: Section, options: map<string, TlsOption>)

  const EMPTY_SECTION := Section(map[], map[])
  const TRANSPORT := "lazy-transport"

  // ---- One entry ---------------------------------------------------------------

  /** The last index of c in s, or -1. */
  function LastIndex(s: string, c: char): (r: int)
    ensures -1 <= r < |s|
    ensures r >= 0 ==> s[r] == c
    ensures forall i :: r < i < |s| ==> s[i] != c
  {
    if s == "" then -1
    else if s[|s| - 1] == c then |s| - 1
    else LastIndex(s[..|s| - 1], c)
  }

  /** The domain of a `domain:port` entry, when it parses and names the given listen port. */
  function MatchEntry(entry: string, listenPort: int): Option<string> {
    var idx := LastIndex(entry, ':');
    if idx < 1 then None
    else if Atoi(entry[idx + 1..]) == Some(listenPort) then Some(entry[..idx])
    else None
  }

  function Rule(kind: Kind, domain: string): string {
    (if kind.Http? then "Host(`" else "HostSNI(`") + domain + "`)"
  }

  function Address(kind: Kind, host: string, port: int): string {
    (if kind.Http? then "http://" else "") + host + ":" + Decimal(port)
  }

  function RouterKey(domain: string, port: int): string {
    EntryName(domain, port) + "-router"
  }

  function ServiceKey(domain: string, port: int): string {
    EntryName(domain, port) + "-service"
  }

  function RouterEntryPoints(entryPoint: string): seq<string> {
    if entryPoint == "" then [] else [entryPoint]
  }

  function RouterTlsFor(certResolver: string, options: string): Option<RouterTls> {
    if certResolver == "" && options == "" then None else Some(RouterTls(certResolver, options))
  }

  predicate UseTransport(cfg: Settings) {
    cfg.timeouts.Some? && cfg.timeouts.value != Timeouts("", "", "")
  }

  function RouterFor(cfg: Settings, kind: Kind, domain: string, port: int, optName: string): Router {
    Router(Rule(kind, domain), ServiceKey(domain, port), RouterEntryPoints(cfg.entryPoint),
           RouterTlsFor(cfg.certResolver, optName))
  }

  function ServiceFor(cfg: Settings, kind: Kind, port: int): Service {
    Service(Address(kind, cfg.proxyHost, port), if kind.Http? && UseTransport(cfg) then TRANSPORT else "")
  }

  function Emit(cfg: Settings, kind: Kind, sec: Section, domain: string, port: int, optName: string): Section {
    Section(sec.routers[RouterKey(domain, port) := RouterFor(cfg, kind, domain, port, optName)],
            sec.services[ServiceKey(domain, port) := ServiceFor(cfg, kind, port)])
  }

  function EmitEntry(cfg: Settings, kind: Kind, sec: Section, entry: string, port: int, optName: string): Section {
    match MatchEntry(entry, port)
    case None => sec
    case Some(domain) => Emit(cfg, kind, sec, domain, port, optName)
  }

  // ---- Reading the generated text back -------------------------------------------------

  /** The kind and the domain that a rule matches. */
  function ReadRule(rule: string): Option<(Kind, string)> {
    if |rule| >= 8 && rule[..6] == "Host(`" && rule[|rule| - 2..] == "`)" then Some((Http, rule[6..|rule| - 2]))
    else if |rule| >= 11 && rule[..9] == "HostSNI(`" && rule[|rule| - 2..] == "`)" then Some((Tcp, rule[9..|rule| - 2]))
    else None
  }

  /** The address is that of the port on the host, as a URL exactly for HTTP. */
  ghost predicate LeadsTo(address: string, kind: Kind, host: string, port: int) {
    var colon := LastIndex(address, ':');
    && colon >= 0 && Atoi(address[colon + 1..]) == Some(port)
    && address[..colon] == match kind { case Http => "http://" + host case Tcp => host }
  }

  /** The service under the key leads to the port on the proxy host. */
  ghost predicate ServesPort(sec: Section, service: string, kind: Kind, host: string, port: int) {
    service in sec.services && LeadsTo(sec.services[service].address, kind, host, port)
  }

  lemma RuleReads(kind: Kind, domain: string)
    ensures ReadRule(Rule(kind, domain)) == Some((kind, domain))
  {
    var rule, start := Rule(kind, domain), if kind.Http? then 6 else 9;
    assert rule[..6] == if kind.Http? then "Host(`" else "HostSN";
    assert rule[start..|rule| - 2] == domain && rule[|rule| - 2..] == "`)";
    if kind.Tcp? {
      assert rule[..9] == "HostSNI(`";
      assert rule[4] == 'S' && "Host(`"[4] == '(';
    }
  }

  lemma {:induction false} LastColon(front: string, tail: string)
    requires forall i :: 0 <= i < |tail| ==> tail[i] != ':'
    ensures LastIndex(front + ":" + tail, ':') == |front|
    decreases |tail|
  {
    var s := front + ":" + tail;
    if tail == "" {
      assert s[|s| - 1] == ':';
    } else {
      assert s[..|s| - 1] == front + ":" + tail[..|tail| - 1];
      LastColon(front, tail[..|tail| - 1]);
    }
  }

  lemma NoColonInDecimal(n: int)
    ensures forall i :: 0 <= i < |Decimal(n)| ==> Decimal(n)[i] != ':'
  {
  }

  lemma AddressLeads(kind: Kind, host: string, port: int)
    requires MIN_INT <= port <= MAX_INT
    ensures LeadsTo(Address(kind, host, port), kind, host, port)
  {
    var front, tail := (if kind.Http? then "http://" else "") + host, Decimal(port);
    var address := Address(kind, host, port);
    NoColonInDecimal(port);
    LastColon(front, tail);
    assert address == front + ":" + tail;
    assert address[|front| + 1..] == tail && address[..|front|] == front;
    AtoiInverts(port);
  }

  /** An entry matches a port exactly when it is a non-empty domain, a colon and a numeral of that port without a colon. */
  lemma MatchEntryExactly(entry: string, listenPort: int, domain: string)
    ensures MatchEntry(entry, listenPort) == Some(domain) <==>
              domain != "" && exists tail :: entry == domain + ":" + tail && ':' !in tail && Atoi(tail) == Some(listenPort)
  {
    var idx := LastIndex(entry, ':');
    if MatchEntry(entry, listenPort) == Some(domain) {
      var tail := entry[idx + 1..];
      assert entry == domain + ":" + tail;
    }
    forall tail | domain != "" && entry == domain + ":" + tail && ':' !in tail && Atoi(tail) == Some(listenPort)
      ensures MatchEntry(entry, listenPort) == Some(domain)
    {
      LastColon(domain, tail);
      assert entry[|domain| + 1..] == tail && entry[..|domain|] == domain;
    }
  }

  lemma MatchedPortFits(entry: string, listenPort: int)
    requires MatchEntry(entry, listenPort).Some?
    ensures MIN_INT <= listenPort <= MAX_INT
  {
  }

  // ---- Folding over entries and snapshots ---------------------------------------------

  function Hosts(kind: Kind, snap: Snapshot): seq<string> {
    if kind.Http? then snap.hosts else snap.tcpHosts
  }

  function EmitEntries(cfg: Settings, kind: Kind, sec: Section, entries: seq<string>, port: int, optName: string): Section {
    if entries == [] then sec
    else EmitEntry(cfg, kind, EmitEntries(cfg, kind, sec, entries[..|entries| - 1], port, optName),
                   entries[|entries| - 1], port, optName)
  }

  /** The option name for a snapshot ("" when it needs none) and the options with it recorded. */
  function NameOption(options: map<string, TlsOption>, snap: Snapshot): (string, map<string, TlsOption>) {
    match TlsOptionFor(snap)
    case None => ("", options)
    case Some((name, opt)) =>
      var chosen := UniqueName(options, name, opt);
      (chosen, options[chosen := opt])
  }

  function AddSnapshot(cfg: Settings, b: Build, snap: Snapshot): Build {
    var (optName, options) := NameOption(b.options, snap);
    Build(EmitEntries(cfg, Http, b.http, snap.hosts, snap.listenPort, optName),
          EmitEntries(cfg, Tcp, b.tcp, snap.tcpHosts, snap.listenPort, optName),
          options)
  }

  function AddSnapshots(cfg: Settings, snaps: seq<Snapshot>): Build {
    if snaps == [] then Build(EMPTY_SECTION, EMPTY_SECTION, map[])
    else AddSnapshot(cfg, AddSnapshots(cfg, snaps[..|snaps| - 1]), snaps[|snaps| - 1])
  }

  function WithWebHost(cfg: Settings, http: Section): Section {
    if cfg.webHost == "" then http else Emit(cfg, Http, http, cfg.webHost, cfg.webPort, "")
  }

  function ConfigFor(cfg: Settings, snaps: seq<Snapshot>): Config {
    var b := AddSnapshots(cfg, snaps);
    Config(WithWebHost(cfg, b.http),
           if UseTransport(cfg) then map[TRANSPORT := cfg.timeouts.value] else map[],
           if |b.tcp.routers| > 0 then Some(b.tcp) else None,
           if |b.options| > 0 then Some(b.options) else None)
  }

  // ---- The builder's loops -------------------------------------------------------------

  lemma EmitOneMore(cfg: Settings, kind: Kind, sec: Section, entries: seq<string>, i: nat, port: int, optName: string)
    requires i < |entries|
    ensures EmitEntries(cfg, kind, sec, entries[..i + 1], port, optName)
         == EmitEntry(cfg, kind, EmitEntries(cfg, kind, sec, entries[..i], port, optName), entries[i], port, optName)
  {
    assert entries[..i + 1][..i] == entries[..i];
  }

  method EmitHostEntries(cfg: Settings, kind: Kind, sec: Section, entries: seq<string>, listenPort: int, optName: string)
    returns (r: Section)
    ensures r == EmitEntries(cfg, kind, sec, entries, listenPort, optName)
  {
    var routers, services := sec.routers, sec.services;
    for i := 0 to |entries|
      invariant Section(routers, services) == EmitEntries(cfg, kind, sec, entries[..i], listenPort, optName)
    {
      var entry := entries[i];
      EmitOneMore(cfg, kind, sec, entries, i, listenPort, optName);
      var idx := LastIndex(entry, ':');
      if idx < 1 {
        continue;
      }
      var domain := entry[..idx];
      var port := Atoi(entry[idx + 1..]);
      if port.None? || port.value != listenPort {
        continue;
      }
      var name := SanitiseName(domain + "-" + Decimal(port.value));
      routers := routers[name + "-router" := Router(Rule(kind, domain), name + "-service",
        RouterEntryPoints(cfg.entryPoint), RouterTlsFor(cfg.certResolver, optName))];
      services := services[name + "-service" := ServiceFor(cfg, kind, port.value)];
    }
    assert entries[..|entries|] == entries;
    r := Section(routers, services);
  }

  method BuildConfig(cfg: Settings, snaps: seq<Snapshot>) returns (r: Config)
    ensures r == ConfigFor(cfg, snaps)
  {
    var http, tcp, options := EMPTY_SECTION, EMPTY_SECTION, map[];
    for i := 0 to |snaps|
      invariant Build(http, tcp, options) == AddSnapshots(cfg, snaps[..i])
    {
      var snap := snaps[i];
      assert snaps[..i + 1][..i] == snaps[..i];
      var optName := "";
      var needed := ComputeTlsOption(snap);
      if needed.Some? {
        optName := UniqueOptionName(options, needed.value.0, needed.value.1);
        options := options[optName := needed.value.1];
      }
      http := EmitHostEntries(cfg, Http, http, snap.hosts, snap.listenPort, optName);
      tcp := EmitHostEntries(cfg, Tcp, tcp, snap.tcpHosts, snap.listenPort, optName);
    }
    assert snaps[..|snaps|] == snaps;
    if cfg.webHost != "" {
      http := Emit(cfg, Http, http, cfg.webHost, cfg.webPort, "");
    }
    r := Config(http,
                if UseTransport(cfg) then map[TRANSPORT := cfg.timeouts.value] else map[],
                if |tcp.routers| > 0 then Some(tcp) else None,
                if |options| > 0 then Some(options) else None);
  }

  // ---- Every router is explained by the entry that wrote it ------------------------------

  /** The option name a snapshot's routers carry denotes exactly the option that snapshot asked for. */
  ghost predicate OptionMatches(options: map<string, TlsOption>, snap: Snapshot, optName: string) {
    match TlsOptionFor(snap)
    case None => optName == ""
    case Some((_, opt)) => optName in options && options[optName] == opt
  }

  datatype Writer = Writer(snap: Snapshot, entry: string, domain: string, optName: string)

  /** w wrote the router under key, and the service that router names still carries w's port. */
  ghost predicate WroteRouter(cfg: Settings, kind: Kind, snaps: seq<Snapshot>, options: map<string, TlsOption>,
                              sec: Section, key: string, w: Writer)
    requires key in sec.routers
  {
    && w.snap in snaps
    && w.entry in Hosts(kind, w.snap)
    && MatchEntry(w.entry, w.snap.listenPort) == Some(w.domain)
    && key == RouterKey(w.domain, w.snap.listenPort)
    && sec.routers[key] == RouterFor(cfg, kind, w.domain, w.snap.listenPort, w.optName)
    && ServiceKey(w.domain, w.snap.listenPort) in sec.services
    && sec.services[ServiceKey(w.domain, w.snap.listenPort)] == ServiceFor(cfg, kind, w.snap.listenPort)
    && OptionMatches(options, w.snap, w.optName)
  }

  ghost predicate Explained(cfg: Settings, kind: Kind, snaps: seq<Snapshot>, options: map<string, TlsOption>, sec: Section) {
    forall key :: key in sec.routers ==> exists w :: WroteRouter(cfg, kind, snaps, options, sec, key, w)
  }

  /** The router key of an entry for the port, if it has one. */
  function KeyOf(entry: string, port: int): set<string> {
    var m := MatchEntry(entry, port);
    if m.Some? then {RouterKey(m.value, port)} else {}
  }

  function HostKeys(kind: Kind, snap: Snapshot): (r: seq<set<string>>)
    ensures |r| == |Hosts(kind, snap)| && forall i :: 0 <= i < |r| ==> r[i] == KeyOf(Hosts(kind, snap)[i], snap.listenPort)
  {
    seq(|Hosts(kind, snap)|, i requires 0 <= i < |Hosts(kind, snap)| => KeyOf(Hosts(kind, snap)[i], snap.listenPort))
  }

  function UnionBelow(keys: seq<set<string>>, n: nat): set<string>
    requires n <= |keys|
  {
    if n == 0 then {} else UnionBelow(keys, n - 1) + keys[n - 1]
  }

  lemma {:induction false} UnionHolds(keys: seq<set<string>>, n: nat, i: nat)
    requires i < n <= |keys|
    ensures keys[i] <= UnionBelow(keys, n)
  {
    if i < n - 1 {
      UnionHolds(keys, n - 1, i);
    }
  }

  function SnapshotKeys(kind: Kind, snap: Snapshot): set<string> {
    UnionBelow(HostKeys(kind, snap), |HostKeys(kind, snap)|)
  }

  /** Every matching entry still has a router under its key. */
  ghost predicate Present(kind: Kind, snaps: seq<Snapshot>, sec: Section) {
    forall snap :: snap in snaps ==> SnapshotKeys(kind, snap) <= sec.routers.Keys
  }

  lemma KeysAgree(d: string, p: int, e: string, q: int)
    ensures RouterKey(d, p) == RouterKey(e, q) <==> EntryName(d, p) == EntryName(e, q)
    ensures ServiceKey(d, p) == ServiceKey(e, q) <==> EntryName(d, p) == EntryName(e, q)
  {
    var a, b := EntryName(d, p), EntryName(e, q);
    if a + "-router" == b + "-router" {
      assert a == (a + "-router")[..|a|] == (b + "-router")[..|b|] == b;
    }
    if a + "-service" == b + "-service" {
      assert a == (a + "-service")[..|a|] == (b + "-service")[..|b|] == b;
    }
  }

  /** Writing one entry explains its own router and leaves every other explanation standing. */
  lemma {:induction false} EmitKeepsWriter(cfg: Settings, kind: Kind, snaps: seq<Snapshot>, options: map<string, TlsOption>,
                        sec: Section, domain: string, port: int, optName: string, key: string, w: Writer)
    requires key in sec.routers && WroteRouter(cfg, kind, snaps, options, sec, key, w)
    requires key != RouterKey(domain, port)
    ensures WroteRouter(cfg, kind, snaps, options, Emit(cfg, kind, sec, domain, port, optName), key, w)
  {
    KeysAgree(w.domain, w.snap.listenPort, domain, port);
  }

  lemma EmitEntryExplained(cfg: Settings, kind: Kind, snaps: seq<Snapshot>, options: map<string, TlsOption>,
                           sec: Section, snap: Snapshot, entry: string, optName: string)
    requires Explained(cfg, kind, snaps, options, sec)
    requires snap in snaps && entry in Hosts(kind, snap) && OptionMatches(options, snap, optName)
    ensures Explained(cfg, kind, snaps, options, EmitEntry(cfg, kind, sec, entry, snap.listenPort, optName))
    ensures sec.routers.Keys + KeyOf(entry, snap.listenPort)
         <= EmitEntry(cfg, kind, sec, entry, snap.listenPort, optName).routers.Keys
  {
    var m := MatchEntry(entry, snap.listenPort);
    if m.Some? {
      var port := snap.listenPort;
      var sec' := Emit(cfg, kind, sec, m.value, port, optName);
      forall key | key in sec'.routers ensures exists w :: WroteRouter(cfg, kind, snaps, options, sec', key, w) {
        if key == RouterKey(m.value, port) {
          assert WroteRouter(cfg, kind, snaps, options, sec', key, Writer(snap, entry, m.value, optName));
        } else {
          var w :| WroteRouter(cfg, kind, snaps, options, sec, key, w);
          EmitKeepsWriter(cfg, kind, snaps, options, sec, m.value, port, optName, key, w);
        }
      }
    }
  }

  /** r has grown out of sec by the first n entries of the snapshot. */
  ghost predicate GrownBy(cfg: Settings, kind: Kind, snaps: seq<Snapshot>, options: map<string, TlsOption>,
                          sec: Section, snap: Snapshot, n: nat, r: Section)
    requires n <= |Hosts(kind, snap)|
  {
    Explained(cfg, kind, snaps, options, r) && sec.routers.Keys + UnionBelow(HostKeys(kind, snap), n) <= r.routers.Keys
  }

  lemma {:induction false} GrownByOneMore(cfg: Settings, kind: Kind, snaps: seq<Snapshot>, options: map<string, TlsOption>,
                                          sec: Section, snap: Snapshot, n: nat, before: Section, optName: string)
    requires n < |Hosts(kind, snap)| && GrownBy(cfg, kind, snaps, options, sec, snap, n, before)
    requires snap in snaps && OptionMatches(options, snap, optName)
    ensures GrownBy(cfg, kind, snaps, options, sec, snap, n + 1,
                    EmitEntry(cfg, kind, before, Hosts(kind, snap)[n], snap.listenPort, optName))
  {
    var entry := Hosts(kind, snap)[n];
    EmitEntryExplained(cfg, kind, snaps, options, before, snap, entry, optName);
  }

  lemma {:induction false} EmitEntriesExplained(cfg: Settings, kind: Kind, snaps: seq<Snapshot>, options: map<string, TlsOption>,
                                                sec: Section, snap: Snapshot, n: nat, optName: string)
    requires Explained(cfg, kind, snaps, options, sec)
    requires snap in snaps && n <= |Hosts(kind, snap)| && OptionMatches(options, snap, optName)
    ensures GrownBy(cfg, kind, snaps, options, sec, snap, n,
                    EmitEntries(cfg, kind, sec, Hosts(kind, snap)[..n], snap.listenPort, optName))
    decreases n
  {
    if n > 0 {
      var hosts, m := Hosts(kind, snap), n - 1;
      EmitEntriesExplained(cfg, kind, snaps, options, sec, snap, m, optName);
      GrownByOneMore(cfg, kind, snaps, options, sec, snap, m,
                     EmitEntries(cfg, kind, sec, hosts[..m], snap.listenPort, optName), optName);
      EmitOneMore(cfg, kind, sec, hosts, m, snap.listenPort, optName);
    }
  }

  /** No recorded option is ever changed by naming another one. */
  lemma NameOptionKeeps(options: map<string, TlsOption>, snap: Snapshot)
    ensures var (optName, options') := NameOption(options, snap);
            && OptionMatches(options', snap, optName)
            && (forall n :: n in options ==> n in options' && options'[n] == options[n])
  {
  }

  lemma {:induction false} ExplainedGrows(cfg: Settings, kind: Kind, snaps: seq<Snapshot>, snap: Snapshot,
                       options: map<string, TlsOption>, options': map<string, TlsOption>, sec: Section)
    requires Explained(cfg, kind, snaps, options, sec)
    requires forall n :: n in options ==> n in options' && options'[n] == options[n]
    ensures Explained(cfg, kind, snaps + [snap], options', sec)
  {
    forall key | key in sec.routers ensures exists w :: WroteRouter(cfg, kind, snaps + [snap], options', sec, key, w) {
      var w :| WroteRouter(cfg, kind, snaps, options, sec, key, w);
      assert WroteRouter(cfg, kind, snaps + [snap], options', sec, key, w);
    }
  }

  /** One snapshot processed on top of an explained section. */
  lemma SnapshotExplained(cfg: Settings, kind: Kind, snaps: seq<Snapshot>, snap: Snapshot,
                          options: map<string, TlsOption>, sec: Section)
    requires Explained(cfg, kind, snaps, options, sec) && Present(kind, snaps, sec)
    ensures var (optName, options') := NameOption(options, snap);
            var r := EmitEntries(cfg, kind, sec, Hosts(kind, snap), snap.listenPort, optName);
            Explained(cfg, kind, snaps + [snap], options', r) && Present(kind, snaps + [snap], r)
  {
    var (optName, options') := NameOption(options, snap);
    var hosts := Hosts(kind, snap);
    NameOptionKeeps(options, snap);
    ExplainedGrows(cfg, kind, snaps, snap, options, options', sec);
    EmitEntriesExplained(cfg, kind, snaps + [snap], options', sec, snap, |hosts|, optName);
    assert hosts[..|hosts|] == hosts;
    var r := EmitEntries(cfg, kind, sec, hosts, snap.listenPort, optName);
    forall other | other in snaps + [snap] ensures SnapshotKeys(kind, other) <= r.routers.Keys {
      assert other in snaps ==> SnapshotKeys(kind, other) <= sec.routers.Keys;
    }
  }

  lemma {:induction false} SnapshotsExplained(cfg: Settings, snaps: seq<Snapshot>)
    ensures var b := AddSnapshots(cfg, snaps);
            && Explained(cfg, Http, snaps, b.options, b.http) && Present(Http, snaps, b.http)
            && Explained(cfg, Tcp, snaps, b.options, b.tcp) && Present(Tcp, snaps, b.tcp)
  {
    if snaps != [] {
      var front, snap := snaps[..|snaps| - 1], snaps[|snaps| - 1];
      SnapshotsExplained(cfg, front);
      var b := AddSnapshots(cfg, front);
      assert snaps == front + [snap];
      SnapshotExplained(cfg, Http, front, snap, b.options, b.http);
      SnapshotExplained(cfg, Tcp, front, snap, b.options, b.tcp);
    }
  }

  // ---- Main results about the output -------------------------------------------------

  function SectionOf(c: Config, kind: Kind): Section {
    if kind.Http? then c.http else if c.tcp.Some? then c.tcp.value else EMPTY_SECTION
  }

  function OptionsOf(c: Config): map<string, TlsOption> {
    if c.tls.Some? then c.tls.value else map[]
  }

  /** key is the router of the proxy's own web endpoint. */
  ghost predicate IsWebRouter(cfg: Settings, c: Config, key: string)
    requires key in c.http.routers
  {
    && cfg.webHost != ""
    && key == RouterKey(cfg.webHost, cfg.webPort)
    && c.http.routers[key] == RouterFor(cfg, Http, cfg.webHost, cfg.webPort, "")
    && ServiceKey(cfg.webHost, cfg.webPort) in c.http.services
    && c.http.services[ServiceKey(cfg.webHost, cfg.webPort)] == ServiceFor(cfg, Http, cfg.webPort)
  }

  lemma SectionsOfConfig(cfg: Settings, snaps: seq<Snapshot>)
    ensures var c := ConfigFor(cfg, snaps); var b := AddSnapshots(cfg, snaps);
            OptionsOf(c) == b.options && SectionOf(c, Tcp).routers == b.tcp.routers
            && (b.tcp.routers != map[] ==> SectionOf(c, Tcp) == b.tcp)
  {
  }

  /**
   * Whatever name collisions occur, every router in the output was written by one entry
   * of one snapshot (or by the web host), its service exists and carries that entry's
   * port, and its `tls.options` denotes exactly the option that snapshot asked for.
   */
  lemma EveryRouterIsExplained(cfg: Settings, snaps: seq<Snapshot>, kind: Kind, key: string)
    requires key in SectionOf(ConfigFor(cfg, snaps), kind).routers
    ensures var c := ConfigFor(cfg, snaps);
            || (exists w :: WroteRouter(cfg, kind, snaps, OptionsOf(c), SectionOf(c, kind), key, w))
            || (kind.Http? && IsWebRouter(cfg, c, key))
  {
    var c := ConfigFor(cfg, snaps);
    var b := AddSnapshots(cfg, snaps);
    SnapshotsExplained(cfg, snaps);
    SectionsOfConfig(cfg, snaps);
    if kind.Http? {
      if cfg.webHost != "" && key != RouterKey(cfg.webHost, cfg.webPort) {
        var w :| WroteRouter(cfg, Http, snaps, b.options, b.http, key, w);
        EmitKeepsWriter(cfg, Http, snaps, b.options, b.http, cfg.webHost, cfg.webPort, "", key, w);
      }
    } else {
      var w :| WroteRouter(cfg, Tcp, snaps, b.options, b.tcp, key, w);
    }
  }

  lemma EntryHasRouter(cfg: Settings, snaps: seq<Snapshot>, kind: Kind, snap: Snapshot, entry: string, domain: string)
    requires snap in snaps && entry in Hosts(kind, snap) && MatchEntry(entry, snap.listenPort) == Some(domain)
    ensures RouterKey(domain, snap.listenPort) in SectionOf(ConfigFor(cfg, snaps), kind).routers
  {
    SnapshotsExplained(cfg, snaps);
    SectionsOfConfig(cfg, snaps);
    var b := AddSnapshots(cfg, snaps);
    var i: nat :| i < |Hosts(kind, snap)| && Hosts(kind, snap)[i] == entry;
    UnionHolds(HostKeys(kind, snap), |HostKeys(kind, snap)|, i);
    assert RouterKey(domain, snap.listenPort) in KeyOf(entry, snap.listenPort);
    assert SnapshotKeys(kind, snap) <= (if kind.Http? then b.http else b.tcp).routers.Keys;
  }

  ghost predicate PortsNonNegative(cfg: Settings, snaps: seq<Snapshot>) {
    && (forall snap :: snap in snaps ==> snap.listenPort >= 0)
    && (cfg.webHost != "" ==> cfg.webPort >= 0)
  }

  /**
   * With non-negative ports a collision never sends an entry to another port: the router
   * under each matching entry's key leads to a service on that entry's own port.
   */
  lemma EveryEntryKeepsItsPort(cfg: Settings, snaps: seq<Snapshot>, kind: Kind, snap: Snapshot, entry: string, domain: string)
    requires PortsNonNegative(cfg, snaps)
    requires snap in snaps && entry in Hosts(kind, snap) && MatchEntry(entry, snap.listenPort) == Some(domain)
    ensures var sec := SectionOf(ConfigFor(cfg, snaps), kind); var key := RouterKey(domain, snap.listenPort);
            key in sec.routers && ServesPort(sec, sec.routers[key].service, kind, cfg.proxyHost, snap.listenPort)
  {
    MatchedPortFits(entry, snap.listenPort);
    AddressLeads(kind, cfg.proxyHost, snap.listenPort);
    var c := ConfigFor(cfg, snaps);
    var key := RouterKey(domain, snap.listenPort);
    EntryHasRouter(cfg, snaps, kind, snap, entry, domain);
    EveryRouterIsExplained(cfg, snaps, kind, key);
    if kind.Http? && IsWebRouter(cfg, c, key) {
      KeysAgree(domain, snap.listenPort, cfg.webHost, cfg.webPort);
      NamesSeparatePorts(domain, snap.listenPort, cfg.webHost, cfg.webPort);
    } else {
      var w :| WroteRouter(cfg, kind, snaps, OptionsOf(c), SectionOf(c, kind), key, w);
      KeysAgree(domain, snap.listenPort, w.domain, w.snap.listenPort);
      NamesSeparatePorts(domain, snap.listenPort, w.domain, w.snap.listenPort);
    }
  }
}
