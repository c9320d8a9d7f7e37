/** The generated configuration as its reader sees it: literal texts, the fields of each router, and who wrote it. */
module TraefikReadback {
  import opened Text
  import opened TraefikNames
  import opened TraefikOptions
  import opened TraefikConfig

  // ---- The option a snapshot asks for ----------------------------------------------------

  /** Protocols that Traefik offers anyway, and the empty name. */
  predicate Offered(p: string) {
    p == "" || p == "h2" || p == "http/1.1" || p == "acme-tls/1"
  }

  /** extras holds each further protocol of ps once, in the order of first occurrence. */
  ghost predicate EachOnceInOrder(ps: seq<string>, extras: seq<string>) {
    && (forall p :: p in extras <==> p in ps && !Offered(p))
    && (forall i, j :: 0 <= i < j < |extras| ==> extras[i] != extras[j])
    && (forall i, j, k :: 0 <= i < j < |extras| && 0 <= k < |ps| && ps[k] == extras[j] ==> extras[i] in ps[..k])
  }

  ghost predicate AsksForNothing(snap: Snapshot) {
    && (forall p :: p in snap.alpnProtocols ==> Offered(p))
    && snap.minTlsVersion !in ["1.0", "1.1", "1.2", "1.3"]
  }

  /** Further protocols come behind the three that setting the list would otherwise withdraw. */
  ghost predicate IsOptionOf(snap: Snapshot, opt: TlsOption) {
    && !AsksForNothing(snap)
    && (opt.alpn == [] <==> forall p :: p in snap.alpnProtocols ==> Offered(p))
    && (opt.alpn != [] ==>
          && |opt.alpn| > 3 && opt.alpn[..3] == ["h2", "http/1.1", "acme-tls/1"]
          && EachOnceInOrder(snap.alpnProtocols, opt.alpn[3..]))
    && opt.minVersion == (if snap.minTlsVersion in ["1.0", "1.1", "1.2", "1.3"]
                          then "VersionTLS" + [snap.minTlsVersion[0], snap.minTlsVersion[2]] else "")
  }

  lemma SkippedIsOffered(p: string)
    ensures Skipped(p) <==> Offered(p)
  {
    assert DEFAULT_ALPN[0] == "h2" && DEFAULT_ALPN[1] == "http/1.1" && DEFAULT_ALPN[2] == "acme-tls/1";
  }

  lemma {:induction false} ExtrasInOrder(ps: seq<string>)
    ensures EachOnceInOrder(ps, Extras(ps))
  {
    forall p ensures Skipped(p) <==> Offered(p) {
      SkippedIsOffered(p);
    }
    if ps != [] {
      var front, extras := ps[..|ps| - 1], Extras(ps);
      ExtrasInOrder(front);
      forall i, j, k | 0 <= i < j < |extras| && 0 <= k < |ps| && ps[k] == extras[j] ensures extras[i] in ps[..k] {
        if k < |front| {
          assert front[k] == ps[k] && front[..k] == ps[..k] && ps[k] in front;
        } else {
          assert extras[i] in front && ps[..k] == front;
        }
      }
    }
  }

  lemma NoExtras(ps: seq<string>)
    ensures Extras(ps) == [] <==> forall p :: p in ps ==> Offered(p)
  {
    forall p ensures Skipped(p) <==> Offered(p) {
      SkippedIsOffered(p);
    }
    if Extras(ps) == [] {
      assert forall p :: p !in Extras(ps);
    } else {
      assert Extras(ps)[0] in Extras(ps);
    }
  }

  lemma AlpnParts(extras: seq<string>)
    ensures var alpn := DEFAULT_ALPN + extras;
            |alpn| == 3 + |extras| && alpn[3..] == extras && alpn[..3] == ["h2", "http/1.1", "acme-tls/1"]
  {
  }

  lemma VersionNamed(v: string)
    ensures MinVersionName(v) == if v in ["1.0", "1.1", "1.2", "1.3"] then Some("VersionTLS" + [v[0], v[2]]) else None
  {
    assert v == "1.0" ==> "VersionTLS" + [v[0], v[2]] == "VersionTLS10";
    assert v == "1.1" ==> "VersionTLS" + [v[0], v[2]] == "VersionTLS11";
    assert v == "1.2" ==> "VersionTLS" + [v[0], v[2]] == "VersionTLS12";
    assert v == "1.3" ==> "VersionTLS" + [v[0], v[2]] == "VersionTLS13";
  }

  lemma OptionIsAskedFor(snap: Snapshot)
    ensures match TlsOptionFor(snap)
            case None => AsksForNothing(snap)
            case Some((name, opt)) => IsOptionOf(snap, opt) && name != ""
  {
    ExtrasInOrder(snap.alpnProtocols);
    NoExtras(snap.alpnProtocols);
    AlpnParts(Extras(snap.alpnProtocols));
    VersionNamed(snap.minTlsVersion);
    NameIsNotEmpty(snap);
    OptionFields(snap);
  }

  lemma NameIsNotEmpty(snap: Snapshot)
    ensures TlsOptionFor(snap).Some? ==> TlsOptionFor(snap).value.0 != ""
  {
  }

  lemma OptionFields(snap: Snapshot)
    ensures var extras, version := Extras(snap.alpnProtocols), MinVersionName(snap.minTlsVersion);
            && (TlsOptionFor(snap).None? <==> extras == [] && version.None?)
            && (TlsOptionFor(snap).Some? ==>
                  && TlsOptionFor(snap).value.1.alpn == (if extras == [] then [] else DEFAULT_ALPN + extras)
                  && TlsOptionFor(snap).value.1.minVersion == (if version.None? then "" else version.value))
  {
  }

  /** The name tried first says what the option is for. */
  lemma PreferredName(snap: Snapshot)
    requires TlsOptionFor(snap).Some?
    ensures var (name, opt) := TlsOptionFor(snap).value;
            var alpn, version := Slug(Join(Extras(snap.alpnProtocols))), Slug(snap.minTlsVersion);
            name == if opt.alpn == [] then "lazy-tls-min-" + version
                    else if opt.minVersion == "" then "lazy-tls-alpn-" + alpn
                    else "lazy-tls-alpn-" + alpn + "-min-" + version
  {
    Prefixes(Slug(Join(Extras(snap.alpnProtocols))), Slug(snap.minTlsVersion));
  }

  lemma Prefixes(alpn: string, version: string)
    ensures "lazy-tls" + ("-alpn-" + alpn) + "" == "lazy-tls-alpn-" + alpn
    ensures "lazy-tls" + "" + ("-min-" + version) == "lazy-tls-min-" + version
    ensures "lazy-tls" + ("-alpn-" + alpn) + ("-min-" + version) == "lazy-tls-alpn-" + alpn + "-min-" + version
  {
  }

  // ---- The fields of a router ------------------------------------------------------------------

  /** The option a router names: "" for none. */
  function OptionNamed(r: Router): string {
    if r.tls.Some? then r.tls.value.options else ""
  }

  ghost predicate NamesItsOption(options: map<string, TlsOption>, snap: Snapshot, name: string) {
    if AsksForNothing(snap) then name == "" else name in options && IsOptionOf(snap, options[name])
  }

  /** Entry point and resolver are the configured ones, and a TLS block is left out exactly when it would say nothing. */
  predicate HasSettings(cfg: Settings, r: Router) {
    && (if cfg.entryPoint == "" then r.entryPoints == [] else r.entryPoints == [cfg.entryPoint])
    && (r.tls.Some? ==> r.tls.value.certResolver == cfg.certResolver)
    && (r.tls.Some? <==> cfg.certResolver != "" || OptionNamed(r) != "")
  }

  /** A transport is named exactly for HTTP with some timeout configured. */
  predicate HasTransport(cfg: Settings, kind: Kind, s: Service) {
    s.transport == match cfg.timeouts {
      case None => ""
      case Some(t) => if kind.Http? && (t.dial != "" || t.responseHeader != "" || t.idleConn != "") then "lazy-transport" else ""
    }
  }

  /** The router matches the domain, and leads to the port on the proxy host. */
  ghost predicate Routes(cfg: Settings, kind: Kind, sec: Section, key: string, domain: string, port: int) {
    && key in sec.routers
    && key == EntryName(domain, port) + "-router" && sec.routers[key].service == EntryName(domain, port) + "-service"
    && ReadRule(sec.routers[key].rule) == Some((kind, domain))
    && ServesPort(sec, sec.routers[key].service, kind, cfg.proxyHost, port)
    && HasSettings(cfg, sec.routers[key])
    && HasTransport(cfg, kind, sec.services[sec.routers[key].service])
  }

  lemma WrittenRoutes(cfg: Settings, kind: Kind, sec: Section, key: string, domain: string, port: int, optName: string)
    requires MIN_INT <= port <= MAX_INT && key == RouterKey(domain, port) && key in sec.routers && ServiceKey(domain, port) in sec.services
    requires sec.routers[key] == RouterFor(cfg, kind, domain, port, optName)
    requires sec.services[ServiceKey(domain, port)] == ServiceFor(cfg, kind, port)
    ensures Routes(cfg, kind, sec, key, domain, port) && OptionNamed(sec.routers[key]) == optName
  {
    RuleReads(kind, domain);
    AddressLeads(kind, cfg.proxyHost, port);
    SettingsWritten(cfg, kind, domain, port, optName);
  }

  lemma SettingsWritten(cfg: Settings, kind: Kind, domain: string, port: int, optName: string)
    ensures HasSettings(cfg, RouterFor(cfg, kind, domain, port, optName)) && HasTransport(cfg, kind, ServiceFor(cfg, kind, port))
    ensures OptionNamed(RouterFor(cfg, kind, domain, port, optName)) == optName
  {
  }

  lemma MatchedNamesItsOption(options: map<string, TlsOption>, snap: Snapshot, optName: string)
    requires OptionMatches(options, snap, optName)
    ensures NamesItsOption(options, snap, optName)
  {
    OptionIsAskedFor(snap);
  }

  /** Some snapshot lists the entry, which matches its port and yields the domain. */
  ghost predicate ListsEntry(kind: Kind, snaps: seq<Snapshot>, snap: Snapshot, entry: string, domain: string) {
    && snap in snaps && entry in (if kind.Http? then snap.hosts else snap.tcpHosts)
    && MatchEntry(entry, snap.listenPort) == Some(domain)
  }

  /** Some listed entry is what the router under the key serves. */
  ghost predicate ServesSomeEntry(cfg: Settings, kind: Kind, snaps: seq<Snapshot>, c: Config, key: string) {
    var sec := SectionOf(c, kind);
    exists snap, entry, domain :: ListsEntry(kind, snaps, snap, entry, domain)
      && Routes(cfg, kind, sec, key, domain, snap.listenPort)
      && NamesItsOption(OptionsOf(c), snap, OptionNamed(sec.routers[key]))
  }

  /** Every router of the output, read back, serves an entry some snapshot lists, or the web host. */
  lemma {:induction false} EveryRouterServes(cfg: Settings, snaps: seq<Snapshot>, kind: Kind, key: string)
    requires MIN_INT <= cfg.webPort <= MAX_INT
    requires key in SectionOf(ConfigFor(cfg, snaps), kind).routers
    ensures var c := ConfigFor(cfg, snaps);
            || ServesSomeEntry(cfg, kind, snaps, c, key)
            || (kind.Http? && cfg.webHost != "" && Routes(cfg, Http, c.http, key, cfg.webHost, cfg.webPort)
                && OptionNamed(c.http.routers[key]) == "")
  {
    var c := ConfigFor(cfg, snaps);
    var sec := SectionOf(c, kind);
    EveryRouterIsExplained(cfg, snaps, kind, key);
    if kind.Http? && IsWebRouter(cfg, c, key) {
      WrittenRoutes(cfg, Http, c.http, key, cfg.webHost, cfg.webPort, "");
    } else {
      var w :| WroteRouter(cfg, kind, snaps, OptionsOf(c), sec, key, w);
      MatchedPortFits(w.entry, w.snap.listenPort);
      WrittenRoutes(cfg, kind, sec, key, w.domain, w.snap.listenPort, w.optName);
      MatchedNamesItsOption(OptionsOf(c), w.snap, w.optName);
      assert ListsEntry(kind, snaps, w.snap, w.entry, w.domain);
    }
  }

  // ---- The last entry under a key is the one that stays ------------------------------------------

  ghost predicate WritesUnder(entry: string, port: int, key: string) {
    exists domain :: MatchEntry(entry, port) == Some(domain) && RouterKey(domain, port) == key
  }

  ghost predicate NoneWrites(entries: seq<string>, port: int, key: string) {
    forall i :: 0 <= i < |entries| ==> !WritesUnder(entries[i], port, key)
  }

  /** The section holds the entry's router and service. */
  ghost predicate Written(cfg: Settings, kind: Kind, sec: Section, domain: string, port: int, optName: string) {
    && RouterKey(domain, port) in sec.routers && ServiceKey(domain, port) in sec.services
    && sec.routers[RouterKey(domain, port)] == RouterFor(cfg, kind, domain, port, optName)
    && sec.services[ServiceKey(domain, port)] == ServiceFor(cfg, kind, port)
  }

  lemma EmitLeaves(cfg: Settings, kind: Kind, sec: Section, other: string, otherPort: int, otherName: string,
                   domain: string, port: int, optName: string)
    requires Written(cfg, kind, sec, domain, port, optName) && RouterKey(other, otherPort) != RouterKey(domain, port)
    ensures Written(cfg, kind, Emit(cfg, kind, sec, other, otherPort, otherName), domain, port, optName)
  {
    KeysAgree(other, otherPort, domain, port);
  }

  lemma OtherEntryLeaves(cfg: Settings, kind: Kind, sec: Section, entry: string, listenPort: int, name: string,
                         domain: string, port: int, optName: string)
    requires Written(cfg, kind, sec, domain, port, optName) && !WritesUnder(entry, listenPort, RouterKey(domain, port))
    ensures Written(cfg, kind, EmitEntry(cfg, kind, sec, entry, listenPort, name), domain, port, optName)
  {
    var m := MatchEntry(entry, listenPort);
    if m.Some? {
      assert RouterKey(m.value, listenPort) != RouterKey(domain, port);
      EmitLeaves(cfg, kind, sec, m.value, listenPort, name, domain, port, optName);
    }
  }

  /** Entries under other keys, processed after it, leave an entry's router and service alone. */
  lemma {:induction false} OtherEntriesLeave(cfg: Settings, kind: Kind, sec: Section, entries: seq<string>, n: nat, listenPort: int, name: string,
                                             domain: string, port: int, optName: string)
    requires n <= |entries| && Written(cfg, kind, EmitEntries(cfg, kind, sec, entries[..n], listenPort, name), domain, port, optName)
    requires forall i :: n <= i < |entries| ==> !WritesUnder(entries[i], listenPort, RouterKey(domain, port))
    ensures Written(cfg, kind, EmitEntries(cfg, kind, sec, entries, listenPort, name), domain, port, optName)
    decreases |entries| - n
  {
    if n == |entries| {
      assert entries[..n] == entries;
    } else {
      var next := n + 1;
      EmitOneMore(cfg, kind, sec, entries, n, listenPort, name);
      OtherEntryLeaves(cfg, kind, EmitEntries(cfg, kind, sec, entries[..n], listenPort, name), entries[n], listenPort, name,
                       domain, port, optName);
      OtherEntriesLeave(cfg, kind, sec, entries, next, listenPort, name, domain, port, optName);
    }
  }

  lemma {:induction false} LastEntryStays(cfg: Settings, kind: Kind, sec: Section, entries: seq<string>, port: int, optName: string,
                                          j: nat, domain: string)
    requires j < |entries| && MatchEntry(entries[j], port) == Some(domain)
    requires forall i :: j < i < |entries| ==> !WritesUnder(entries[i], port, RouterKey(domain, port))
    ensures Written(cfg, kind, EmitEntries(cfg, kind, sec, entries, port, optName), domain, port, optName)
  {
    EmitOneMore(cfg, kind, sec, entries, j, port, optName);
    EmitWrites(cfg, kind, EmitEntries(cfg, kind, sec, entries[..j], port, optName), domain, port, optName);
    OtherEntriesLeave(cfg, kind, sec, entries, j + 1, port, optName, domain, port, optName);
  }

  lemma EmitWrites(cfg: Settings, kind: Kind, sec: Section, domain: string, port: int, optName: string)
    ensures Written(cfg, kind, Emit(cfg, kind, sec, domain, port, optName), domain, port, optName)
  {
  }

  function SectionIn(b: Build, kind: Kind): Section {
    if kind.Http? then b.http else b.tcp
  }

  /** Neither a later entry of the n-th snapshot nor any entry of a later one has the key. */
  ghost predicate IsLastUnder(kind: Kind, snaps: seq<Snapshot>, n: nat, j: nat, key: string)
    requires n < |snaps| && j < |Hosts(kind, snaps[n])|
  {
    && (forall i :: j < i < |Hosts(kind, snaps[n])| ==> !WritesUnder(Hosts(kind, snaps[n])[i], snaps[n].listenPort, key))
    && NoneWritesAfter(kind, snaps, n, key)
  }

  lemma AddSnapshotSection(cfg: Settings, b: Build, snap: Snapshot, kind: Kind)
    ensures SectionIn(AddSnapshot(cfg, b, snap), kind)
         == EmitEntries(cfg, kind, SectionIn(b, kind), Hosts(kind, snap), snap.listenPort, NameOption(b.options, snap).0)
    ensures AddSnapshot(cfg, b, snap).options == NameOption(b.options, snap).1
  {
  }

  /** A whole snapshot that has no entry under the key leaves its router alone. */
  lemma OtherSnapshotLeaves(cfg: Settings, b: Build, snap: Snapshot, kind: Kind, domain: string, port: int, optName: string)
    requires Written(cfg, kind, SectionIn(b, kind), domain, port, optName)
    requires NoneWrites(Hosts(kind, snap), snap.listenPort, RouterKey(domain, port))
    ensures Written(cfg, kind, SectionIn(AddSnapshot(cfg, b, snap), kind), domain, port, optName)
  {
    AddSnapshotSection(cfg, b, snap, kind);
    OtherEntriesLeave(cfg, kind, SectionIn(b, kind), Hosts(kind, snap), 0, snap.listenPort, NameOption(b.options, snap).0,
                      domain, port, optName);
  }

  lemma OwnSnapshotWrites(cfg: Settings, b: Build, snap: Snapshot, kind: Kind, j: nat, domain: string)
    requires j < |Hosts(kind, snap)| && MatchEntry(Hosts(kind, snap)[j], snap.listenPort) == Some(domain)
    requires forall i :: j < i < |Hosts(kind, snap)| ==> !WritesUnder(Hosts(kind, snap)[i], snap.listenPort, RouterKey(domain, snap.listenPort))
    ensures Written(cfg, kind, SectionIn(AddSnapshot(cfg, b, snap), kind), domain, snap.listenPort, NameOption(b.options, snap).0)
  {
    AddSnapshotSection(cfg, b, snap, kind);
    LastEntryStays(cfg, kind, SectionIn(b, kind), Hosts(kind, snap), snap.listenPort, NameOption(b.options, snap).0, j, domain);
  }

  /** The build holds the snapshot's router for the domain, naming the option the snapshot asks for. */
  ghost predicate Keeps(cfg: Settings, kind: Kind, b: Build, snap: Snapshot, domain: string, optName: string) {
    Written(cfg, kind, SectionIn(b, kind), domain, snap.listenPort, optName) && OptionMatches(b.options, snap, optName)
  }

  lemma KeepsOn(cfg: Settings, kind: Kind, b: Build, next: Snapshot, after: Build, snap: Snapshot, domain: string, optName: string)
    requires Keeps(cfg, kind, b, snap, domain, optName) && NoneWrites(Hosts(kind, next), next.listenPort, RouterKey(domain, snap.listenPort))
    requires AddsSnapshot(cfg, b, next, after)
    ensures Keeps(cfg, kind, after, snap, domain, optName)
  {
    OtherSnapshotLeaves(cfg, b, next, kind, domain, snap.listenPort, optName);
    NameOptionKeeps(b.options, next);
    AddSnapshotSection(cfg, b, next, kind);
  }

  lemma KeepsOwn(cfg: Settings, kind: Kind, b: Build, snap: Snapshot, j: nat, domain: string) returns (optName: string)
    requires j < |Hosts(kind, snap)| && MatchEntry(Hosts(kind, snap)[j], snap.listenPort) == Some(domain)
    requires forall i :: j < i < |Hosts(kind, snap)| ==> !WritesUnder(Hosts(kind, snap)[i], snap.listenPort, RouterKey(domain, snap.listenPort))
    ensures Keeps(cfg, kind, AddSnapshot(cfg, b, snap), snap, domain, optName)
  {
    optName := NameOption(b.options, snap).0;
    OwnSnapshotWrites(cfg, b, snap, kind, j, domain);
    NameOptionKeeps(b.options, snap);
    AddSnapshotSection(cfg, b, snap, kind);
  }

  /** The builds on the way to the output, one after each snapshot. */
  ghost predicate AreBuilds(cfg: Settings, snaps: seq<Snapshot>, builds: seq<Build>) {
    |builds| == |snaps| + 1 && forall k :: 0 <= k < |snaps| ==> AddsSnapshot(cfg, builds[k], snaps[k], builds[k + 1])
  }

  ghost predicate AddsSnapshot(cfg: Settings, before: Build, snap: Snapshot, after: Build) {
    after == AddSnapshot(cfg, before, snap)
  }

  lemma {:induction false} BuildsOf(cfg: Settings, snaps: seq<Snapshot>) returns (builds: seq<Build>)
    ensures AreBuilds(cfg, snaps, builds) && builds[|snaps|] == AddSnapshots(cfg, snaps)
  {
    if snaps == [] {
      builds := [AddSnapshots(cfg, snaps)];
    } else {
      var front := BuildsOf(cfg, snaps[..|snaps| - 1]);
      builds := front + [AddSnapshots(cfg, snaps)];
      forall k | 0 <= k < |snaps| ensures AddsSnapshot(cfg, builds[k], snaps[k], builds[k + 1]) {
        assert k < |snaps| - 1 ==> AddsSnapshot(cfg, front[k], snaps[..|snaps| - 1][k], front[k + 1]);
      }
    }
  }

  /** No snapshot after the n-th has an entry under the key. */
  ghost predicate NoneWritesAfter(kind: Kind, snaps: seq<Snapshot>, n: nat, key: string) {
    forall m :: n < m < |snaps| ==> NoneWrites(Hosts(kind, snaps[m]), snaps[m].listenPort, key)
  }

  /** The property survives snapshots without an entry under the key. */
  ghost predicate Survives(cfg: Settings, kind: Kind, key: string, holds: Build -> bool) {
    forall before, next, after ::
      holds(before) && AddsSnapshot(cfg, before, next, after) && NoneWrites(Hosts(kind, next), next.listenPort, key) ==> holds(after)
  }

  lemma {:induction false} HoldsToTheEnd(cfg: Settings, kind: Kind, snaps: seq<Snapshot>, builds: seq<Build>, n: nat, key: string,
                                         holds: Build -> bool, k: nat)
    requires AreBuilds(cfg, snaps, builds) && NoneWritesAfter(kind, snaps, n, key) && Survives(cfg, kind, key, holds)
    requires n < k < |builds| && holds(builds[n + 1])
    ensures holds(builds[k])
    decreases k
  {
    if k > n + 1 {
      var m := k - 1;
      HoldsToTheEnd(cfg, kind, snaps, builds, n, key, holds, m);
      assert AddsSnapshot(cfg, builds[m], snaps[m], builds[m + 1]);
    }
  }

  lemma KeepingSurvives(cfg: Settings, kind: Kind, snap: Snapshot, domain: string, optName: string, key: string) returns (holds: Build -> bool)
    requires key == RouterKey(domain, snap.listenPort)
    ensures forall b :: holds(b) <==> Keeps(cfg, kind, b, snap, domain, optName)
    ensures Survives(cfg, kind, key, holds)
  {
    holds := b => Keeps(cfg, kind, b, snap, domain, optName);
    forall before, next, after | holds(before) && AddsSnapshot(cfg, before, next, after)
      && NoneWrites(Hosts(kind, next), next.listenPort, key)
      ensures holds(after)
    {
      KeepsOn(cfg, kind, before, next, after, snap, domain, optName);
    }
  }

  /** The j-th entry of the n-th snapshot yields the domain and is the last one under its key. */
  ghost predicate IsLastWriter(kind: Kind, snaps: seq<Snapshot>, n: nat, j: nat, domain: string) {
    && n < |snaps| && j < |Hosts(kind, snaps[n])|
    && MatchEntry(Hosts(kind, snaps[n])[j], snaps[n].listenPort) == Some(domain)
    && IsLastUnder(kind, snaps, n, j, RouterKey(domain, snaps[n].listenPort))
  }

  lemma {:induction false} LastWriterStays(cfg: Settings, kind: Kind, snaps: seq<Snapshot>, n: nat, j: nat, domain: string)
    returns (b: Build, optName: string)
    requires IsLastWriter(kind, snaps, n, j, domain)
    ensures b == AddSnapshots(cfg, snaps) && Keeps(cfg, kind, b, snaps[n], domain, optName)
  {
    var builds := BuildsOf(cfg, snaps);
    assert AddsSnapshot(cfg, builds[n], snaps[n], builds[n + 1]);
    optName := KeepsOwn(cfg, kind, builds[n], snaps[n], j, domain);
    var key := RouterKey(domain, snaps[n].listenPort);
    var holds := KeepingSurvives(cfg, kind, snaps[n], domain, optName, key);
    HoldsToTheEnd(cfg, kind, snaps, builds, n, key, holds, |snaps|);
    b := builds[|snaps|];
  }

  /** What the last build keeps, the output shows, unless the web host takes its key. */
  lemma KeptIsRouted(cfg: Settings, kind: Kind, snaps: seq<Snapshot>, b: Build, snap: Snapshot, domain: string, optName: string)
    requires b == AddSnapshots(cfg, snaps) && Keeps(cfg, kind, b, snap, domain, optName) && MIN_INT <= snap.listenPort <= MAX_INT
    requires kind.Http? && cfg.webHost != "" ==> RouterKey(domain, snap.listenPort) != RouterKey(cfg.webHost, cfg.webPort)
    ensures var c := ConfigFor(cfg, snaps); var key := RouterKey(domain, snap.listenPort);
            && Routes(cfg, kind, SectionOf(c, kind), key, domain, snap.listenPort)
            && NamesItsOption(OptionsOf(c), snap, OptionNamed(SectionOf(c, kind).routers[key]))
  {
    var c := ConfigFor(cfg, snaps);
    SectionsOfConfig(cfg, snaps);
    if kind.Http? && cfg.webHost != "" {
      EmitLeaves(cfg, Http, b.http, cfg.webHost, cfg.webPort, "", domain, snap.listenPort, optName);
    }
    WrittenRoutes(cfg, kind, SectionOf(c, kind), RouterKey(domain, snap.listenPort), domain, snap.listenPort, optName);
    MatchedNamesItsOption(b.options, snap, optName);
  }

  /**
   * Among the entries whose names coincide the last one wins: unless the web host takes its key,
   * its router matches its own domain, leads to its own port and names the option its snapshot asks for.
   */
  lemma {:induction false} LastEntryWins(cfg: Settings, kind: Kind, snaps: seq<Snapshot>, n: nat, j: nat, domain: string)
    requires IsLastWriter(kind, snaps, n, j, domain)
    requires kind.Http? && cfg.webHost != "" ==> RouterKey(domain, snaps[n].listenPort) != RouterKey(cfg.webHost, cfg.webPort)
    ensures var c := ConfigFor(cfg, snaps); var key := RouterKey(domain, snaps[n].listenPort);
            && Routes(cfg, kind, SectionOf(c, kind), key, domain, snaps[n].listenPort)
            && NamesItsOption(OptionsOf(c), snaps[n], OptionNamed(SectionOf(c, kind).routers[key]))
  {
    MatchedPortFits(Hosts(kind, snaps[n])[j], snaps[n].listenPort);
    var b, optName := LastWriterStays(cfg, kind, snaps, n, j, domain);
    KeptIsRouted(cfg, kind, snaps, b, snaps[n], domain, optName);
  }

  /** The web host's router is written last of all. */
  lemma WebHostRouted(cfg: Settings, snaps: seq<Snapshot>)
    requires cfg.webHost != "" && MIN_INT <= cfg.webPort <= MAX_INT
    ensures var c := ConfigFor(cfg, snaps);
            Routes(cfg, Http, c.http, RouterKey(cfg.webHost, cfg.webPort), cfg.webHost, cfg.webPort)
            && OptionNamed(c.http.routers[RouterKey(cfg.webHost, cfg.webPort)]) == ""
  {
    WrittenRoutes(cfg, Http, ConfigFor(cfg, snaps).http, RouterKey(cfg.webHost, cfg.webPort), cfg.webHost, cfg.webPort, "");
  }

  // ---- Which sections there are ---------------------------------------------------------------------

  lemma {:induction false} NoMatchNoRouters(cfg: Settings, snaps: seq<Snapshot>)
    ensures AddSnapshots(cfg, snaps).tcp.routers != map[] <==>
              exists snap, entry, domain :: ListsEntry(Tcp, snaps, snap, entry, domain)
  {
    var b := AddSnapshots(cfg, snaps);
    SnapshotsExplained(cfg, snaps);
    if b.tcp.routers != map[] {
      var key :| key in b.tcp.routers;
      var w :| WroteRouter(cfg, Tcp, snaps, b.options, b.tcp, key, w);
      assert ListsEntry(Tcp, snaps, w.snap, w.entry, w.domain);
    }
    if snap, entry, domain :| ListsEntry(Tcp, snaps, snap, entry, domain) {
      EntryHasRouter(cfg, snaps, Tcp, snap, entry, domain);
      SectionsOfConfig(cfg, snaps);
    }
  }

  /** Some snapshot asks for the option. */
  ghost predicate AskedFor(snaps: seq<Snapshot>, opt: TlsOption) {
    exists snap :: snap in snaps && IsOptionOf(snap, opt)
  }

  ghost predicate Recorded(options: map<string, TlsOption>, snap: Snapshot) {
    exists name :: name in options && IsOptionOf(snap, options[name])
  }

  /** Exactly the options that some snapshot asks for are there. */
  ghost predicate OptionsFit(snaps: seq<Snapshot>, options: map<string, TlsOption>) {
    && (forall name :: name in options ==> AskedFor(snaps, options[name]))
    && (forall snap :: snap in snaps && !AsksForNothing(snap) ==> Recorded(options, snap))
  }

  lemma AskedForByMore(front: seq<Snapshot>, last: Snapshot, opt: TlsOption)
    ensures AskedFor(front + [last], opt) <==> AskedFor(front, opt) || IsOptionOf(last, opt)
  {
    if snap :| snap in front && IsOptionOf(snap, opt) {
      assert snap in front + [last];
    }
  }

  lemma RecordedInMore(before: map<string, TlsOption>, options: map<string, TlsOption>, snap: Snapshot)
    requires Recorded(before, snap) && forall n :: n in before ==> n in options && options[n] == before[n]
    ensures Recorded(options, snap)
  {
    var name :| name in before && IsOptionOf(snap, before[name]);
    assert name in options;
  }

  lemma OptionsFitWith(front: seq<Snapshot>, before: map<string, TlsOption>, last: Snapshot, options: map<string, TlsOption>, chosen: string)
    requires OptionsFit(front, before) && forall n :: n in before ==> n in options && options[n] == before[n]
    requires NamesItsOption(options, last, chosen)
    requires forall name :: name in options && name !in before ==> name == chosen && !AsksForNothing(last)
    ensures OptionsFit(front + [last], options)
  {
    forall name | name in options ensures AskedFor(front + [last], options[name]) {
      AskedForByMore(front, last, options[name]);
    }
    AllRecorded(front, before, last, options, chosen);
  }

  lemma AllRecorded(front: seq<Snapshot>, before: map<string, TlsOption>, last: Snapshot, options: map<string, TlsOption>, chosen: string)
    requires OptionsFit(front, before) && forall n :: n in before ==> n in options && options[n] == before[n]
    requires NamesItsOption(options, last, chosen)
    ensures forall snap :: snap in front + [last] && !AsksForNothing(snap) ==> Recorded(options, snap)
  {
    forall snap | snap in front + [last] && !AsksForNothing(snap) ensures Recorded(options, snap) {
      if snap in front {
        RecordedInMore(before, options, snap);
      }
    }
  }

  /** Naming one more snapshot's option. */
  lemma OptionsFitMore(front: seq<Snapshot>, before: map<string, TlsOption>, last: Snapshot)
    requires OptionsFit(front, before)
    ensures OptionsFit(front + [last], NameOption(before, last).1)
  {
    var (chosen, options) := NameOption(before, last);
    NameOptionKeeps(before, last);
    MatchedNamesItsOption(options, last, chosen);
    NamedOnly(before, last);
    OptionsFitWith(front, before, last, options, chosen);
  }

  lemma NamedOnly(before: map<string, TlsOption>, last: Snapshot)
    ensures var (chosen, options) := NameOption(before, last);
            forall name :: name in options && name !in before ==> name == chosen && !AsksForNothing(last)
  {
    OptionIsAskedFor(last);
  }

  lemma {:induction false} OptionsAreAskedFor(cfg: Settings, snaps: seq<Snapshot>)
    ensures OptionsFit(snaps, AddSnapshots(cfg, snaps).options)
  {
    if snaps != [] {
      var front, last := snaps[..|snaps| - 1], snaps[|snaps| - 1];
      OptionsAreAskedFor(cfg, front);
      OptionsFitMore(front, AddSnapshots(cfg, front).options, last);
      assert snaps == front + [last];
    }
  }

  lemma SomeOptionExactly(snaps: seq<Snapshot>, options: map<string, TlsOption>)
    requires OptionsFit(snaps, options)
    ensures options != map[] <==> exists snap :: snap in snaps && !AsksForNothing(snap)
  {
    if options != map[] {
      var name :| name in options;
      assert AskedFor(snaps, options[name]);
    }
    if snap :| snap in snaps && !AsksForNothing(snap) {
      assert Recorded(options, snap);
    }
  }

  /** The TCP section, the TLS section and the transport are there exactly when something needs them. */
  lemma {:induction false} SectionsAsNeeded(cfg: Settings, snaps: seq<Snapshot>)
    ensures var c := ConfigFor(cfg, snaps);
            && (c.tcp.Some? <==> exists snap, entry, domain :: ListsEntry(Tcp, snaps, snap, entry, domain))
            && (c.tls.Some? <==> exists snap :: snap in snaps && !AsksForNothing(snap))
            && OptionsFit(snaps, OptionsOf(c))
            && c.transports == TransportsFor(cfg.timeouts)
  {
    NoMatchNoRouters(cfg, snaps);
    OptionsAreAskedFor(cfg, snaps);
    SomeOptionExactly(snaps, AddSnapshots(cfg, snaps).options);
    ConfigSections(cfg, snaps);
  }

  lemma ConfigSections(cfg: Settings, snaps: seq<Snapshot>)
    ensures var c := ConfigFor(cfg, snaps); var b := AddSnapshots(cfg, snaps);
            && (c.tcp.Some? <==> b.tcp.routers != map[]) && (c.tls.Some? <==> b.options != map[])
            && OptionsOf(c) == b.options && c.transports == TransportsFor(cfg.timeouts)
  {
  }

  /** One transport, with the configured timeouts, if any of them is given. */
  function TransportsFor(timeouts: Option<Timeouts>): map<string, Timeouts> {
    match timeouts
    case None => map[]
    case Some(t) => if t.dial != "" || t.responseHeader != "" || t.idleConn != "" then map["lazy-transport" := t] else map[]
  }
}
