/** Named TLS options: what a snapshot asks for and how a free option name is found. */
module TraefikOptions {
  import opened Text
  import opened TraefikNames

  datatype TlsOption = TlsOption(alpn: seq<string>, minVersion: string)

  /** Per-listen-port input of the configuration builder. */
  datatype Snapshot = Snapshot(
    listenPort: int,
    hosts: seq<string>,
    tcpHosts: seq<string>,
    alpnProtocols: seq<string>,
    minTlsVersion: string)

  const DEFAULT_ALPN: seq<string> := ["h2", "http/1.1", "acme-tls/1"]

  function MinVersionName(v: string): Option<string> {
    if v == "1.0" then Some("VersionTLS10")
    else if v == "1.1" then Some("VersionTLS11")
    else if v == "1.2" then Some("VersionTLS12")
    else if v == "1.3" then Some("VersionTLS13")
    else None
  }

  predicate Skipped(p: string) {
    p == "" || p in DEFAULT_ALPN
  }

  /** The requested protocols Traefik does not already offer: each once, by first occurrence. */
  function Extras(ps: seq<string>): (r: seq<string>)
    ensures forall p :: p in r <==> p in ps && !Skipped(p)
    ensures forall i, j :: 0 <= i < j < |r| ==> r[i] != r[j]
  {
    if ps == [] then []
    else
      var front := Extras(ps[..|ps| - 1]);
      var last := ps[|ps| - 1];
      assert ps == ps[..|ps| - 1] + [last];
      if Skipped(last) || last in front then front else front + [last]
  }

  /** The option a snapshot needs, with its preferred name; None when it needs none. */
  function TlsOptionFor(snap: Snapshot): Option<(string, TlsOption)> {
    var extras := Extras(snap.alpnProtocols);
    var version := MinVersionName(snap.minTlsVersion);
    var name := "lazy-tls"
      + (if extras == [] then "" else "-alpn-" + Slug(Join(extras)))
      + (if version.None? then "" else "-min-" + Slug(snap.minTlsVersion));
    var opt := TlsOption(if extras == [] then [] else DEFAULT_ALPN + extras,
                         if version.None? then "" else version.value);
    if extras == [] && version.None? then None else Some((name, opt))
  }

  method ComputeTlsOption(snap: Snapshot) returns (r: Option<(string, TlsOption)>)
    ensures r == TlsOptionFor(snap)
  {
    var extras: seq<string> := [];
    for i := 0 to |snap.alpnProtocols|
      invariant extras == Extras(snap.alpnProtocols[..i])
    {
      var p := snap.alpnProtocols[i];
      assert snap.alpnProtocols[..i + 1][..i] == snap.alpnProtocols[..i];
      if Skipped(p) || p in extras {
        continue;
      }
      extras := extras + [p];
    }
    assert snap.alpnProtocols[..|snap.alpnProtocols|] == snap.alpnProtocols;
    var name, opt := "lazy-tls", TlsOption([], "");
    if |extras| > 0 {
      opt := opt.(alpn := DEFAULT_ALPN + extras);
      var joined := SanitiseName(Join(extras));
      name := name + ("-alpn-" + joined);
    }
    var version := MinVersionName(snap.minTlsVersion);
    if version.Some? {
      opt := opt.(minVersion := version.value);
      var sanitised := SanitiseName(snap.minTlsVersion);
      name := name + ("-min-" + sanitised);
    }
    assert "lazy-tls" + "" == "lazy-tls" && name + "" == name;
    r := if |extras| > 0 || version.Some? then Some((name, opt)) else None;
  }

  // ---- Finding a free name ---------------------------------------------------

  /** The i-th name tried: the plain name, then name-2, name-3, and so on. */
  function Candidate(name: string, i: nat): string {
    if i <= 1 then name else name + "-" + Decimal(i)
  }

  predicate Acceptable(existing: map<string, TlsOption>, candidate: string, opt: TlsOption) {
    candidate !in existing || existing[candidate] == opt
  }

  lemma CandidatesDiffer(name: string, i: nat, j: nat)
    requires 1 <= i < j
    ensures Candidate(name, i) != Candidate(name, j)
  {
    assert |Candidate(name, j)| > |name|;
    if i > 1 && Candidate(name, i) == Candidate(name, j) {
      assert Candidate(name, i)[|name| + 1..] == Digits(i);
      assert Candidate(name, j)[|name| + 1..] == Digits(j);
      DigitsInjective(i, j);
    }
  }

  /** If the first i candidates are all taken, at least i options exist. */
  lemma {:induction false} TakenBound(existing: map<string, TlsOption>, name: string, i: nat)
    requires forall k :: 1 <= k <= i ==> Candidate(name, k) in existing
    ensures i <= |existing|
    decreases i
  {
    if i > 0 {
      var rest := existing - {Candidate(name, i)};
      forall k | 1 <= k <= i - 1 ensures Candidate(name, k) in rest {
        CandidatesDiffer(name, k, i);
      }
      TakenBound(rest, name, i - 1);
      assert rest.Keys == existing.Keys - {Candidate(name, i)};
    }
  }

  /** The index of the first acceptable candidate; at most one more than the number of options. */
  function FirstAcceptable(existing: map<string, TlsOption>, name: string, opt: TlsOption, i: nat): (k: nat)
    requires 1 <= i && forall j :: 1 <= j < i ==> Candidate(name, j) in existing
    ensures i <= k <= |existing| + 1 && Acceptable(existing, Candidate(name, k), opt)
    ensures forall j :: i <= j < k ==> !Acceptable(existing, Candidate(name, j), opt)
    decreases |existing| + 1 - i
  {
    TakenBound(existing, name, i - 1);
    if Acceptable(existing, Candidate(name, i), opt) then i
    else
      TakenBound(existing, name, i);
      FirstAcceptable(existing, name, opt, i + 1)
  }

  function UniqueName(existing: map<string, TlsOption>, name: string, opt: TlsOption): string {
    Candidate(name, FirstAcceptable(existing, name, opt, 1))
  }

  /** The first n candidates all name a different option. */
  ghost predicate Rejected(existing: map<string, TlsOption>, name: string, opt: TlsOption, n: nat) {
    forall j :: 1 <= j <= n ==> !Acceptable(existing, Candidate(name, j), opt)
  }

  lemma {:induction false} RejectedAreTaken(existing: map<string, TlsOption>, name: string, opt: TlsOption, n: nat, k: nat)
    requires Rejected(existing, name, opt, n) && 1 <= k <= n
    ensures Candidate(name, k) in existing
  {
    assert !Acceptable(existing, Candidate(name, k), opt);
  }

  lemma {:induction false} RejectedBound(existing: map<string, TlsOption>, name: string, opt: TlsOption, n: nat)
    requires Rejected(existing, name, opt, n)
    ensures n <= |existing|
  {
    forall k: nat | 1 <= k <= n ensures Candidate(name, k) in existing {
      RejectedAreTaken(existing, name, opt, n, k);
    }
    TakenBound(existing, name, n);
  }

  lemma {:induction false} RejectedMore(existing: map<string, TlsOption>, name: string, opt: TlsOption, n: nat)
    requires Rejected(existing, name, opt, n) && !Acceptable(existing, Candidate(name, n + 1), opt)
    ensures Rejected(existing, name, opt, n + 1) && n + 1 <= |existing|
  {
    var m := n + 1;
    forall j | 1 <= j <= m ensures !Acceptable(existing, Candidate(name, j), opt) {
      assert j <= n || j == m;
    }
    RejectedBound(existing, name, opt, m);
  }

  lemma {:induction false} FirstIsUnique(existing: map<string, TlsOption>, name: string, opt: TlsOption, n: nat)
    requires Rejected(existing, name, opt, n) && Acceptable(existing, Candidate(name, n + 1), opt)
    ensures UniqueName(existing, name, opt) == Candidate(name, n + 1)
  {
    var first := FirstAcceptable(existing, name, opt, 1);
    assert first <= n + 1;
  }

  /** The loop ends within one more step than there are options, at the first acceptable name. */
  method UniqueOptionName(existing: map<string, TlsOption>, name: string, opt: TlsOption) returns (candidate: string)
    ensures candidate == UniqueName(existing, name, opt) && Acceptable(existing, candidate, opt)
    ensures name !in existing || existing[name] == opt ==> candidate == name
    ensures candidate == name || exists i :: 2 <= i <= |existing| + 1 && candidate == name + "-" + Decimal(i)
  {
    candidate := name;
    var i := 2;
    while !Acceptable(existing, candidate, opt)
      invariant i >= 2 && candidate == Candidate(name, i - 1)
      invariant Rejected(existing, name, opt, i - 2)
      decreases |existing| + 2 - i
    {
      RejectedMore(existing, name, opt, i - 2);
      candidate := name + "-" + Decimal(i);
      i := i + 1;
    }
    FirstIsUnique(existing, name, opt, i - 2);
  }
}
