/**
 * The listen-port allocator for Traefik host entries: a class that follows the
 * in-place code, the value-level transitions it implements, and what every
 * sequence of claims and allocations keeps.
 */
module PortAllocation {
  import opened Text
  import opened Types

  datatype HostSpec = HostSpec(domain: string, targetPort: int)

  /** The allocator's two maps; `claimed` is the key set of the field of that name, a `map[int]struct{}`, and `portOf` is the field `assigned`. */
  datatype State = State(base: int, claimed: set<int>, portOf: map<string, int>)

  datatype Op = Claim(mappings: seq<PortMapping>) | Allocate(specs: seq<HostSpec>)

  function Start(base: int): State {
    State(base, {}, map[])
  }

  // ---- The least free port -------------------------------------------------

  /** p is the smallest unclaimed port at or above base. */
  ghost predicate IsLeastFree(claimed: set<int>, base: int, p: int) {
    base <= p && p !in claimed && forall q :: base <= q < p ==> q in claimed
  }

  function Interval(lo: int, hi: int): (r: set<int>)
    requires lo <= hi
    ensures |r| == hi - lo && forall x :: x in r <==> lo <= x < hi
    decreases hi - lo
  {
    if lo == hi then {} else Interval(lo, hi - 1) + {hi - 1}
  }

  lemma SubsetSize(a: set<int>, b: set<int>)
    requires a <= b
    ensures |a| <= |b|
  {
    assert b == a + (b - a);
  }

  /** A run of claimed ports starting at base is no longer than the claimed set. */
  lemma ClaimedRunBound(claimed: set<int>, base: int, p: int)
    requires base <= p
    requires forall q :: base <= q < p ==> q in claimed
    ensures p - base <= |claimed|
  {
    SubsetSize(Interval(base, p), claimed);
  }

  function SearchFree(claimed: set<int>, base: int, p: int): (r: int)
    requires base <= p && forall q :: base <= q < p ==> q in claimed
    ensures IsLeastFree(claimed, base, r)
    decreases base + |claimed| - p
  {
    ClaimedRunBound(claimed, base, p);
    if p !in claimed then p
    else
      ClaimedRunBound(claimed, base, p + 1);
      SearchFree(claimed, base, p + 1)
  }

  function LeastFree(claimed: set<int>, base: int): (r: int)
    ensures IsLeastFree(claimed, base, r)
  {
    SearchFree(claimed, base, base)
  }

  // ---- Value-level transitions ---------------------------------------------

  function Ports(mappings: seq<PortMapping>): set<int> {
    set i | 0 <= i < |mappings| :: mappings[i].listenPort
  }

  function AssignDomain(s: State, domain: string): State {
    if domain == "" || domain in s.portOf then s
    else
      var p := LeastFree(s.claimed, s.base);
      State(s.base, s.claimed + {p}, s.portOf[domain := p])
  }

  function AssignAll(s: State, specs: seq<HostSpec>): State {
    if specs == [] then s else AssignDomain(AssignAll(s, specs[..|specs| - 1]), specs[|specs| - 1].domain)
  }

  function Apply(s: State, op: Op): State {
    match op
    case Claim(mappings) => s.(claimed := s.claimed + Ports(mappings))
    case Allocate(specs) => AssignAll(s, specs)
  }

  function Run(s: State, ops: seq<Op>): State {
    if ops == [] then s else Apply(Run(s, ops[..|ops| - 1]), ops[|ops| - 1])
  }

  function PrintHost(domain: string, port: int): string {
    domain + ":" + Decimal(port)
  }

  /** The specs whose domain is not empty, in order. */
  function Named(specs: seq<HostSpec>): seq<HostSpec> {
    if specs == [] then []
    else
      var last := specs[|specs| - 1];
      Named(specs[..|specs| - 1]) + (if last.domain == "" then [] else [last])
  }

  // ---- What every run keeps -------------------------------------------------

  ghost predicate Injective(m: map<string, int>) {
    forall d, e :: d in m && e in m && m[d] == m[e] ==> d == e
  }

  ghost predicate Sound(s: State) {
    && Injective(s.portOf)
    && (forall d :: d in s.portOf ==> d != "" && s.portOf[d] in s.claimed && s.base <= s.portOf[d])
  }

  /** t extends s: nothing claimed or assigned is ever given up or changed. */
  ghost predicate Extends(s: State, t: State) {
    && t.base == s.base
    && s.claimed <= t.claimed
    && (forall d :: d in s.portOf ==> d in t.portOf && t.portOf[d] == s.portOf[d])
    && (forall d :: d in t.portOf && d !in s.portOf ==> t.portOf[d] !in s.claimed)
  }

  lemma {:induction false} AssignAllKeeps(s: State, specs: seq<HostSpec>)
    requires Sound(s)
    ensures Sound(AssignAll(s, specs)) && Extends(s, AssignAll(s, specs))
    ensures forall i :: 0 <= i < |specs| && specs[i].domain != "" ==> specs[i].domain in AssignAll(s, specs).portOf
  {
    if specs != [] {
      AssignAllKeeps(s, specs[..|specs| - 1]);
    }
  }

  /**
   * Over every sequence of claims and allocations the domain-to-port map is
   * injective, only ever grows, and gives out no port that was claimed earlier.
   */
  lemma {:induction false} RunKeeps(s: State, ops: seq<Op>)
    requires Sound(s)
    ensures Sound(Run(s, ops)) && Extends(s, Run(s, ops))
  {
    if ops != [] {
      RunKeeps(s, ops[..|ops| - 1]);
      var mid := Run(s, ops[..|ops| - 1]);
      match ops[|ops| - 1]
      case Claim(_) =>
      case Allocate(specs) => AssignAllKeeps(mid, specs);
    }
  }

  lemma {:induction false} RunSplit(s: State, ops: seq<Op>, k: nat)
    requires k <= |ops|
    ensures Run(s, ops) == Run(Run(s, ops[..k]), ops[k..])
    decreases |ops|
  {
    if k == |ops| {
      assert ops[..k] == ops && ops[k..] == [];
    } else {
      RunSplit(s, ops[..|ops| - 1], k);
      assert ops[..|ops| - 1][..k] == ops[..k];
      assert ops[..|ops| - 1][k..] == ops[k..][..|ops[k..]| - 1];
    }
  }

  /** A domain keeps the port it had at any earlier point of the run, and no two domains ever share one. */
  lemma {:induction false} AssignmentsAreStable(base: int, ops: seq<Op>, k: nat, d: string)
    requires k <= |ops| && d in Run(Start(base), ops[..k]).portOf
    ensures var early := Run(Start(base), ops[..k]).portOf; var late := Run(Start(base), ops).portOf;
            d in late && late[d] == early[d] && forall e :: e in late && late[e] == early[d] ==> e == d
  {
    RunKeeps(Start(base), ops[..k]);
    RunKeeps(Run(Start(base), ops[..k]), ops[k..]);
    RunSplit(Start(base), ops, k);
  }

  /** A domain met for the first time gets the least port at or above base that nobody has claimed, within |claimed| of base. */
  lemma NewPortIsLeastFree(s: State, domain: string)
    requires domain != "" && domain !in s.portOf
    ensures var p := AssignDomain(s, domain).portOf[domain];
            IsLeastFree(s.claimed, s.base, p) && p <= s.base + |s.claimed|
  {
    ClaimedRunBound(s.claimed, s.base, LeastFree(s.claimed, s.base));
  }

  lemma {:induction false} NamedCovered(s: State, specs: seq<HostSpec>)
    requires Sound(s)
    ensures forall i :: 0 <= i < |Named(specs)| ==> Named(specs)[i].domain in AssignAll(s, specs).portOf
  {
    if specs != [] {
      NamedCovered(s, specs[..|specs| - 1]);
    }
  }

  /** A port claimed by a mapping is assigned to no domain that first gets its port later. */
  lemma {:induction false} ClaimedPortIsNeverGiven(base: int, ops: seq<Op>, k: nat, i: nat, d: string)
    requires k < |ops| && ops[k].Claim? && i < |ops[k].mappings|
    requires d in Run(Start(base), ops).portOf && d !in Run(Start(base), ops[..k]).portOf
    ensures Run(Start(base), ops).portOf[d] != ops[k].mappings[i].listenPort
  {
    var before, mid := Run(Start(base), ops[..k]), Run(Start(base), ops[..k + 1]);
    assert ops[..k + 1][..k] == ops[..k];
    assert mid == before.(claimed := before.claimed + Ports(ops[k].mappings));
    assert ops[k].mappings[i].listenPort in mid.claimed;
    RunKeeps(Start(base), ops[..k + 1]);
    RunKeeps(mid, ops[k + 1..]);
    RunSplit(Start(base), ops, k + 1);
  }

  /** A port is claimed only by a mapping of an earlier claim or as the port of some domain. */
  lemma {:induction false} ClaimedExactly(base: int, ops: seq<Op>, p: int)
    ensures var s := Run(Start(base), ops);
            p in s.claimed <==> p in s.portOf.Values || ClaimedBy(ops, p)
  {
    if ops != [] {
      var front, last := ops[..|ops| - 1], ops[|ops| - 1];
      var mid := Run(Start(base), front);
      ClaimedExactly(base, front, p);
      ClaimedByMore(ops, p);
      RunKeeps(Start(base), front);
      if last.Allocate? {
        AssignAllClaims(mid, last.specs, p);
      }
    }
  }

  predicate ClaimedBy(ops: seq<Op>, p: int) {
    exists k, i :: 0 <= k < |ops| && ops[k].Claim? && 0 <= i < |ops[k].mappings| && ops[k].mappings[i].listenPort == p
  }

  lemma ClaimedByMore(ops: seq<Op>, p: int)
    requires ops != []
    ensures var last := ops[|ops| - 1];
            ClaimedBy(ops, p) <==> ClaimedBy(ops[..|ops| - 1], p) || (last.Claim? && p in Ports(last.mappings))
  {
    var front, last := ops[..|ops| - 1], ops[|ops| - 1];
    assert forall k :: 0 <= k < |front| ==> front[k] == ops[k];
    assert ops[|front|] == last;
    if ClaimedBy(front, p) {
      var k, i :| 0 <= k < |front| && front[k].Claim? && 0 <= i < |front[k].mappings| && front[k].mappings[i].listenPort == p;
      assert ops[k].mappings[i].listenPort == p;
    }
    if last.Claim? && p in Ports(last.mappings) {
      var i :| 0 <= i < |last.mappings| && last.mappings[i].listenPort == p;
      assert ops[|front|].mappings[i].listenPort == p;
    }
  }

  lemma {:induction false} AssignAllClaims(s: State, specs: seq<HostSpec>, p: int)
    requires p in s.portOf.Values ==> p in s.claimed
    ensures var t := AssignAll(s, specs);
            && (p in t.claimed <==> p in s.claimed || p in t.portOf.Values) && (p in s.portOf.Values ==> p in t.portOf.Values)
  {
    if specs != [] {
      var front, domain := specs[..|specs| - 1], specs[|specs| - 1].domain;
      AssignAllClaims(s, front, p);
      AssignedValues(AssignAll(s, front), domain, p);
    }
  }

  lemma AssignedValues(s: State, domain: string, p: int)
    ensures var t := AssignDomain(s, domain);
            if domain == "" || domain in s.portOf then t == s
            else domain in t.portOf && t.claimed == s.claimed + {t.portOf[domain]} && (p in t.portOf.Values <==> p in s.portOf.Values || p == t.portOf[domain])
  {
    var t := AssignDomain(s, domain);
    if domain != "" && domain !in s.portOf {
      assert t.portOf.Values == s.portOf.Values + {t.portOf[domain]} by {
        forall v: int | v in s.portOf.Values ensures v in t.portOf.Values {
          ValueKept(s.portOf, t.portOf, v);
        }
        assert t.portOf[domain] in t.portOf.Values;
      }
    }
  }

  lemma ValueKept(m: map<string, int>, n: map<string, int>, v: int)
    requires v in m.Values && forall d :: d in m ==> d in n && n[d] == m[d]
    ensures v in n.Values
  {
    var d :| d in m && m[d] == v;
    assert d in n && n[d] == v;
  }

  /** An allocation gives ports to exactly the named domains of its specs, besides those that had one. */
  lemma {:induction false} OnlyNamedDomains(s: State, specs: seq<HostSpec>, d: string)
    ensures d in AssignAll(s, specs).portOf <==>
              d in s.portOf || (d != "" && exists i :: 0 <= i < |specs| && specs[i].domain == d)
  {
    if specs != [] {
      var front, last := specs[..|specs| - 1], specs[|specs| - 1];
      OnlyNamedDomains(s, front, d);
      assert specs == front + [last];
      if i :| 0 <= i < |front| && front[i].domain == d {
        assert specs[i].domain == d;
      }
      if last.domain == d {
        assert specs[|front|].domain == d;
      }
    }
  }

  /** Taking the named specs of a list goes part by part, so it keeps the order. */
  lemma {:induction false} NamedSplits(a: seq<HostSpec>, b: seq<HostSpec>)
    ensures Named(a + b) == Named(a) + Named(b)
    decreases |b|
  {
    if b == [] {
      assert a + b == a;
    } else {
      NamedSplits(a, b[..|b| - 1]);
      assert (a + b)[..|a + b| - 1] == a + b[..|b| - 1];
    }
  }

  /** Of a single spec it leaves out exactly one with an empty domain. */
  lemma NamedOne(spec: HostSpec)
    ensures Named([spec]) == if spec.domain == "" then [] else [spec]
  {
    assert [spec][..0] == [];
  }

  // ---- The in-place allocator -------------------------------------------------

  class PortAllocator {
    var base: int
    var claimed: set<int>
    var portOf: map<string, int>

    ghost function View(): State
      reads this
    {
      State(base, claimed, portOf)
    }

    constructor (base: int)
      ensures View() == Start(base)
    {
      this.base := base;
      claimed := {};
      portOf := map[];
    }

    method ClaimPorts(mappings: seq<PortMapping>)
      modifies this
      ensures View() == Apply(old(View()), Claim(mappings))
    {
      var i := 0;
      while i < |mappings|
        invariant 0 <= i <= |mappings|
        invariant base == old(base) && portOf == old(portOf)
        invariant claimed == old(claimed) + Ports(mappings[..i])
      {
        claimed := claimed + {mappings[i].listenPort};
        assert Ports(mappings[..i + 1]) == Ports(mappings[..i]) + {mappings[i].listenPort} by {
          assert mappings[..i + 1][i] == mappings[i];
          assert forall j :: 0 <= j < i ==> mappings[..i + 1][j] == mappings[..i][j];
        }
        i := i + 1;
      }
      assert mappings[..i] == mappings;
    }

    /** The search ends after at most |claimed| increments, at the least free port. */
    method NextFree() returns (p: int)
      ensures IsLeastFree(claimed, base, p) && p <= base + |claimed|
    {
      p := base;
      while p in claimed
        invariant base <= p <= base + |claimed|
        invariant forall q :: base <= q < p ==> q in claimed
        decreases base + |claimed| - p
      {
        ClaimedRunBound(claimed, base, p + 1);
        p := p + 1;
      }
    }

    /**
     * One host line and one mapping per named spec, in order: the line prints the
     * domain with its port in the final assignment, the mapping carries that port.
     */
    method AllocatePortMappings(specs: seq<HostSpec>) returns (hosts: seq<string>, mappings: seq<PortMapping>)
      requires Sound(View())
      modifies this
      ensures View() == Apply(old(View()), Allocate(specs)) && Sound(View()) && Extends(old(View()), View())
      ensures |hosts| == |mappings| == |Named(specs)|
      ensures forall i :: 0 <= i < |hosts| ==>
        && Named(specs)[i].domain in portOf
        && hosts[i] == PrintHost(Named(specs)[i].domain, portOf[Named(specs)[i].domain])
        && mappings[i] == PortMapping(portOf[Named(specs)[i].domain], Named(specs)[i].targetPort)
    {
      hosts, mappings := [], [];
      var i := 0;
      while i < |specs|
        invariant 0 <= i <= |specs|
        invariant View() == AssignAll(old(View()), specs[..i]) && Sound(View())
        invariant |hosts| == |mappings| == |Named(specs[..i])|
        invariant forall k :: 0 <= k < |hosts| ==>
          && Named(specs[..i])[k].domain in portOf
          && hosts[k] == PrintHost(Named(specs[..i])[k].domain, portOf[Named(specs[..i])[k].domain])
          && mappings[k] == PortMapping(portOf[Named(specs[..i])[k].domain], Named(specs[..i])[k].targetPort)
      {
        var spec := specs[i];
        assert specs[..i + 1][..i] == specs[..i];
        i := i + 1;
        if spec.domain == "" {
          continue;
        }
        var p;
        if spec.domain in portOf {
          p := portOf[spec.domain];
        } else {
          p := NextFree();
          assert p == LeastFree(claimed, base);
          portOf := portOf[spec.domain := p];
          claimed := claimed + {p};
        }
        hosts := hosts + [PrintHost(spec.domain, p)];
        mappings := mappings + [PortMapping(p, spec.targetPort)];
      }
      assert specs[..i] == specs;
      AssignAllKeeps(old(View()), specs);
    }
  }
}
