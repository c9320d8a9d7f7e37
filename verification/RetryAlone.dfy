/** One flush that nothing interrupts, as the method performs it and as the steps of the interleaved system. */
module RetryAlone {
  import opened RetryBuffer
  import opened RetryOverlap

  // ---- What the failures and the successes are ----------------------------------------------

  /** Each failed write's snapshot stands among the failures behind those that failed before it, and none other does. */
  lemma {:induction false} FailuresInOrder<T>(s: seq<T>, n: nat, writes: nat -> bool, k: nat)
    requires k < n <= |s|
    ensures |Failures(s, k, writes)| <= |Failures(s, n, writes)| && |Failures(s, n, writes)| + |Successes(s, n, writes)| == n
    ensures Failures(s, k, writes) == Failures(s, n, writes)[..|Failures(s, k, writes)|]
    ensures !writes(k) ==> |Failures(s, k, writes)| < |Failures(s, n, writes)|
                           && Failures(s, n, writes)[|Failures(s, k, writes)|] == s[k]
    decreases n
  {
    var m: nat := n - 1;
    AllTried(s, m, writes);
    if k < m {
      FailuresInOrder(s, m, writes, k);
    }
  }

  lemma {:induction false} AllTried<T>(s: seq<T>, n: nat, writes: nat -> bool)
    requires n <= |s|
    ensures |Failures(s, n, writes)| + |Successes(s, n, writes)| == n
  {
    if n > 0 {
      AllTried(s, n - 1, writes);
    }
  }

  /** A snapshot is written by a successful write, and only there; a failed one comes into the flush's hand. */
  lemma WrittenExactly<T>(s: State<T>, step: Step<T>)
    requires Enabled(s, step)
    ensures Next(s, step).written == s.written + (if step.Write? && step.ok then multiset{s.flushers[step.f].todo[0]} else multiset{})
    ensures step.Write? && !step.ok ==> Next(s, step).flushers[step.f] == Pushing(s.flushers[step.f].todo[0], s.flushers[step.f].todo[1..])
  {
  }

  // ---- A flush alone -------------------------------------------------------------------------

  /** The flush has tried the first n of `all`: the last five failures are buffered, the successes written, the rest is to do. */
  ghost predicate HasTried<T>(s: State<T>, f: nat, all: seq<T>, n: nat, writes: nat -> bool, before: multiset<T>) {
    && f < |s.flushers| && n <= |all| && s.flushers[f] == Writing(all[n..])
    && KeepsFailures(s.buf, all, n, writes) && s.written == before + multiset(Successes(all, n, writes))
  }

  lemma WritesOne<T>(s: State<T>, f: nat, all: seq<T>, n: nat, writes: nat -> bool, before: multiset<T>) returns (t: State<T>)
    requires n < |all| && HasTried(s, f, all, n, writes, before) && writes(n)
    ensures Enabled(s, Write(f, true)) && t == Next(s, Write(f, true))
    ensures HasTried(t, f, all, n + 1, writes, before) && t.flushers == s.flushers[f := Writing(all[n + 1..])]
  {
    t := Next(s, Write(f, true));
    assert all[n..][1..] == all[n + 1..] && all[n..][0] == all[n];
    assert multiset(Successes(all, n, writes) + [all[n]]) == multiset(Successes(all, n, writes)) + multiset{all[n]};
  }

  lemma FailsOne<T>(s: State<T>, f: nat, all: seq<T>, n: nat, writes: nat -> bool, before: multiset<T>) returns (s1: State<T>, t: State<T>)
    requires n < |all| && HasTried(s, f, all, n, writes, before) && !writes(n)
    ensures Enabled(s, Write(f, false)) && s1 == Next(s, Write(f, false)) && Enabled(s1, PushBack(f)) && t == Next(s1, PushBack(f))
    ensures HasTried(t, f, all, n + 1, writes, before) && t.flushers == s.flushers[f := Writing(all[n + 1..])]
  {
    s1 := Next(s, Write(f, false));
    assert all[n..][1..] == all[n + 1..] && all[n..][0] == all[n];
    t := Next(s1, PushBack(f));
    PushIsLastN(Failures(all, n, writes), all[n]);
    assert t.flushers == s.flushers[f := Writing(all[n + 1..])];
  }

  lemma TriesOne<T>(s: State<T>, f: nat, all: seq<T>, n: nat, writes: nat -> bool, before: multiset<T>) returns (t: State<T>, steps: seq<Step<T>>)
    requires n < |all| && HasTried(s, f, all, n, writes, before)
    ensures HasTried(t, f, all, n + 1, writes, before) && t.flushers == s.flushers[f := Writing(all[n + 1..])]
    ensures Reaches(s, steps, t) && NoneBegins(steps)
  {
    if writes(n) {
      t := WritesOne(s, f, all, n, writes, before);
      steps := [Write(f, true)] + [];
      ReachesStep(s, Write(f, true), [], t);
    } else {
      var s1;
      s1, t := FailsOne(s, f, all, n, writes, before);
      steps := [Write(f, false)] + ([PushBack(f)] + []);
      ReachesStep(s1, PushBack(f), [], t);
      ReachesStep(s, Write(f, false), [PushBack(f)] + [], t);
    }
  }

  lemma {:induction false} TriesAll<T>(s: State<T>, f: nat, all: seq<T>, n: nat, writes: nat -> bool, before: multiset<T>)
    returns (t: State<T>, steps: seq<Step<T>>)
    requires HasTried(s, f, all, n, writes, before)
    ensures HasTried(t, f, all, |all|, writes, before) && t.flushers == s.flushers[f := Writing([])]
    ensures Reaches(s, steps, t) && NoneBegins(steps)
    decreases |all| - n
  {
    if n == |all| {
      assert all[n..] == [];
      t, steps := s, [];
    } else {
      var mid, first := TriesOne(s, f, all, n, writes, before);
      var rest;
      t, rest := TriesAll(mid, f, all, n + 1, writes, before);
      steps := first + rest;
      ReachesOn(s, first, mid, rest, t);
    }
  }

  /**
   * The steps of one flush that nothing interrupts lead where the method Flush leads: the buffer
   * holds the last at most five failures of buffered followed by current, and the successes are written.
   */
  lemma {:induction false} FlushIsRun<T>(s: State<T>, current: seq<T>, writes: nat -> bool) returns (t: State<T>, steps: seq<Step<T>>)
    ensures Reaches(Next(s, Begin(current)), steps, t) && NoneBegins(steps)
    ensures var all := s.buf + current;
            && KeepsFailures(t.buf, all, |all|, writes)
            && t.written == s.written + multiset(Successes(all, |all|, writes))
            && t.flushers == s.flushers + [Writing([])]
  {
    var all, f := s.buf + current, |s.flushers|;
    var s1 := Next(s, Begin(current));
    var s2 := Next(s1, DrainBuffer(f));
    assert all[0..] == all;
    var rest;
    t, rest := TriesAll(s2, f, all, 0, writes, s.written);
    steps := [DrainBuffer(f)] + rest;
    ReachesStep(s1, DrainBuffer(f), rest, t);
  }
}
