/** The bounded buffer of snapshots that failed to be written, and flushes that use it, alone and concurrently. */
module RetryBuffer {
  const CAPACITY: nat := 5

  /** The last at most n elements. */
  function LastN<T>(s: seq<T>, n: nat): seq<T> {
    if |s| <= n then s else s[|s| - n..]
  }

  function Push<T>(buf: seq<T>, x: T): seq<T> {
    (if |buf| >= CAPACITY then buf[1..] else buf) + [x]
  }

  class Buffer<T> {
    var buf: seq<T>

    constructor ()
      ensures buf == []
    {
      buf := [];
    }

    method PushOne(x: T)
      modifies this
      ensures buf == Push(old(buf), x)
      ensures |old(buf)| <= 5 ==> |buf| <= 5 && buf == LastN(old(buf) + [x], 5)
    {
      if |buf| >= CAPACITY {
        buf := buf[1..];
      }
      buf := buf + [x];
    }

    method Drain() returns (out: seq<T>)
      modifies this
      ensures out == old(buf) && buf == []
    {
      out := buf;
      buf := [];
    }

    /** Tries one batch, which starts at write number `done` of the whole flush; failures go to the buffer. */
    method TryEach(batch: seq<T>, done: nat, ghost all: seq<T>, writes: nat -> bool) returns (written: seq<T>)
      requires IsBatch(all, done, batch) && KeepsFailures(buf, all, done, writes)
      modifies this
      ensures KeepsFailures(buf, all, done + |batch|, writes)
      ensures Successes(all, done + |batch|, writes) == Successes(all, done, writes) + written
    {
      written := [];
      for i := 0 to |batch|
        invariant KeepsFailures(buf, all, done + i, writes)
        invariant Successes(all, done + i, writes) == Successes(all, done, writes) + written
      {
        if writes(done + i) {
          written := written + [batch[i]];
        } else {
          PushIsLastN(Failures(all, done + i, writes), batch[i]);
          PushOne(batch[i]);
        }
      }
    }

    /**
     * One flush alone: everything buffered and then everything current is tried in order, and
     * the buffer ends up with the last at most five of the failures, in order. `writes(k)` says
     * whether the k-th write succeeds.
     */
    method Flush(current: seq<T>, writes: nat -> bool) returns (written: seq<T>)
      requires |buf| <= 5
      modifies this
      ensures var all := old(buf) + current;
              KeepsFailures(buf, all, |all|, writes) && written == Successes(all, |all|, writes)
      ensures |buf| <= 5
    {
      var pending := Drain();
      Batches(pending, current);
      KeepsNone(pending + current, writes);
      written := TryBoth(pending, current, pending + current, writes);
      KeepsAtMostFive(buf, pending + current, |pending + current|, writes);
    }

    method TryBoth(pending: seq<T>, current: seq<T>, ghost all: seq<T>, writes: nat -> bool) returns (written: seq<T>)
      requires IsBatch(all, 0, pending) && IsBatch(all, |pending|, current) && KeepsFailures(buf, all, 0, writes)
      modifies this
      ensures KeepsFailures(buf, all, |pending| + |current|, writes)
      ensures Successes(all, |pending| + |current|, writes) == Successes(all, 0, writes) + written
    {
      var first := TryEach(pending, 0, all, writes);
      var second := TryEach(current, |pending|, all, writes);
      written := first + second;
    }
  }

  /** buf is the last at most five failures among the first n writes, in order. */
  ghost predicate KeepsFailures<T>(buf: seq<T>, all: seq<T>, n: nat, writes: nat -> bool) {
    n <= |all| && buf == LastN(Failures(all, n, writes), 5)
  }

  lemma KeepsNone<T>(all: seq<T>, writes: nat -> bool)
    ensures KeepsFailures([], all, 0, writes) && Successes(all, 0, writes) == []
  {
  }

  lemma KeepsAtMostFive<T>(buf: seq<T>, all: seq<T>, n: nat, writes: nat -> bool)
    requires KeepsFailures(buf, all, n, writes)
    ensures |buf| <= 5
  {
  }

  /** batch is the part of all that starts at number done. */
  ghost predicate IsBatch<T>(all: seq<T>, done: nat, batch: seq<T>) {
    done + |batch| <= |all| && forall i :: 0 <= i < |batch| ==> batch[i] == all[done + i]
  }

  lemma Batches<T>(a: seq<T>, b: seq<T>)
    ensures IsBatch(a + b, 0, a) && IsBatch(a + b, |a|, b) && |a + b| == |a| + |b|
  {
  }

  /** Those of the first n elements whose write fails, in order. */
  function Failures<T>(s: seq<T>, n: nat, writes: nat -> bool): seq<T>
    requires n <= |s|
  {
    if n == 0 then [] else Failures(s, n - 1, writes) + (if writes(n - 1) then [] else [s[n - 1]])
  }

  /** Those of the first n elements whose write succeeds, in order. */
  function Successes<T>(s: seq<T>, n: nat, writes: nat -> bool): seq<T>
    requires n <= |s|
  {
    if n == 0 then [] else Successes(s, n - 1, writes) + (if writes(n - 1) then [s[n - 1]] else [])
  }

  /** Pushing onto the last five keeps the last five. */
  lemma PushIsLastN<T>(s: seq<T>, x: T)
    ensures Push(LastN(s, 5), x) == LastN(s + [x], 5)
  {
  }

  // ---- Concurrent flushes ----------------------------------------------------------------------

  /** A flush: not yet drained, between writes, holding a snapshot whose write failed, or done. */
  datatype Flusher<T> =
    | Waiting(current: seq<T>)
    | Writing(todo: seq<T>)
    | Pushing(failed: T, todo: seq<T>)

  datatype State<T> = State(
    buf: seq<T>,
    flushers: seq<Flusher<T>>,
    written: multiset<T>,
    dropped: multiset<T>)

  datatype Step<T> =
    | Begin(current: seq<T>)
    | DrainBuffer(f: nat)
    | Write(f: nat, ok: bool)
    | PushBack(f: nat)

  predicate Enabled<T>(s: State<T>, step: Step<T>) {
    match step
    case Begin(_) => true
    case DrainBuffer(f) => f < |s.flushers| && s.flushers[f].Waiting?
    case Write(f, _) => f < |s.flushers| && s.flushers[f].Writing? && s.flushers[f].todo != []
    case PushBack(f) => f < |s.flushers| && s.flushers[f].Pushing?
  }

  function Next<T>(s: State<T>, step: Step<T>): State<T>
    requires Enabled(s, step)
  {
    match step
    case Begin(current) => s.(flushers := s.flushers + [Waiting(current)])
    case DrainBuffer(f) => s.(buf := [], flushers := s.flushers[f := Writing(s.buf + s.flushers[f].current)])
    case Write(f, ok) =>
      var head, rest := s.flushers[f].todo[0], s.flushers[f].todo[1..];
      if ok then s.(flushers := s.flushers[f := Writing(rest)], written := s.written + multiset{head})
      else s.(flushers := s.flushers[f := Pushing(head, rest)])
    case PushBack(f) =>
      State(Push(s.buf, s.flushers[f].failed),
            s.flushers[f := Writing(s.flushers[f].todo)],
            s.written,
            s.dropped + (if |s.buf| >= CAPACITY then multiset{s.buf[0]} else multiset{}))
  }

  function Empty<T>(): State<T> {
    State([], [], multiset{}, multiset{})
  }

  function After<T>(steps: seq<Step<T>>): State<T> {
    if steps == [] then Empty()
    else
      var before := After(steps[..|steps| - 1]);
      if Enabled(before, steps[|steps| - 1]) then Next(before, steps[|steps| - 1]) else before
  }

  ghost predicate IsRun<T>(steps: seq<Step<T>>) {
    steps == [] || (IsRun(steps[..|steps| - 1]) && Enabled(After(steps[..|steps| - 1]), steps[|steps| - 1]))
  }

  // ---- Each snapshot is in exactly one place ------------------------------------------------------

  function Count<T(==)>(s: seq<T>, x: T): nat {
    if s == [] then 0 else Count(s[..|s| - 1], x) + (if s[|s| - 1] == x then 1 else 0)
  }

  /** How often x is among what one flush still has in its hands. */
  function Held<T(==)>(f: Flusher<T>, x: T): nat {
    match f
    case Waiting(current) => Count(current, x)
    case Writing(todo) => Count(todo, x)
    case Pushing(failed, todo) => Count(todo, x) + (if failed == x then 1 else 0)
  }

  function InHands<T(==)>(flushers: seq<Flusher<T>>, x: T): nat {
    if flushers == [] then 0
    else InHands(flushers[..|flushers| - 1], x) + Held(flushers[|flushers| - 1], x)
  }

  /** How often x was handed to a flush. */
  function Created<T(==)>(steps: seq<Step<T>>, x: T): nat {
    if steps == [] then 0
    else
      Created(steps[..|steps| - 1], x)
      + (if steps[|steps| - 1].Begin? then Count(steps[|steps| - 1].current, x) else 0)
  }

  /** Written, buffered, in some flush's hands, or dropped. */
  function Everywhere<T(==)>(s: State<T>, x: T): nat {
    s.written[x] + Count(s.buf, x) + InHands(s.flushers, x) + s.dropped[x]
  }

  lemma {:induction false} CountConcat<T>(a: seq<T>, b: seq<T>, x: T)
    ensures Count(a + b, x) == Count(a, x) + Count(b, x)
    decreases |b|
  {
    if b == [] {
      assert a + b == a;
    } else {
      assert (a + b)[..|a + b| - 1] == a + b[..|b| - 1];
      CountConcat(a, b[..|b| - 1], x);
    }
  }

  lemma CountOneMore<T>(s: seq<T>, y: T, x: T)
    ensures Count(s + [y], x) == Count(s, x) + (if y == x then 1 else 0)
  {
    assert (s + [y])[..|s|] == s;
  }

  /** Each further write adds its snapshot to the failures or to the successes. */
  lemma {:induction false} OneMoreWrite<T>(s: seq<T>, n: nat, writes: nat -> bool, x: T)
    requires n < |s|
    ensures Count(Failures(s, n + 1, writes), x) + Count(Successes(s, n + 1, writes), x)
         == Count(Failures(s, n, writes), x) + Count(Successes(s, n, writes), x) + (if s[n] == x then 1 else 0)
  {
    if writes(n) {
      assert Failures(s, n + 1, writes) == Failures(s, n, writes);
      CountOneMore(Successes(s, n, writes), s[n], x);
    } else {
      assert Successes(s, n + 1, writes) == Successes(s, n, writes);
      CountOneMore(Failures(s, n, writes), s[n], x);
    }
  }

  lemma CountPrefix<T>(s: seq<T>, n: nat, x: T)
    requires n < |s|
    ensures Count(s[..n + 1], x) == Count(s[..n], x) + (if s[n] == x then 1 else 0)
  {
    assert s[..n + 1] == s[..n] + [s[n]];
    CountOneMore(s[..n], s[n], x);
  }

  /** Failures and successes together are exactly what was tried. */
  lemma {:induction false} EachWriteFailsOrSucceeds<T>(s: seq<T>, n: nat, writes: nat -> bool, x: T)
    requires n <= |s|
    ensures Count(Failures(s, n, writes), x) + Count(Successes(s, n, writes), x) == Count(s[..n], x)
  {
    if n == 0 {
      assert s[..0] == [];
    } else {
      var m: nat := n - 1;
      EachWriteFailsOrSucceeds(s, m, writes, x);
      OneMoreWrite(s, m, writes, x);
      CountPrefix(s, m, x);
    }
  }

  lemma CountHead<T>(s: seq<T>, x: T)
    requires s != []
    ensures Count(s, x) == (if s[0] == x then 1 else 0) + Count(s[1..], x)
  {
    assert s == [s[0]] + s[1..];
    CountConcat([s[0]], s[1..], x);
    assert [s[0]][..0] == [];
  }

  lemma {:induction false} InHandsUpdate<T>(flushers: seq<Flusher<T>>, f: nat, g: Flusher<T>, x: T)
    requires f < |flushers|
    ensures InHands(flushers[f := g], x) + Held(flushers[f], x) == InHands(flushers, x) + Held(g, x)
    decreases |flushers|
  {
    var updated := flushers[f := g];
    if f == |flushers| - 1 {
      assert updated[..|updated| - 1] == flushers[..|flushers| - 1];
    } else {
      assert updated[..|updated| - 1] == flushers[..|flushers| - 1][f := g];
      InHandsUpdate(flushers[..|flushers| - 1], f, g, x);
    }
  }

  lemma {:induction false} PushAccounts<T>(buf: seq<T>, y: T, x: T)
    ensures Count(Push(buf, y), x) + (if |buf| >= CAPACITY && buf[0] == x then 1 else 0)
         == Count(buf, x) + (if y == x then 1 else 0)
  {
    var kept := if |buf| >= CAPACITY then buf[1..] else buf;
    assert (kept + [y])[..|kept|] == kept;
    if |buf| >= CAPACITY {
      CountHead(buf, x);
    }
  }

  lemma StepAccounts<T>(s: State<T>, step: Step<T>, x: T)
    requires Enabled(s, step)
    ensures Everywhere(Next(s, step), x) == Everywhere(s, x) + (if step.Begin? then Count(step.current, x) else 0)
  {
    var n := Next(s, step);
    match step
    case Begin(current) =>
      assert n.flushers[..|s.flushers|] == s.flushers;
    case DrainBuffer(f) =>
      InHandsUpdate(s.flushers, f, n.flushers[f], x);
      CountConcat(s.buf, s.flushers[f].current, x);
    case Write(f, ok) =>
      InHandsUpdate(s.flushers, f, n.flushers[f], x);
      CountHead(s.flushers[f].todo, x);
    case PushBack(f) =>
      InHandsUpdate(s.flushers, f, n.flushers[f], x);
      PushAccounts(s.buf, s.flushers[f].failed, x);
  }

  /**
   * For every interleaving of concurrent flushes the buffer holds at most five snapshots, and
   * each snapshot is written, buffered, in some flush's hands or dropped exactly as often as it
   * was created: a snapshot created once is in exactly one of these places.
   */
  lemma {:induction false} SnapshotsAreConserved<T>(steps: seq<Step<T>>, x: T)
    requires IsRun(steps)
    ensures |After(steps).buf| <= 5
    ensures var s := After(steps);
            s.written[x] + Count(s.buf, x) + InHands(s.flushers, x) + s.dropped[x] == Created(steps, x)
  {
    if steps != [] {
      SnapshotsAreConserved(steps[..|steps| - 1], x);
      StepAccounts(After(steps[..|steps| - 1]), steps[|steps| - 1], x);
    }
  }

  /** Only a push onto a full buffer ever drops, and then the head of the buffer. */
  lemma DropsOnlyTheHead<T>(s: State<T>, step: Step<T>)
    requires Enabled(s, step) && Next(s, step).dropped != s.dropped
    ensures step.PushBack? && |s.buf| >= 5 && Next(s, step).dropped == s.dropped + multiset{s.buf[0]}
    ensures Next(s, step).buf == s.buf[1..] + [s.flushers[step.f].failed]
  {
  }
}
