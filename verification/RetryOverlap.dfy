/**
 * Overlapping flushes of the retry buffer. When a flush begins before every earlier one has
 * finished, the buffer can lose its creation order and a full buffer can drop a snapshot that is
 * not the oldest; these lemmas say exactly when, for a flush of any number of snapshots.
 */
module RetryOverlap {
  import opened RetryBuffer
  import opened RetryOrder

  // ---- Runs from any state -------------------------------------------------------------------

  /** The steps lead from s to t. */
  ghost predicate Reaches<T>(s: State<T>, steps: seq<Step<T>>, t: State<T>)
    decreases |steps|
  {
    if steps == [] then s == t else Enabled(s, steps[0]) && Reaches(Next(s, steps[0]), steps[1..], t)
  }

  ghost predicate NoneBegins<T>(steps: seq<Step<T>>) {
    forall j :: 0 <= j < |steps| ==> !steps[j].Begin?
  }

  /** t can be reached from s without a further flush. */
  ghost predicate Leads(s: State<int>, t: State<int>) {
    exists steps :: Reaches(s, steps, t) && NoneBegins(steps)
  }

  lemma ReachesStep<T>(s: State<T>, step: Step<T>, rest: seq<Step<T>>, t: State<T>)
    requires Enabled(s, step) && Reaches(Next(s, step), rest, t)
    ensures Reaches(s, [step] + rest, t)
    ensures !step.Begin? && NoneBegins(rest) ==> NoneBegins([step] + rest)
  {
    assert ([step] + rest)[1..] == rest;
  }

  lemma {:induction false} ReachesOn<T>(s: State<T>, a: seq<Step<T>>, t: State<T>, b: seq<Step<T>>, u: State<T>)
    requires Reaches(s, a, t) && Reaches(t, b, u)
    ensures Reaches(s, a + b, u)
    ensures NoneBegins(a) && NoneBegins(b) ==> NoneBegins(a + b)
    decreases |a|
  {
    if a == [] {
      assert a + b == b;
    } else {
      ReachesOn(Next(s, a[0]), a[1..], t, b, u);
      assert (a + b)[1..] == a[1..] + b;
    }
  }

  lemma LeadsNowhere(s: State<int>)
    ensures Leads(s, s)
  {
    assert Reaches(s, [], s) && NoneBegins<int>([]);
  }

  lemma LeadsStep(s: State<int>, step: Step<int>)
    requires Enabled(s, step) && !step.Begin?
    ensures Leads(s, Next(s, step))
  {
    ReachesStep(s, step, [], Next(s, step));
  }

  lemma LeadsOn(s: State<int>, t: State<int>, u: State<int>)
    requires Leads(s, t) && Leads(t, u)
    ensures Leads(s, u)
  {
    var a :| Reaches(s, a, t) && NoneBegins(a);
    var b :| Reaches(t, b, u) && NoneBegins(b);
    ReachesOn(s, a, t, b, u);
  }

  // ---- How many snapshots there are -------------------------------------------------------------

  function HandsTotal(flushers: seq<Flusher<int>>): nat {
    if flushers == [] then 0 else HandsTotal(flushers[..|flushers| - 1]) + |Hand(flushers[|flushers| - 1])|
  }

  /** All snapshots buffered or in the hands of a flush. */
  function Total(s: State<int>): nat {
    |s.buf| + HandsTotal(s.flushers)
  }

  lemma {:induction false} HandsTotalOneMore(front: seq<Flusher<int>>, last: Flusher<int>)
    ensures HandsTotal(front + [last]) == HandsTotal(front) + |Hand(last)|
  {
    assert (front + [last])[..|front|] == front;
  }

  lemma {:induction false} HandsTotalUpdate(flushers: seq<Flusher<int>>, f: nat, g: Flusher<int>)
    requires f < |flushers|
    ensures HandsTotal(flushers[f := g]) == HandsTotal(flushers) - |Hand(flushers[f])| + |Hand(g)|
    decreases |flushers|
  {
    var m: nat := |flushers| - 1;
    var front, last := flushers[..m], flushers[m];
    assert flushers == front + [last];
    HandsTotalOneMore(front, last);
    if f == m {
      assert flushers[f := g] == front + [g];
      HandsTotalOneMore(front, g);
    } else {
      assert flushers[f := g] == front[f := g] + [last];
      HandsTotalOneMore(front[f := g], last);
      HandsTotalUpdate(front, f, g);
    }
  }

  /** The hands of all flushes but k are empty. */
  ghost predicate OnlyHand(flushers: seq<Flusher<int>>, k: int) {
    forall i :: 0 <= i < |flushers| && i != k ==> Hand(flushers[i]) == []
  }

  lemma {:induction false} HandsTotalOfOne(flushers: seq<Flusher<int>>, k: int)
    requires OnlyHand(flushers, k)
    ensures HandsTotal(flushers) == if 0 <= k < |flushers| then |Hand(flushers[k])| else 0
  {
    if flushers != [] {
      var front := flushers[..|flushers| - 1];
      assert OnlyHand(front, k) by {
        assert forall i :: 0 <= i < |front| ==> front[i] == flushers[i];
      }
      HandsTotalOfOne(front, k);
    }
  }

  lemma TotalAfterBegin(s: State<int>, current: seq<int>)
    ensures Total(Next(s, Begin(current))) == Total(s) + |current|
  {
    assert Next(s, Begin(current)).flushers[..|s.flushers|] == s.flushers;
  }

  /** Without a further flush the number of snapshots never grows. */
  lemma TotalFalls(s: State<int>, step: Step<int>)
    requires Enabled(s, step) && !step.Begin?
    ensures Total(Next(s, step)) <= Total(s)
  {
    HandsTotalUpdate(s.flushers, step.f, Next(s, step).flushers[step.f]);
  }

  lemma {:induction false} TotalFallsAlong(s: State<int>, steps: seq<Step<int>>, t: State<int>)
    requires Reaches(s, steps, t) && NoneBegins(steps)
    ensures Total(t) <= Total(s)
    decreases |steps|
  {
    if steps != [] {
      TotalFalls(s, steps[0]);
      assert forall j :: 0 <= j < |steps[1..]| ==> steps[1..][j] == steps[j + 1];
      TotalFallsAlong(Next(s, steps[0]), steps[1..], t);
    }
  }

  lemma {:induction false} OrderlyAlong(s: State<int>, steps: seq<Step<int>>, t: State<int>)
    requires Orderly(s) && Reaches(s, steps, t) && NoneBegins(steps)
    ensures Orderly(t)
    decreases |steps|
  {
    if steps != [] {
      OrderlyKept(s, steps[0]);
      assert forall j :: 0 <= j < |steps[1..]| ==> steps[1..][j] == steps[j + 1];
      OrderlyAlong(Next(s, steps[0]), steps[1..], t);
    }
  }

  // ---- Two flushes that both have something to put back -------------------------------------------

  /** The flush has drained the buffer and still has something in its hands. */
  predicate Active(f: Flusher<int>) {
    !f.Waiting? && Hand(f) != []
  }

  /** Every flush with something in its hands is active. */
  ghost predicate AllActive(flushers: seq<Flusher<int>>) {
    forall i :: 0 <= i < |flushers| && Hand(flushers[i]) != [] ==> Active(flushers[i])
  }

  ghost predicate TwoActive(s: State<int>, i: nat, j: nat) {
    i < |s.flushers| && j < |s.flushers| && i != j && Active(s.flushers[i]) && Active(s.flushers[j])
  }

  /** An active flush fails to write its next snapshot and puts it back. */
  lemma PushHead(s: State<int>, i: nat) returns (t: State<int>)
    requires i < |s.flushers| && Active(s.flushers[i])
    ensures Leads(s, t) && t.buf == Push(s.buf, Hand(s.flushers[i])[0])
    ensures t.flushers == s.flushers[i := Writing(Hand(s.flushers[i])[1..])]
  {
    if s.flushers[i].Pushing? {
      t := Next(s, PushBack(i));
      LeadsStep(s, PushBack(i));
    } else {
      var n := Next(s, Write(i, false));
      t := Next(n, PushBack(i));
      LeadsStep(s, Write(i, false));
      LeadsStep(n, PushBack(i));
      LeadsOn(s, n, t);
    }
  }

  /** Each flush holds the same as before, and has finished or not as before. */
  ghost predicate SameHands(a: seq<Flusher<int>>, b: seq<Flusher<int>>) {
    |a| == |b| && forall i :: 0 <= i < |a| ==> Hand(a[i]) == Hand(b[i]) && Finished(a[i]) == Finished(b[i])
  }

  ghost predicate ActiveBelow(flushers: seq<Flusher<int>>, n: nat) {
    forall i :: 0 <= i < n && i < |flushers| && Hand(flushers[i]) != [] ==> Active(flushers[i])
  }

  /** With an empty buffer, a flush that waits with something in its hands becomes active. */
  lemma WakeOne(s: State<int>, m: nat) returns (t: State<int>)
    requires s.buf == [] && m < |s.flushers| && ActiveBelow(s.flushers, m)
    ensures Leads(s, t) && t.buf == [] && SameHands(s.flushers, t.flushers) && ActiveBelow(t.flushers, m + 1)
  {
    if s.flushers[m].Waiting? && s.flushers[m].current != [] {
      t := Next(s, DrainBuffer(m));
      LeadsStep(s, DrainBuffer(m));
      assert [] + s.flushers[m].current == s.flushers[m].current;
      assert t.flushers == s.flushers[m := Writing(s.flushers[m].current)];
    } else {
      t := s;
      LeadsNowhere(s);
    }
  }

  /** So can all of them, one after the other. */
  lemma {:induction false} Wake(s: State<int>, n: nat) returns (t: State<int>)
    requires s.buf == [] && n <= |s.flushers|
    ensures Leads(s, t) && t.buf == [] && SameHands(s.flushers, t.flushers) && ActiveBelow(t.flushers, n)
  {
    if n == 0 {
      t := s;
      LeadsNowhere(s);
    } else {
      var mid := Wake(s, n - 1);
      t := WakeOne(mid, n - 1);
      LeadsOn(s, mid, t);
    }
  }

  lemma {:induction false} SameTotal(a: seq<Flusher<int>>, b: seq<Flusher<int>>)
    requires SameHands(a, b)
    ensures HandsTotal(a) == HandsTotal(b)
  {
    if a != [] {
      SameTotal(a[..|a| - 1], b[..|b| - 1]);
    }
  }

  /** A waiting flush empties the buffer, unless that would finish it. */
  lemma EmptyBuffer(s: State<int>, g: nat) returns (t: State<int>)
    requires g < |s.flushers| && s.flushers[g].Waiting?
    ensures Leads(s, t) && t.buf == [] && |t.flushers| == |s.flushers| && Total(t) == Total(s)
    ensures !Finished(t.flushers[g]) && forall i :: 0 <= i < |s.flushers| && i != g ==> t.flushers[i] == s.flushers[i]
  {
    if s.buf + s.flushers[g].current == [] {
      t := s;
      LeadsNowhere(s);
    } else {
      t := Next(s, DrainBuffer(g));
      LeadsStep(s, DrainBuffer(g));
      HandsTotalUpdate(s.flushers, g, t.flushers[g]);
    }
  }

  /** A waiting flush with empty hands takes over a snapshot that was put back. */
  lemma TakeOver(s: State<int>, f: nat, x: int) returns (t: State<int>)
    requires s.buf == [x] && f < |s.flushers| && s.flushers[f] == Waiting([])
    ensures Leads(s, t) && t.buf == [] && t.flushers == s.flushers[f := Writing([x])] && Total(t) == Total(s)
  {
    assert s.buf + [] == [x];
    t := Next(s, DrainBuffer(f));
    LeadsStep(s, DrainBuffer(f));
    HandsTotalUpdate(s.flushers, f, Writing([x]));
  }

  /** The only active flush puts one snapshot back and a waiting one takes it over. */
  lemma PassOn(s: State<int>, k: nat, f: nat) returns (t: State<int>)
    requires s.buf == [] && AllActive(s.flushers) && k < |s.flushers| && f < |s.flushers| && k != f
    requires Active(s.flushers[k]) && |Hand(s.flushers[k])| >= 2 && s.flushers[f] == Waiting([])
    ensures Leads(s, t) && t.buf == [] && AllActive(t.flushers) && TwoActive(t, k, f) && Total(t) == Total(s)
  {
    var hand := Hand(s.flushers[k]);
    var mid := PushHead(s, k);
    HandsTotalUpdate(s.flushers, k, Writing(hand[1..]));
    assert mid.buf == [hand[0]] && mid.flushers[f] == Waiting([]);
    t := TakeOver(mid, f, hand[0]);
    LeadsOn(s, mid, t);
    assert t.flushers[k] == Writing(hand[1..]) && t.flushers[f] == Writing([hand[0]]);
    assert forall i :: 0 <= i < |t.flushers| && i != k && i != f ==> t.flushers[i] == s.flushers[i];
  }

  /** Two flushes with something in their hands are active already; otherwise a waiting one takes something over. */
  lemma SecondActive(s: State<int>, f: nat, g: nat) returns (t: State<int>, i: nat, j: nat)
    requires s.buf == [] && AllActive(s.flushers) && Total(s) >= 2
    requires f < |s.flushers| && g < |s.flushers| && f != g && !Finished(s.flushers[f]) && !Finished(s.flushers[g])
    ensures Leads(s, t) && t.buf == [] && AllActive(t.flushers) && TwoActive(t, i, j) && Total(t) == Total(s)
  {
    i := SomeHand(s.flushers);
    if OnlyHand(s.flushers, i) {
      HandsTotalOfOne(s.flushers, i);
      j := if i == f then g else f;
      assert s.flushers[j] == Waiting([]);
      t := PassOn(s, i, j);
    } else {
      j :| j < |s.flushers| && j != i && Hand(s.flushers[j]) != [];
      t := s;
      LeadsNowhere(s);
    }
  }

  lemma SomeHand(flushers: seq<Flusher<int>>) returns (k: nat)
    requires HandsTotal(flushers) > 0
    ensures k < |flushers| && Hand(flushers[k]) != []
  {
    if OnlyHand(flushers, -1) {
      HandsTotalOfOne(flushers, -1);
    }
    k :| k < |flushers| && Hand(flushers[k]) != [];
  }

  /** Two unfinished flushes, one of them new, and two snapshots: two flushes can be active at once. */
  lemma Activate(s: State<int>, f: nat, g: nat) returns (t: State<int>, i: nat, j: nat)
    requires f < |s.flushers| && g < |s.flushers| && f != g && !Finished(s.flushers[f]) && s.flushers[g].Waiting?
    requires Total(s) >= 2
    ensures Leads(s, t) && t.buf == [] && AllActive(t.flushers) && TwoActive(t, i, j) && Total(t) == Total(s)
  {
    var s1 := EmptyBuffer(s, g);
    var s2 := Wake(s1, |s1.flushers|);
    SameTotal(s1.flushers, s2.flushers);
    LeadsOn(s, s1, s2);
    t, i, j := SecondActive(s2, f, g);
    LeadsOn(s, s2, t);
  }

  /** The newer of the two next snapshots is put back first. */
  lemma NewerFirst(s: State<int>, i: nat, j: nat) returns (t: State<int>, k: nat)
    requires s.buf == [] && AllActive(s.flushers) && TwoActive(s, i, j)
    ensures Leads(s, t) && |t.buf| == 1 && AllActive(t.flushers) && Total(t) == Total(s)
    ensures k < |t.flushers| && Active(t.flushers[k]) && Hand(t.flushers[k])[0] <= t.buf[0]
  {
    var first, second := i, j;
    if Hand(s.flushers[i])[0] < Hand(s.flushers[j])[0] {
      first, second := j, i;
    }
    t := PushHead(s, first);
    k := second;
    HandsTotalUpdate(s.flushers, first, t.flushers[first]);
    assert t.flushers[k] == s.flushers[k];
  }

  // ---- When the order can break -----------------------------------------------------------------

  /** A flush of these snapshots, beginning now, can leave the buffer out of creation order. */
  ghost predicate OrderCanBreak(s: State<int>, current: seq<int>) {
    exists t :: Leads(Next(s, Begin(current)), t) && !Increasing(t.buf)
  }

  lemma FewAreInOrder(s: State<int>, t: State<int>)
    requires Leads(s, t) && Total(s) <= 1
    ensures Increasing(t.buf)
  {
    var steps :| Reaches(s, steps, t) && NoneBegins(steps);
    TotalFallsAlong(s, steps, t);
  }

  lemma OverlapBreaksOrder(s: State<int>, current: seq<int>)
    requires !AllFinished(s) && Total(s) + |current| >= 2
    ensures OrderCanBreak(s, current)
  {
    var f: nat :| f < |s.flushers| && !Finished(s.flushers[f]);
    var s1 := Next(s, Begin(current));
    TotalAfterBegin(s, current);
    assert s1.flushers[f] == s.flushers[f];
    var s2, i, j := Activate(s1, f, |s.flushers|);
    var s3, k := NewerFirst(s2, i, j);
    var t := PushHead(s3, k);
    LeadsOn(s1, s2, s3);
    LeadsOn(s1, s3, t);
    assert t.buf[0] == s3.buf[0] && t.buf[1] == Hand(s3.flushers[k])[0];
  }

  /**
   * With the buffer in order, a flush of any newer snapshots can put it out of order exactly when
   * it begins before every earlier flush has finished and there are two snapshots at all.
   */
  lemma OverlapBreaksOrderExactly(s: State<int>, current: seq<int>)
    requires Increasing(s.buf + current)
    ensures OrderCanBreak(s, current) <==> !AllFinished(s) && Total(s) + |current| >= 2
  {
    var s1 := Next(s, Begin(current));
    if !AllFinished(s) && Total(s) + |current| >= 2 {
      OverlapBreaksOrder(s, current);
    } else {
      TotalAfterBegin(s, current);
      forall t | Leads(s1, t) ensures Increasing(t.buf) {
        if AllFinished(s) {
          BeginIsOrderly(s, current);
          var steps :| Reaches(s1, steps, t) && NoneBegins(steps);
          OrderlyAlong(s1, steps, t);
          OrderlyBuffer(t);
        } else {
          FewAreInOrder(s1, t);
        }
      }
    }
  }

  // ---- When the drop can be wrong ------------------------------------------------------------------

  /** Putting back this flush's snapshot drops one and keeps another that is no newer. */
  ghost predicate WrongDrop(s: State<int>, f: nat) {
    && Enabled(s, PushBack(f)) && |s.buf| >= CAPACITY
    && exists x :: Holds(Next(s, PushBack(f)), x) && x <= s.buf[0]
  }

  /** A flush of these snapshots, beginning now, can make the buffer drop one that is not the oldest. */
  ghost predicate DropCanBeWrong(s: State<int>, current: seq<int>) {
    exists t, f :: Leads(Next(s, Begin(current)), t) && WrongDrop(t, f)
  }

  /** x is buffered behind the head, or in the hands of a flush. */
  ghost predicate Behind(s: State<int>, x: int) {
    (exists i :: 0 < i < |s.buf| && s.buf[i] == x) || exists f :: 0 <= f < |s.flushers| && x in Hand(s.flushers[f])
  }

  /** Putting back into a buffer with room loses nothing and leaves the head. */
  lemma PushLosesNothing(s: State<int>, k: nat, t: State<int>, x: int)
    requires 0 < |s.buf| < CAPACITY && k < |s.flushers| && Active(s.flushers[k]) && Behind(s, x)
    requires t.buf == Push(s.buf, Hand(s.flushers[k])[0]) && t.flushers == s.flushers[k := Writing(Hand(s.flushers[k])[1..])]
    ensures Behind(t, x)
  {
    if i :| 0 < i < |s.buf| && s.buf[i] == x {
      assert t.buf[i] == x;
    } else {
      var f :| 0 <= f < |s.flushers| && x in Hand(s.flushers[f]);
      if f == k && x == Hand(s.flushers[k])[0] {
        assert t.buf[|s.buf|] == x;
      } else if f == k {
        assert x in Hand(t.flushers[k]);
      } else {
        assert t.flushers[f] == s.flushers[f];
      }
    }
  }

  /** Everything fails until the buffer is full and one more snapshot is about to be put back. */
  lemma {:induction false} FillUp(s: State<int>, x: int) returns (t: State<int>, f: nat)
    requires 0 < |s.buf| <= CAPACITY && AllActive(s.flushers) && Total(s) > CAPACITY && Behind(s, x)
    ensures Leads(s, t) && |t.buf| == CAPACITY && t.buf[0] == s.buf[0] && Behind(t, x)
    ensures Enabled(t, PushBack(f))
    decreases CAPACITY - |s.buf|
  {
    f := SomeHand(s.flushers);
    if |s.buf| < CAPACITY {
      var n := PushHead(s, f);
      HandsTotalUpdate(s.flushers, f, n.flushers[f]);
      PushLosesNothing(s, f, n, x);
      t, f := FillUp(n, x);
      LeadsOn(s, n, t);
    } else if s.flushers[f].Pushing? {
      t := s;
      LeadsNowhere(s);
    } else {
      t := FailedWrite(s, f, x);
    }
  }

  lemma FailedWrite(s: State<int>, f: nat, x: int) returns (t: State<int>)
    requires f < |s.flushers| && Active(s.flushers[f]) && s.flushers[f].Writing? && Behind(s, x)
    ensures Leads(s, t) && t.buf == s.buf && Enabled(t, PushBack(f)) && Behind(t, x)
  {
    t := Next(s, Write(f, false));
    LeadsStep(s, Write(f, false));
    assert Hand(t.flushers[f]) == Hand(s.flushers[f]);
    if g :| 0 <= g < |s.flushers| && x in Hand(s.flushers[g]) {
      assert Hand(t.flushers[g]) == Hand(s.flushers[g]);
    }
  }

  /** What is behind the head survives the drop. */
  lemma BehindSurvives(s: State<int>, f: nat, x: int)
    requires Enabled(s, PushBack(f)) && |s.buf| >= CAPACITY && Behind(s, x)
    ensures Holds(Next(s, PushBack(f)), x)
  {
    var n := Next(s, PushBack(f));
    if i :| 0 < i < |s.buf| && s.buf[i] == x {
      assert n.buf[i - 1] == x;
    } else {
      var g :| 0 <= g < |s.flushers| && x in Hand(s.flushers[g]);
      if g == f && x == s.flushers[f].failed {
        assert n.buf[|n.buf| - 1] == x;
      } else {
        assert x in Hand(n.flushers[g]);
      }
    }
  }

  lemma OverlapBreaksDrop(s: State<int>, current: seq<int>)
    requires !AllFinished(s) && Total(s) + |current| > CAPACITY
    ensures DropCanBeWrong(s, current)
  {
    var f: nat :| f < |s.flushers| && !Finished(s.flushers[f]);
    var s1 := Next(s, Begin(current));
    TotalAfterBegin(s, current);
    assert s1.flushers[f] == s.flushers[f];
    var s2, i, j := Activate(s1, f, |s.flushers|);
    var s3, k := NewerFirst(s2, i, j);
    var x := Hand(s3.flushers[k])[0];
    assert x in Hand(s3.flushers[k]);
    var t, g := FillUp(s3, x);
    LeadsOn(s1, s2, s3);
    LeadsOn(s1, s3, t);
    BehindSurvives(t, g, x);
    assert WrongDrop(t, g);
  }

  lemma WrongDropNeedsMany(s: State<int>, f: nat)
    requires WrongDrop(s, f)
    ensures Total(s) > CAPACITY
  {
    var g: Flusher<int> := Writing([]);
    HandsTotalUpdate(s.flushers, f, g);
  }

  /**
   * With the buffer in order, a flush of any newer snapshots can make a full buffer drop one that
   * is not the oldest exactly when it begins before every earlier flush has finished and there are
   * more snapshots than the buffer holds.
   */
  lemma OverlapBreaksDropExactly(s: State<int>, current: seq<int>)
    requires Increasing(s.buf + current)
    ensures DropCanBeWrong(s, current) <==> !AllFinished(s) && Total(s) + |current| > CAPACITY
  {
    var s1 := Next(s, Begin(current));
    if !AllFinished(s) && Total(s) + |current| > CAPACITY {
      OverlapBreaksDrop(s, current);
    } else {
      TotalAfterBegin(s, current);
      forall t, f: nat | Leads(s1, t) ensures !WrongDrop(t, f) {
        var steps :| Reaches(s1, steps, t) && NoneBegins(steps);
        NoWrongDrop(s, current, steps, t, f);
      }
    }
  }

  lemma NoWrongDrop(s: State<int>, current: seq<int>, steps: seq<Step<int>>, t: State<int>, f: nat)
    requires Increasing(s.buf + current) && Reaches(Next(s, Begin(current)), steps, t) && NoneBegins(steps)
    requires AllFinished(s) || Total(Next(s, Begin(current))) <= CAPACITY
    ensures !WrongDrop(t, f)
  {
    TotalFallsAlong(Next(s, Begin(current)), steps, t);
    if Total(t) <= CAPACITY {
      if WrongDrop(t, f) {
        WrongDropNeedsMany(t, f);
      }
    } else if Enabled(t, PushBack(f)) && |t.buf| >= CAPACITY {
      BeginIsOrderly(s, current);
      OrderlyAlong(Next(s, Begin(current)), steps, t);
      forall x | Holds(Next(t, PushBack(f)), x) ensures t.buf[0] < x {
        HeadIsOldest(t, f, x);
      }
    }
  }

  // ---- A run in which a newer snapshot is dropped and the oldest is kept ------------------------------

  /** Flusher g fails to write its next snapshot and puts it back. */
  lemma FailOne(s: State<int>, g: nat, x: int, rest: seq<int>) returns (steps: seq<Step<int>>, t: State<int>)
    requires g < |s.flushers| && s.flushers[g] == Writing([x] + rest)
    ensures Reaches(s, steps, t) && NoneBegins(steps)
    ensures t.buf == Push(s.buf, x) && t.flushers == s.flushers[g := Writing(rest)]
    ensures t.written == s.written && t.dropped == s.dropped + (if |s.buf| >= CAPACITY then multiset{s.buf[0]} else multiset{})
  {
    assert ([x] + rest)[1..] == rest;
    var n := Next(s, Write(g, false));
    t := Next(n, PushBack(g));
    ReachesStep(n, PushBack(g), [], t);
    ReachesStep(s, Write(g, false), [PushBack(g)] + [], t);
    steps := [Write(g, false)] + ([PushBack(g)] + []);
  }

  /** Flusher g puts back everything it has, the buffer having room for it. */
  lemma {:induction false} FailAll(s: State<int>, g: nat, todo: seq<int>) returns (steps: seq<Step<int>>, t: State<int>)
    requires g < |s.flushers| && s.flushers[g] == Writing(todo) && |s.buf| + |todo| <= CAPACITY
    ensures Reaches(s, steps, t) && NoneBegins(steps)
    ensures t.buf == s.buf + todo && t.flushers == s.flushers[g := Writing([])] && t.dropped == s.dropped
    decreases |todo|
  {
    if todo == [] {
      assert s.flushers[g := Writing([])] == s.flushers;
      steps, t := [], s;
    } else {
      assert todo == [todo[0]] + todo[1..];
      var a, n := FailOne(s, g, todo[0], todo[1..]);
      var b;
      b, t := FailAll(n, g, todo[1..]);
      assert n.flushers[g := Writing([])] == s.flushers[g := Writing([])];
      ReachesOn(s, a, n, b, t);
      steps := a + b;
    }
  }

  /** A second flush fills the buffer while the first holds its failed snapshot, and then the first puts that back. */
  lemma SecondFlushFills(s: State<int>) returns (steps: seq<Step<int>>, t: State<int>)
    requires s.buf == [] && s.dropped == multiset{} && s.flushers == [Pushing(0, []), Waiting([1, 2, 3, 4, 5])]
    ensures Reaches(s, steps, t) && NoneBegins(steps) && t.dropped == multiset{1} && t.buf == [2, 3, 4, 5, 0]
  {
    var s1 := Next(s, DrainBuffer(1));
    assert s1.flushers[1] == Writing([1, 2, 3, 4, 5]) && s1.buf == [];
    var more, s2 := FailAll(s1, 1, [1, 2, 3, 4, 5]);
    assert s2.buf == [1, 2, 3, 4, 5] && s2.flushers[0] == Pushing(0, []);
    t := Next(s2, PushBack(0));
    ReachesStep(s2, PushBack(0), [], t);
    ReachesOn(s1, more, s2, [PushBack(0)] + [], t);
    steps := [DrainBuffer(1)] + (more + ([PushBack(0)] + []));
    ReachesStep(s, DrainBuffer(1), more + ([PushBack(0)] + []), t);
  }

  /** Two overlapping flushes, all writes failing: the first snapshot is kept and the second one dropped. */
  lemma OldestCanSurvive() returns (steps: seq<Step<int>>, t: State<int>)
    ensures Reaches(Empty(), [Begin([0])] + ([DrainBuffer(0)] + ([Write(0, false)] + ([Begin([1, 2, 3, 4, 5])] + steps))), t)
    ensures NoneBegins(steps) && t.dropped == multiset{1} && t.buf == [2, 3, 4, 5, 0]
  {
    var s0: State<int> := Empty();
    var s1 := Next(s0, Begin([0]));
    var s2 := Next(s1, DrainBuffer(0));
    var todo := s1.buf + [0];
    assert todo == [0] && todo[1..] == [];
    assert s2.flushers == [Writing(todo)];
    var s3 := Next(s2, Write(0, false));
    assert s3.flushers == [Pushing(0, [])];
    var s4 := Next(s3, Begin([1, 2, 3, 4, 5]));
    assert s4.flushers == [Pushing(0, []), Waiting([1, 2, 3, 4, 5])];
    steps, t := SecondFlushFills(s4);
    ReachesStep(s3, Begin([1, 2, 3, 4, 5]), steps, t);
    ReachesStep(s2, Write(0, false), [Begin([1, 2, 3, 4, 5])] + steps, t);
    ReachesStep(s1, DrainBuffer(0), [Write(0, false)] + ([Begin([1, 2, 3, 4, 5])] + steps), t);
    ReachesStep(s0, Begin([0]), [DrainBuffer(0)] + ([Write(0, false)] + ([Begin([1, 2, 3, 4, 5])] + steps)), t);
  }
}
