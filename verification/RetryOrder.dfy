/**
 * The order of the retry buffer. Snapshots are numbered as they are created. Flushes that never
 * overlap keep the buffer in creation order, so that what a full buffer drops is the oldest.
 */
module RetryOrder {
  import opened RetryBuffer

  ghost predicate Increasing(xs: seq<int>) {
    forall i, j :: 0 <= i < j < |xs| ==> xs[i] < xs[j]
  }

  /** What a flush still has in its hands, in the order in which it deals with it. */
  function Hand(f: Flusher<int>): seq<int> {
    match f
    case Waiting(current) => current
    case Writing(todo) => todo
    case Pushing(failed, todo) => [failed] + todo
  }

  predicate Finished(f: Flusher<int>) {
    f.Writing? && f.todo == []
  }

  ghost predicate AllFinished(s: State<int>) {
    forall i :: 0 <= i < |s.flushers| ==> Finished(s.flushers[i])
  }

  // ---- Flushes one at a time ------------------------------------------------------------------

  /** All flushes but the last have finished; the buffer and then the hand of the last one are in creation order. */
  ghost predicate Orderly(s: State<int>) {
    && (forall i :: 0 <= i < |s.flushers| - 1 ==> Finished(s.flushers[i]))
    && Increasing(s.buf + (if s.flushers == [] then [] else Hand(s.flushers[|s.flushers| - 1])))
  }

  lemma TailIsIncreasing(xs: seq<int>)
    requires Increasing(xs) && xs != []
    ensures Increasing(xs[1..])
  {
  }

  /** Taking one element out of an increasing sequence. */
  lemma GapIsIncreasing(a: seq<int>, x: int, b: seq<int>)
    requires Increasing(a + ([x] + b))
    ensures Increasing(a + b)
  {
    var whole, rest := a + ([x] + b), a + b;
    assert forall i :: 0 <= i < |rest| ==> rest[i] == whole[if i < |a| then i else i + 1];
  }

  lemma PushedHand(buf: seq<int>, x: int, todo: seq<int>)
    requires Increasing(buf + ([x] + todo))
    ensures Increasing(Push(buf, x) + todo)
  {
    var whole := buf + ([x] + todo);
    if |buf| >= CAPACITY {
      TailIsIncreasing(whole);
      assert Push(buf, x) + todo == whole[1..];
    } else {
      assert Push(buf, x) + todo == whole;
    }
  }

  /** Only the last flush can be unfinished, so only it can move. */
  lemma OrderlyKept(s: State<int>, step: Step<int>)
    requires Orderly(s) && Enabled(s, step) && !step.Begin?
    ensures Orderly(Next(s, step))
  {
    var f := step.f;
    assert f == |s.flushers| - 1 by {
      assert !Finished(s.flushers[f]);
    }
    match step
    case DrainBuffer(_) =>
      assert [] + (s.buf + s.flushers[f].current) == s.buf + s.flushers[f].current;
    case Write(_, ok) =>
      var todo := s.flushers[f].todo;
      assert todo == [todo[0]] + todo[1..];
      GapIsIncreasing(s.buf, todo[0], todo[1..]);
    case PushBack(_) =>
      PushedHand(s.buf, s.flushers[f].failed, s.flushers[f].todo);
  }

  lemma BeginIsOrderly(s: State<int>, current: seq<int>)
    requires AllFinished(s) && Increasing(s.buf + current)
    ensures Orderly(Next(s, Begin(current)))
  {
  }

  /** Every flush begins when all earlier ones have finished. */
  ghost predicate OneAtATime(steps: seq<Step<int>>) {
    forall j :: 0 <= j < |steps| && steps[j].Begin? ==> AllFinished(After(steps[..j]))
  }

  /** Snapshots are numbered in the order in which they are handed over. */
  ghost predicate Numbered(steps: seq<Step<int>>) {
    && (forall j :: 0 <= j < |steps| && steps[j].Begin? ==> Increasing(steps[j].current))
    && (forall j, k :: 0 <= j < k < |steps| && steps[j].Begin? && steps[k].Begin? ==> Older(steps[j].current, steps[k].current))
  }

  ghost predicate Older(a: seq<int>, b: seq<int>) {
    forall i, j :: 0 <= i < |a| && 0 <= j < |b| ==> a[i] < b[j]
  }

  ghost predicate HandedOver(steps: seq<Step<int>>, x: int) {
    exists j :: 0 <= j < |steps| && steps[j].Begin? && x in steps[j].current
  }

  ghost predicate Holds(s: State<int>, x: int) {
    x in s.buf || exists f :: 0 <= f < |s.flushers| && x in Hand(s.flushers[f])
  }

  /** A step brings nothing new but what a beginning flush is given. */
  lemma HeldBefore(s: State<int>, step: Step<int>, x: int)
    requires Enabled(s, step) && Holds(Next(s, step), x)
    ensures Holds(s, x) || (step.Begin? && x in step.current)
  {
    var n := Next(s, step);
    if x in n.buf {
      if !step.Begin? && x !in s.buf {
        assert x in Hand(s.flushers[step.f]);
      }
    } else {
      var f :| 0 <= f < |n.flushers| && x in Hand(n.flushers[f]);
      if !step.Begin? && f == step.f {
        assert x in s.buf || x in Hand(s.flushers[f]);
      }
    }
  }

  lemma {:induction false} HeldIsHandedOver(steps: seq<Step<int>>, x: int)
    requires IsRun(steps) && Holds(After(steps), x)
    ensures HandedOver(steps, x)
  {
    if steps == [] {
      assert false;
    }
    var front, last := steps[..|steps| - 1], steps[|steps| - 1];
    HeldBefore(After(front), last, x);
    if Holds(After(front), x) {
      HeldIsHandedOver(front, x);
      var j :| 0 <= j < |front| && front[j].Begin? && x in front[j].current;
      assert steps[j] == front[j];
    }
  }

  lemma PrefixOneAtATime(steps: seq<Step<int>>)
    requires steps != [] && OneAtATime(steps) && Numbered(steps)
    ensures OneAtATime(steps[..|steps| - 1]) && Numbered(steps[..|steps| - 1])
    ensures steps[|steps| - 1].Begin? ==> AllFinished(After(steps[..|steps| - 1]))
  {
    var front := steps[..|steps| - 1];
    forall j | 0 <= j < |front| && front[j].Begin? ensures AllFinished(After(front[..j])) {
      assert front[..j] == steps[..j] && steps[j].Begin?;
    }
  }

  /** What is buffered when a flush begins is older than what that flush is given. */
  lemma NewerThanBuffer(steps: seq<Step<int>>)
    requires IsRun(steps) && Numbered(steps) && steps != [] && steps[|steps| - 1].Begin?
    ensures Older(After(steps[..|steps| - 1]).buf, steps[|steps| - 1].current)
  {
    var front, current := steps[..|steps| - 1], steps[|steps| - 1].current;
    var buf := After(front).buf;
    forall i, k | 0 <= i < |buf| && 0 <= k < |current| ensures buf[i] < current[k] {
      assert Holds(After(front), buf[i]);
      HeldIsHandedOver(front, buf[i]);
      var j :| 0 <= j < |front| && front[j].Begin? && buf[i] in front[j].current;
      assert steps[j] == front[j] && Older(steps[j].current, current);
    }
  }

  /** As long as flushes do not overlap, the buffer stays in creation order. */
  lemma {:induction false} BufferIsInOrder(steps: seq<Step<int>>)
    requires IsRun(steps) && OneAtATime(steps) && Numbered(steps)
    ensures Orderly(After(steps)) && Increasing(After(steps).buf)
  {
    if steps != [] {
      var front, last := steps[..|steps| - 1], steps[|steps| - 1];
      PrefixOneAtATime(steps);
      BufferIsInOrder(front);
      if last.Begin? {
        NewerThanBuffer(steps);
        BeginIsOrderly(After(front), last.current);
      } else {
        OrderlyKept(After(front), last);
      }
      OrderlyBuffer(After(steps));
    }
  }

  lemma OrderlyBuffer(s: State<int>)
    requires Orderly(s)
    ensures Increasing(s.buf)
  {
    var whole := s.buf + (if s.flushers == [] then [] else Hand(s.flushers[|s.flushers| - 1]));
    assert forall i :: 0 <= i < |s.buf| ==> s.buf[i] == whole[i];
  }

  lemma HeadIsOldest(s: State<int>, f: nat, x: int)
    requires Orderly(s) && Enabled(s, PushBack(f)) && |s.buf| >= CAPACITY && Holds(Next(s, PushBack(f)), x)
    ensures s.buf[0] < x
  {
    assert f == |s.flushers| - 1 by {
      assert !Finished(s.flushers[f]);
    }
    var whole := s.buf + Hand(s.flushers[f]);
    HeldAfterPush(s, f, x);
    var i :| 0 < i < |whole| && whole[i] == x;
    assert whole[0] < whole[i];
  }

  /** Then what a push drops is older than everything else that is buffered or in the hands of a flush. */
  lemma DropsTheOldest(steps: seq<Step<int>>, f: nat, x: int)
    requires IsRun(steps) && OneAtATime(steps) && Numbered(steps) && Enabled(After(steps), PushBack(f))
    requires |After(steps).buf| >= CAPACITY
    ensures var s := After(steps);
            && Next(s, PushBack(f)).dropped == s.dropped + multiset{s.buf[0]}
            && (Holds(Next(s, PushBack(f)), x) ==> s.buf[0] < x)
  {
    BufferIsInOrder(steps);
    if Holds(Next(After(steps), PushBack(f)), x) {
      HeadIsOldest(After(steps), f, x);
    }
  }

  lemma HeldAfterPush(s: State<int>, f: nat, x: int)
    requires Orderly(s) && Enabled(s, PushBack(f)) && f == |s.flushers| - 1 && |s.buf| >= CAPACITY && Holds(Next(s, PushBack(f)), x)
    ensures var whole := s.buf + Hand(s.flushers[f]); exists i :: 0 < i < |whole| && whole[i] == x
  {
    var whole := s.buf + Hand(s.flushers[f]);
    var n := Next(s, PushBack(f));
    assert forall g :: 0 <= g < |n.flushers| && g != f ==> Finished(n.flushers[g]);
    if x in n.buf {
      var i :| 0 <= i < |n.buf| && n.buf[i] == x;
      assert whole[i + 1] == x;
    } else {
      var g :| 0 <= g < |n.flushers| && x in Hand(n.flushers[g]);
      assert g == f;
      var i :| 0 <= i < |s.flushers[f].todo| && s.flushers[f].todo[i] == x;
      assert whole[|s.buf| + 1 + i] == x;
    }
  }
}
