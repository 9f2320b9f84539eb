/**
 The sampling schedule `(start, end, step)`: burn-in discards the steps before
 `start`, thinning keeps every `step`-th step of the window `[start, end)`.
 The source's `Index` is a signed 64-bit integer; the model uses unbounded
 integers, which agree with it whenever `end - start` does not overflow.
 */
module StepsRanges {
  import opened Wrappers
  import opened Arith

  datatype Error = InvalidArgument

  datatype StepsRange = StepsRange(start: int, end: int, step: int) {
    /** The condition the constructor's validity gate enforces. */
    predicate Valid() {
      start < end && step > 0
    }

    /** Whether step `i` is one at which a batch of samples is recorded. */
    predicate Scheduled(i: int) {
      start <= i < end && step > 0 && (i - start) % step == 0
    }
  }

  /**
   The constructor: stores the three tuple components and refuses a schedule
   with an empty window or a non-positive stride.
   */
  function Make(start: int, end: int, step: int): (r: Result<StepsRange, Error>)
    ensures r.Success? <==> start < end && step > 0
    ensures r.Success? ==> r.value.Valid()
    ensures r.Success? ==> r.value.start == start && r.value.end == end && r.value.step == step
    ensures r.Failure? ==> r.error == InvalidArgument
  {
    var candidate := StepsRange(start, end, step);
    if candidate.Valid() then Success(candidate) else Failure(InvalidArgument)
  }

  /**
   Number of recorded steps, computed as the source does. C++ integer division
   truncates towards zero while Dafny's is Euclidean; under `Valid` the
   dividend `end - start - 1` is non-negative and the stride positive, so the
   two agree. The result is the ceiling of `(end - start) / step`.
   */
  function Size(r: StepsRange): (n: int)
    requires r.Valid()
    ensures 1 <= n <= r.end - r.start
    ensures (n - 1) * r.step < r.end - r.start <= n * r.step
  {
    var d := r.end - r.start;
    var q := (d - 1) / r.step;
    assert d - 1 == q * r.step + (d - 1) % r.step;
    assert q <= q * r.step by { MulMonotone(q, r.step); }
    q + 1
  }

  /** Reference count: how many steps `i` in `[start, hi)` are scheduled. */
  function CountBelow(r: StepsRange, hi: int): nat
    decreases hi - r.start
  {
    if hi <= r.start then 0
    else CountBelow(r, hi - 1) + (if r.Scheduled(hi - 1) then 1 else 0)
  }

  /** For `start < hi <= end`, the closed form of the number of scheduled steps below `hi`. */
  lemma {:induction false} CountBelowPrefix(r: StepsRange, hi: int)
    requires r.Valid() && r.start < hi <= r.end
    ensures CountBelow(r, hi) == (hi - r.start - 1) / r.step + 1
    decreases hi - r.start
  {
    if hi - 1 == r.start {
      assert r.Scheduled(r.start);
      assert CountBelow(r, r.start) == 0;
    } else {
      CountBelowPrefix(r, hi - 1);
      DivSuccessor(hi - 1 - r.start, r.step);
    }
  }

  /**
   The closed form the source computes equals the number of indices `i` in
   `[start, end)` with `(i - start) % step == 0`.
   */
  lemma SizeIsScheduledCount(r: StepsRange)
    requires r.Valid()
    ensures Size(r) == CountBelow(r, r.end)
  {
    CountBelowPrefix(r, r.end);
  }

  /** The recorded steps in increasing order: `start`, `start + step`, ..., `size()` of them. */
  function Schedule(r: StepsRange): (s: seq<int>)
    requires r.Valid()
    ensures |s| == Size(r) && s[0] == r.start
    ensures forall k :: 0 <= k < |s| - 1 ==> s[k + 1] == s[k] + r.step
  {
    seq(Size(r), k requires 0 <= k < Size(r) => r.start + k * r.step)
  }

  /** A scheduled step appears in the listing of the schedule. */
  lemma ScheduledIsListed(r: StepsRange, i: int)
    requires r.Valid() && r.Scheduled(i)
    ensures i in Schedule(r)
  {
    var n := Size(r);
    var k := (i - r.start) / r.step;
    DivModUnique(i - r.start, r.step, k, 0);
    assert i == r.start + k * r.step;
    if k >= n {
      MulLeq(n, k, r.step);
      assert false;
    }
    assert Schedule(r)[k] == i;
  }

  /** Every step in the listing of the schedule is a scheduled step. */
  lemma ListedIsScheduled(r: StepsRange, i: int)
    requires r.Valid() && i in Schedule(r)
    ensures r.Scheduled(i)
  {
    var n := Size(r);
    var k :| 0 <= k < n && Schedule(r)[k] == i;
    assert i == r.start + k * r.step;
    DivModUnique(i - r.start, r.step, k, 0);
    assert k * r.step <= (n - 1) * r.step by { MulLeq(k, n - 1, r.step); }
  }

  /** A step is recorded if and only if it appears in the listing of the schedule. */
  lemma ScheduledIsArithmetic(r: StepsRange, i: int)
    requires r.Valid()
    ensures r.Scheduled(i) <==> i in Schedule(r)
  {
    if r.Scheduled(i) {
      ScheduledIsListed(r, i);
    }
    if i in Schedule(r) {
      ListedIsScheduled(r, i);
    }
  }

  /** A scheduled step is preceded, within the window, by `(i - start) / step` scheduled steps. */
  lemma CountBeforeScheduled(r: StepsRange, i: int)
    requires r.Valid() && r.Scheduled(i)
    ensures CountBelow(r, i) * r.step == i - r.start
  {
    if i > r.start {
      CountBelowPrefix(r, i);
      DivSuccessor(i - r.start, r.step);
      DivModUnique(i - r.start, r.step, (i - r.start) / r.step, 0);
    }
  }

  /**
   The steps at which the sample collector records a batch. It advances the
   chains `end` times, numbering the moves from 0, and records after move `i`
   exactly when `i` passes the burn-in and thinning test. With a non-negative
   `start` these are exactly the `size()` steps of the schedule.
   */
  method CollectedSteps(r: StepsRange) returns (steps: seq<int>)
    requires r.Valid()
    ensures forall k :: 0 <= k < |steps| ==> 0 <= steps[k] && r.Scheduled(steps[k])
    ensures forall i :: 0 <= i && r.Scheduled(i) ==> i in steps
    ensures forall k :: 0 <= k < |steps| - 1 ==> steps[k] < steps[k + 1]
    ensures r.start >= 0 ==> steps == Schedule(r)
  {
    steps := [];
    var before := CountBelow(r, 0);
    var i := 0;
    while i < r.end
      invariant 0 <= i <= (if r.end > 0 then r.end else 0)
      invariant |steps| + before == CountBelow(r, i)
      invariant forall k :: 0 <= k < |steps| ==> steps[k] == r.start + (k + before) * r.step
      invariant forall k :: 0 <= k < |steps| ==> 0 <= steps[k] < i && r.Scheduled(steps[k])
      invariant forall j :: 0 <= j < i && r.Scheduled(j) ==> j in steps
      invariant forall k :: 0 <= k < |steps| - 1 ==> steps[k] < steps[k + 1]
      decreases r.end - i
    {
      if i >= r.start && (i - r.start) % r.step == 0 {
        CountBeforeScheduled(r, i);
        steps := steps + [i];
      }
      i := i + 1;
    }
    if r.start >= 0 {
      SizeIsScheduledCount(r);
      assert |steps| == |Schedule(r)|;
    }
  }

  /**
   With a negative `start`, `size()` also counts steps before the first move,
   which the collector never reaches: for the schedule `(-5, 1, 1)` `size()` is
   6, while step 0 is the only step at or after the first move that is recorded.
   */
  lemma NegativeStartShortfall()
    ensures StepsRange(-5, 1, 1).Valid() && Size(StepsRange(-5, 1, 1)) == 6
    ensures forall i :: 0 <= i && StepsRange(-5, 1, 1).Scheduled(i) <==> i == 0
  {
  }
}
