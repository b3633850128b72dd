/** The fixed-timestep accumulator: frames of any length, fixed updates of a constant one. */
module FixedSteps {

  /** The time `n` fixed steps cover. */
  function Times(step: real, n: int): real {
    step * n as real
  }

  lemma TimesNext(step: real, n: int)
    ensures Times(step, 0) == 0.0
    ensures Times(step, n + 1) == Times(step, n) + step
  {
    assert (n + 1) as real == n as real + 1.0;
    Distribute(step, n as real, 1.0);
  }

  lemma TimesAdd(step: real, a: int, b: int)
    ensures Times(step, a + b) == Times(step, a) + Times(step, b)
  {
    assert (a + b) as real == a as real + b as real;
    Distribute(step, a as real, b as real);
  }

  lemma Distribute(x: real, a: real, b: real)
    ensures x * (a + b) == x * a + x * b
  {
  }

  lemma TimesOrder(step: real, a: int, b: int)
    requires step > 0.0 && a <= b
    ensures Times(step, a) <= Times(step, b)
  {
    Scale(a as real, b as real, step);
  }

  lemma Scale(a: real, b: real, c: real)
    requires a <= b && c >= 0.0
    ensures c * a <= c * b
  {
    Distribute(c, b, -a);
    NonNegative(c, b - a);
  }

  lemma ScaleStrict(a: real, b: real, c: real)
    requires a < b && c > 0.0
    ensures c * a < c * b
  {
    var d := b - a;
    Distribute(c, a, d);
    Positive(c, d);
    assert b == a + d;
  }

  lemma NonNegative(a: real, b: real)
    requires a >= 0.0 && b >= 0.0
    ensures a * b >= 0.0
  {
  }

  /** `n` whole steps fit into `acc`, and `n + 1` do not. */
  predicate Fits(acc: real, step: real, n: int) {
    Times(step, n) <= acc < Times(step, n + 1)
  }

  lemma FitsUnique(acc: real, step: real, m: int, n: int)
    requires step > 0.0 && Fits(acc, step, m) && Fits(acc, step, n)
    ensures m == n
  {
    hide Times;
    if m < n { TimesOrder(step, m + 1, n); }
    if n < m { TimesOrder(step, n + 1, m); }
  }

  /** Whole steps in an accumulated time, as a whole part. */
  function Quotient(acc: real, step: real): int
    requires step > 0.0
  {
    (acc / step).Floor
  }

  lemma Divided(acc: real, step: real)
    requires step > 0.0
    ensures step * (acc / step) == acc
  {
  }

  lemma QuotientFits(acc: real, step: real)
    requires step > 0.0
    ensures Fits(acc, step, Quotient(acc, step))
  {
    Divided(acc, step);
    FloorFits(acc, acc / step, step);
  }

  lemma FloorFits(acc: real, x: real, step: real)
    requires step > 0.0 && step * x == acc
    ensures Fits(acc, step, x.Floor)
  {
    var low, high := x.Floor as real, (x.Floor + 1) as real;
    Scale(low, x, step);
    ScaleStrict(x, high, step);
  }

  lemma Positive(a: real, b: real)
    requires a > 0.0 && b > 0.0
    ensures a * b > 0.0
  {
  }

  /** The loop's guard fails after `n` subtractions. */
  predicate StopsAfter(acc: real, step: real, n: nat) {
    acc - Times(step, n) < step
  }

  ghost predicate LoopEnds(acc: real, step: real) {
    exists n: nat :: StopsAfter(acc, step, n)
  }

  /** The loop terminates exactly for a positive step, or when it is not entered. */
  lemma LoopEndsIff(acc: real, step: real)
    requires step != 0.0
    ensures LoopEnds(acc, step) <==> step > 0.0 || acc < step
  {
    hide Times, Quotient;
    TimesNext(step, 0);
    if step > 0.0 {
      QuotientFits(acc, step);
      var q := Quotient(acc, step);
      var n: nat := if q < 0 then 0 else q;
      TimesNext(step, q);
      if q < 0 { TimesOrder(step, q + 1, 0); }
      assert StopsAfter(acc, step, n);
    } else if acc < step {
      assert StopsAfter(acc, step, 0);
    } else {
      forall n: nat ensures !StopsAfter(acc, step, n) {
        NonPositive(step, n);
      }
    }
  }

  lemma NonPositive(step: real, n: nat)
    requires step <= 0.0
    ensures Times(step, n) <= 0.0
  {
    NonNegative(-step, n as real);
  }

  /** How often the loop body runs, for an accumulator it terminates on. */
  function Steps(acc: real, step: real): int
    requires step > 0.0 || acc < step
  {
    if acc < step then 0 else Quotient(acc, step)
  }

  /** One frame: the accumulator it leaves, and the fixed runs it makes. */
  function Frame(since: real, time: real, step: real): (real, int)
    requires step > 0.0 || since + time < step
  {
    (since + time - Times(step, Steps(since + time, step)), Steps(since + time, step))
  }

  lemma StepsPositive(acc: real, step: real)
    requires step > 0.0 && acc >= step
    ensures Quotient(acc, step) >= 1
  {
    hide Times, Quotient;
    QuotientFits(acc, step);
    TimesNext(step, 0);
    if Quotient(acc, step) < 1 { TimesOrder(step, Quotient(acc, step) + 1, 1); }
  }

  lemma OneStep(acc: real, step: real)
    requires step > 0.0 && acc >= step
    ensures Quotient(acc - step, step) == Quotient(acc, step) - 1 && Quotient(acc, step) >= 1
  {
    hide Times, Quotient;
    var q := Quotient(acc, step);
    QuotientFits(acc, step);
    TimesNext(step, q);
    TimesNext(step, q - 1);
    QuotientFits(acc - step, step);
    FitsUnique(acc - step, step, q - 1, Quotient(acc - step, step));
    StepsPositive(acc, step);
  }

  lemma CountIsSteps(start: real, step: real, count: nat)
    requires step > 0.0 || start < step
    requires start < step ==> count == 0
    requires start >= step ==> 0.0 <= start - Times(step, count) < step
    ensures count == Steps(start, step)
  {
    hide Times, Quotient;
    if start >= step {
      TimesNext(step, count);
      QuotientFits(start, step);
      FitsUnique(start, step, count, Quotient(start, step));
    }
  }

  class Clock {
    const fixedStep: real
    var timePassed: real
    var sinceFixed: real
    var frames: nat
    var fixedRuns: nat

    constructor (fixedStep: real)
      ensures this.fixedStep == fixedStep && timePassed == 0.0 && sinceFixed == 0.0 && frames == 0 && fixedRuns == 0
    {
      this.fixedStep := fixedStep;
      timePassed, sinceFixed, frames, fixedRuns := 0.0, 0.0, 0, 0;
    }

    /** Runs the systems once, and the fixed systems as often as whole fixed steps have accumulated. */
    method AddTime(time: real) returns (count: nat)
      requires fixedStep == 0.0 || LoopEnds(sinceFixed + time, fixedStep)
      modifies this
      ensures timePassed == old(timePassed) + time && frames == old(frames) + 1
      ensures fixedRuns == old(fixedRuns) + count
      ensures fixedStep == 0.0 ==> count == 1 && sinceFixed == old(sinceFixed)
      ensures fixedStep != 0.0 ==> (fixedStep > 0.0 || old(sinceFixed) + time < fixedStep)
      ensures fixedStep != 0.0 ==> (sinceFixed, count as int) == Frame(old(sinceFixed), time, fixedStep)
    {
      hide Times, Quotient, LoopEnds;
      timePassed := timePassed + time;
      frames := frames + 1;
      if fixedStep == 0.0 {
        fixedRuns := fixedRuns + 1;
        return 1;
      }
      sinceFixed := sinceFixed + time;
      ghost var start := sinceFixed;
      LoopEndsIff(start, fixedStep);
      TimesNext(fixedStep, 0);
      count := 0;
      while sinceFixed >= fixedStep
        invariant sinceFixed == start - Times(fixedStep, count)
        invariant fixedRuns == old(fixedRuns) + count && timePassed == old(timePassed) + time
        invariant frames == old(frames) + 1
        invariant start < fixedStep ==> count == 0
        invariant start >= fixedStep ==> sinceFixed >= 0.0
        decreases if fixedStep > 0.0 then Quotient(sinceFixed, fixedStep) else 0
      {
        OneStep(sinceFixed, fixedStep);
        TimesNext(fixedStep, count);
        sinceFixed := sinceFixed - fixedStep;
        fixedRuns := fixedRuns + 1;
        count := count + 1;
      }
      CountIsSteps(start, fixedStep, count);
    }
  }

  // ---------- many frames ----------

  function Sum(ts: seq<real>): real {
    if ts == [] then 0.0 else Sum(ts[..|ts| - 1]) + ts[|ts| - 1]
  }

  /** Accumulator and fixed runs after a sequence of frames, one `AddTime` each. */
  function AfterFrames(ts: seq<real>, step: real): (real, int)
    requires step > 0.0
    decreases |ts|
  {
    if ts == [] then (0.0, 0)
    else
      var (acc, runs) := AfterFrames(ts[..|ts| - 1], step);
      var (now, count) := Frame(acc, ts[|ts| - 1], step);
      (now, runs + count)
  }

  lemma StepsBounds(acc: real, step: real)
    requires step > 0.0 && acc >= 0.0
    ensures Steps(acc, step) >= 0
    ensures 0.0 <= acc - Times(step, Steps(acc, step)) < step
  {
    hide Times, Quotient;
    TimesNext(step, 0);
    if acc >= step {
      StepsPositive(acc, step);
      QuotientFits(acc, step);
      TimesNext(step, Quotient(acc, step));
    }
  }

  /** What a run of frames of total length `total` has left in the accumulator and counted. */
  predicate Accounts(total: real, step: real, acc: real, runs: int) {
    runs >= 0 && 0.0 <= acc < step && total == Times(step, runs) + acc
  }

  lemma OneFrame(total: real, step: real, acc: real, runs: int, time: real)
    requires step > 0.0 && time >= 0.0 && Accounts(total, step, acc, runs)
    ensures Accounts(total + time, step, Frame(acc, time, step).0, runs + Frame(acc, time, step).1)
  {
    hide Times, Steps;
    StepsBounds(acc + time, step);
    TimesAdd(step, runs, Steps(acc + time, step));
  }

  /**
   However time is sliced into frames: the accumulator stays in [0, f), time passed is f times the
   fixed runs plus the accumulator, and the number of fixed runs is the whole part of the total time over f.
   */
  lemma {:induction false} FramesAccount(ts: seq<real>, step: real)
    requires step > 0.0 && forall k :: 0 <= k < |ts| ==> ts[k] >= 0.0
    ensures Accounts(Sum(ts), step, AfterFrames(ts, step).0, AfterFrames(ts, step).1)
    ensures AfterFrames(ts, step).1 == Quotient(Sum(ts), step)
    decreases |ts|
  {
    hide Times, Steps, Quotient;
    TimesNext(step, 0);
    if ts == [] {
    } else {
      var prefix := ts[..|ts| - 1];
      FramesAccount(prefix, step);
      OneFrame(Sum(prefix), step, AfterFrames(prefix, step).0, AfterFrames(prefix, step).1, ts[|ts| - 1]);
    }
    AccountsQuotient(Sum(ts), step, AfterFrames(ts, step).0, AfterFrames(ts, step).1);
  }

  lemma AccountsQuotient(total: real, step: real, acc: real, runs: int)
    requires step > 0.0 && Accounts(total, step, acc, runs)
    ensures runs == Quotient(total, step)
  {
    hide Times, Quotient;
    TimesNext(step, runs);
    QuotientFits(total, step);
    FitsUnique(total, step, runs, Quotient(total, step));
  }

  /** Two ways to slice the same total time give the same number of fixed runs. */
  lemma SlicingDoesNotMatter(ts: seq<real>, us: seq<real>, step: real)
    requires step > 0.0 && Sum(ts) == Sum(us)
    requires (forall k :: 0 <= k < |ts| ==> ts[k] >= 0.0) && forall k :: 0 <= k < |us| ==> us[k] >= 0.0
    ensures AfterFrames(ts, step).1 == AfterFrames(us, step).1
  {
    FramesAccount(ts, step);
    FramesAccount(us, step);
  }
}
