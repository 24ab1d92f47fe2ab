// Retrying with capped exponential backoff and jitter (internal/retry/retry.go). Delays are
// in nanoseconds; every retryer of the repository doubles its delay.
module Retry {
  import opened Common
  import opened Division

  // maxAttempts 0 is without limit.
  datatype Retryer = Retryer(initialDelay: nat, maxDelay: nat, maxAttempts: int)

  const DEFAULT_RETRYER := Retryer(1 * SECOND, 30 * SECOND, 10)

  type Fraction = u: real | 0.0 <= u < 1.0 witness 0.0

  function PowerOfTwo(n: nat): (p: nat)
    ensures p > 0
  {
    if n == 0 then 1 else 2 * PowerOfTwo(n - 1)
  }

  // The delay before jitter that follows attempt k, counted from 1.
  function BaseDelay(r: Retryer, k: nat): nat
    requires k >= 1
  {
    var d := r.initialDelay * PowerOfTwo(k - 1);
    if d > r.maxDelay then r.maxDelay else d
  }

  lemma NonNegativeProduct(a: real, b: real)
    requires a >= 0.0 && b >= 0.0
    ensures a * b >= 0.0
  {
  }

  // A random part of the delay.
  function Drawn(u: Fraction, delay: real): (x: real)
    requires delay >= 0.0
    ensures 0.0 <= x <= delay
  {
    NonNegativeProduct(u, delay);
    NonNegativeProduct(1.0 - u, delay);
    assert (1.0 - u) * delay == delay - u * delay;
    u * delay
  }

  // A quarter of x on top, truncated.
  function Lengthened(delay: real, x: real): int {
    (delay + x * 0.25).Floor
  }

  // With u the draw of the random source: up to a quarter of the delay on top.
  function CalculateDelay(r: Retryer, attempt: nat, u: Fraction): int
    requires attempt >= 1
  {
    var delay := BaseDelay(r, attempt) as real;
    Lengthened(delay, Drawn(u, delay))
  }

  lemma Quarter(b: nat, x: real)
    requires 0.0 <= x <= b as real
    ensures b <= Lengthened(b as real, x) <= b + b / 4
  {
    var j := Lengthened(b as real, x);
    var r := b as real + x * 0.25;
    assert b as real <= r && 4.0 * r <= 5.0 * (b as real);
    assert 4.0 * (j as real) <= 5.0 * (b as real);
    assert 4.0 * (j as real) == (4 * j) as real && 5.0 * (b as real) == (5 * b) as real;
    assert 4 * j <= 5 * b;
  }

  lemma JitterBounds(r: Retryer, attempt: nat, u: Fraction)
    requires attempt >= 1
    ensures BaseDelay(r, attempt) <= CalculateDelay(r, attempt, u) <= BaseDelay(r, attempt) + BaseDelay(r, attempt) / 4
  {
    hide BaseDelay, PowerOfTwo, Lengthened, Drawn;
    var b := BaseDelay(r, attempt);
    Quarter(b, Drawn(u, b as real));
  }

  // The draw decides how much: a delay of b is lengthened by b * u / 4, cut to whole
  // nanoseconds.
  lemma JitterExactly(r: Retryer, attempt: nat, u: Fraction)
    requires attempt >= 1
    ensures var b, delay := BaseDelay(r, attempt) as real, CalculateDelay(r, attempt, u) as real;
            4.0 * delay <= b * (4.0 + u) < 4.0 * (delay + 1.0)
  {
    hide BaseDelay, PowerOfTwo;
    var b := BaseDelay(r, attempt) as real;
    assert b * (4.0 + u) == b * 4.0 + b * u;
  }

  // The sum of the base delays that follow attempts 1 to n.
  function DelaySum(r: Retryer, n: nat): (s: nat) {
    if n == 0 then 0 else DelaySum(r, n - 1) + BaseDelay(r, n)
  }

  // Once a delay has reached the cap, all later ones are the cap.
  lemma {:induction false} CapStays(r: Retryer, k: nat, n: nat)
    requires 1 <= k <= n && BaseDelay(r, k) == r.maxDelay
    ensures BaseDelay(r, n) == r.maxDelay
  {
    if k < n {
      CapStays(r, k, n - 1);
      var p := PowerOfTwo(n - 2);
      assert PowerOfTwo(n - 1) == 2 * p;
      assert r.initialDelay * (2 * p) == 2 * (r.initialDelay * p);
    }
  }

  // So from there on the sum grows linearly.
  lemma {:induction false} DelaySumLinear(r: Retryer, k: nat, n: nat)
    requires k <= n && BaseDelay(r, k + 1) == r.maxDelay
    ensures DelaySum(r, n) == DelaySum(r, k) + (n - k) * r.maxDelay
  {
    hide BaseDelay, PowerOfTwo;
    if k < n {
      DelaySumLinear(r, k, n - 1);
      CapStays(r, k + 1, n);
      assert (n - k) * r.maxDelay == (n - 1 - k) * r.maxDelay + r.maxDelay;
    }
  }

  lemma FirstPowers()
    ensures PowerOfTwo(0) == 1 && PowerOfTwo(1) == 2 && PowerOfTwo(2) == 4 && PowerOfTwo(3) == 8
    ensures PowerOfTwo(4) == 16 && PowerOfTwo(5) == 32
  {
    assert PowerOfTwo(1) == 2;
    assert PowerOfTwo(3) == 8;
  }

  // Four doublings below the cap.
  lemma FirstDelays(r: Retryer)
    requires 8 * r.initialDelay <= r.maxDelay
    ensures DelaySum(r, 4) == 15 * r.initialDelay
    ensures 16 * r.initialDelay >= r.maxDelay ==> BaseDelay(r, 5) == r.maxDelay
    ensures 16 * r.initialDelay <= r.maxDelay ==> DelaySum(r, 5) == 31 * r.initialDelay
    ensures 32 * r.initialDelay >= r.maxDelay ==> BaseDelay(r, 6) == r.maxDelay
  {
    FirstPowers();
    hide PowerOfTwo;
    assert DelaySum(r, 1) == BaseDelay(r, 1) == r.initialDelay;
    assert DelaySum(r, 2) == 3 * r.initialDelay;
    assert DelaySum(r, 3) == 7 * r.initialDelay;
  }

  lemma DefaultDelays()
    ensures DelaySum(DEFAULT_RETRYER, 9) == 151 * SECOND
  {
    FirstDelays(DEFAULT_RETRYER);
    DelaySumLinear(DEFAULT_RETRYER, 5, 9);
  }

  // ----- RunContext -----

  // One round as the world decides it: whether the context had ended before the call, how
  // the call went, and for the sleep after a failure the random draw, how late the timer
  // fired, and whether the context ended it.
  datatype Round = Round(ctxBefore: bool, took: nat, ok: bool, error: int, draw: Fraction, late: nat, ctxInSleep: bool)

  datatype Result = Success | LastError(error: int) | CtxError

  // The first n rounds all failed and were slept out.
  ghost predicate Reaches(world: nat -> Round, n: nat) {
    forall k: nat :: k < n ==> !world(k).ctxBefore && !world(k).ok && !world(k).ctxInSleep
  }

  ghost predicate SucceedsAt(r: Retryer, world: nat -> Round, k: nat) {
    (r.maxAttempts > 0 ==> k < r.maxAttempts) && Reaches(world, k) && !world(k).ctxBefore && world(k).ok
  }

  lemma SumOneMore(r: Retryer, n: nat)
    requires n > 0
    ensures DelaySum(r, n) == DelaySum(r, n - 1) + BaseDelay(r, n)
  {
  }

  // horizon: without a limit the loop ends only because some round ends it.
  method RunContext(r: Retryer, world: nat -> Round, start: int, ghost horizon: nat)
    returns (result: Result, calls: nat, now: int)
    requires r.maxAttempts > 0 || !Reaches(world, horizon)
    ensures result == Success <==> exists k :: SucceedsAt(r, world, k)
    ensures result == Success ==> calls > 0 && SucceedsAt(r, world, calls - 1)
    ensures result.LastError? ==>
              && calls == r.maxAttempts > 0 && Reaches(world, calls - 1)
              && !world(calls - 1).ok && result.error == world(calls - 1).error
    ensures result == CtxError ==>
              || (Reaches(world, calls) && world(calls).ctxBefore)
              || (calls > 0 && Reaches(world, calls - 1) && !world(calls - 1).ok && world(calls - 1).ctxInSleep)
    ensures r.maxAttempts > 0 ==> calls <= r.maxAttempts
    ensures calls > 0 ==> now - start >= DelaySum(r, calls - 1)
    ensures (forall k: nat :: world(k).took == world(k).late == 0) ==> 4 * (now - start) <= 5 * DelaySum(r, calls)
    // The default settings give up after ten calls and no earlier than 151 s.
    ensures r == DEFAULT_RETRYER && result.LastError? ==> calls == 10 && now - start >= 151 * SECOND
  {
    calls, now := 0, start;
    DefaultDelays();
    while true
      invariant Reaches(world, calls)
      invariant now - start >= DelaySum(r, calls)
      invariant (forall k: nat :: world(k).took == world(k).late == 0) ==> 4 * (now - start) <= 5 * DelaySum(r, calls)
      invariant r.maxAttempts > 0 ==> calls < r.maxAttempts
      decreases (if r.maxAttempts > 0 then r.maxAttempts else horizon) - calls
    {
      hide DelaySum, BaseDelay, PowerOfTwo, CalculateDelay;
      var round := world(calls);
      if round.ctxBefore {
        return CtxError, calls, now;
      }
      calls := calls + 1;
      now := now + round.took;
      SumOneMore(r, calls);
      if round.ok {
        assert SucceedsAt(r, world, calls - 1);
        return Success, calls, now;
      }
      if r.maxAttempts > 0 && calls >= r.maxAttempts {
        return LastError(round.error), calls, now;
      }
      JitterBounds(r, calls, round.draw);
      if round.ctxInSleep {
        return CtxError, calls, now;
      }
      now := now + CalculateDelay(r, calls, round.draw) + round.late;
    }
  }

  lemma DelayPositive(r: Retryer, k: nat)
    requires k >= 1 && r.initialDelay > 0 && r.maxDelay > 0
    ensures BaseDelay(r, k) > 0
  {
    hide PowerOfTwo;
    ProductPositive(r.initialDelay, PowerOfTwo(k - 1));
  }
}
