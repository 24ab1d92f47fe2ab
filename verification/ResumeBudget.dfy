// Resuming a dropped WebSocket: capped exponential backoff against a deadline
// (reconnectLoop and sleepResumeBackoff in internal/protocol/adapter_resume.go).
module ResumeBudget {

  import opened Common
  import opened Retry

  // The default retryer with its own delays and no limit on attempts.
  const RESUME_RETRYER := Retryer(500 * MILLISECOND, 5 * SECOND, 0)
  const DEFAULT_BUDGET := 90 * SECOND

  datatype Outcome = Failed | Connected

  // One attempt as the world decides it: whether Close was seen before it, how long the
  // calls took and how they ended, and for the sleep after a failure the random draw,
  // how late the timer fired, and whether Close interrupted it.
  datatype Attempt = Attempt(
    doneBefore: bool, took: nat, outcome: Outcome, draw: Fraction, late: nat, doneInSleep: bool)

  datatype Ending = Resumed | Stopped | Exhausted

  // From the fifth on every delay is the cap.
  lemma ResumeDelays(n: nat)
    requires n >= 4
    ensures DelaySum(RESUME_RETRYER, n) == 7500 * MILLISECOND + (n - 4) * 5 * SECOND
  {
    var r := RESUME_RETRYER;
    FirstDelays(r);
    DelaySumLinear(r, 4, n);
  }

  // So the number of attempts is linear in the budget, and 21 for the default one: the
  // twenty delays between 21 attempts fit in 90 s, twenty-one do not.
  lemma AttemptsBounded(budget: nat, attempts: nat)
    requires attempts > 0 && DelaySum(RESUME_RETRYER, attempts - 1) < budget
    ensures attempts >= 5 ==> (attempts - 5) * 5 * SECOND < budget - 7500 * MILLISECOND
    ensures budget == DEFAULT_BUDGET ==> attempts <= 21
    ensures DelaySum(RESUME_RETRYER, 20) < DEFAULT_BUDGET <= DelaySum(RESUME_RETRYER, 21)
  {
    hide DelaySum, BaseDelay, PowerOfTwo;
    ResumeDelays(20);
    ResumeDelays(21);
    if attempts >= 5 {
      ResumeDelays(attempts - 1);
    }
  }

  // What the calls of the first n attempts took, and how late their timers fired.
  ghost function Took(world: nat -> Attempt, n: nat): nat {
    if n == 0 then 0 else Took(world, n - 1) + world(n - 1).took
  }

  ghost function Late(world: nat -> Attempt, n: nat): nat {
    if n == 0 then 0 else Late(world, n - 1) + world(n - 1).late
  }

  // The time t spent on n attempts: their calls and all delays but the last in full, and no
  // more than the calls, the late timers and all delays with a quarter on top.
  ghost predicate Spent(world: nat -> Attempt, n: nat, t: int) {
    && (n > 0 ==> DelaySum(RESUME_RETRYER, n - 1) + Took(world, n) <= t)
    && 4 * t <= 5 * DelaySum(RESUME_RETRYER, n) + 4 * (Took(world, n) + Late(world, n))
  }

  // The same when the n-th attempt has not been slept out.
  ghost predicate Called(world: nat -> Attempt, n: nat, t: int) {
    && n > 0
    && DelaySum(RESUME_RETRYER, n - 1) + Took(world, n) <= t
    && 4 * t <= 5 * DelaySum(RESUME_RETRYER, n - 1) + 4 * (Took(world, n) + Late(world, n - 1))
  }

  // All n delays have been slept in full.
  ghost predicate SleptOut(world: nat -> Attempt, n: nat, t: int) {
    DelaySum(RESUME_RETRYER, n) + Took(world, n) <= t
  }

  lemma NothingSpent(world: nat -> Attempt)
    ensures Spent(world, 0, 0) && SleptOut(world, 0, 0)
  {
  }

  lemma CallTakes(world: nat -> Attempt, n: nat, t: int)
    requires Spent(world, n, t) && SleptOut(world, n, t)
    ensures Called(world, n + 1, t + world(n).took)
    ensures DelaySum(RESUME_RETRYER, n) <= t
  {
    hide BaseDelay;
  }

  lemma CalledSpent(world: nat -> Attempt, n: nat, t: int)
    requires Called(world, n, t)
    ensures Spent(world, n, t)
  {
    hide BaseDelay;
    SumOneMore(RESUME_RETRYER, n);
  }

  lemma SleepTakes(world: nat -> Attempt, n: nat, t: int, delay: nat)
    requires Called(world, n, t) && 4 * delay <= 5 * BaseDelay(RESUME_RETRYER, n)
    ensures Spent(world, n, t + delay + world(n - 1).late)
    ensures delay >= BaseDelay(RESUME_RETRYER, n) ==> SleptOut(world, n, t + delay + world(n - 1).late)
  {
    hide BaseDelay;
    SumOneMore(RESUME_RETRYER, n);
  }

  ghost predicate Unharmed(world: nat -> Attempt, n: nat) {
    forall k: nat :: k < n ==> world(k).outcome == Failed && !world(k).doneBefore && !world(k).doneInSleep
  }

  method ReconnectLoop(resumeBudget: int, start: int, world: nat -> Attempt)
    returns (ending: Ending, attempts: nat, now: int)
    ensures var budget := if resumeBudget <= 0 then DEFAULT_BUDGET else resumeBudget;
            attempts > 0 ==> DelaySum(RESUME_RETRYER, attempts - 1) < budget
    ensures forall k: nat :: k < attempts ==>
              (world(k).outcome == Connected <==> ending == Resumed && k == attempts - 1)
    ensures ending == Resumed ==> attempts > 0
    // No attempt is made once Close has been seen, before an attempt or in a sleep.
    ensures forall k: nat :: k < attempts ==> !world(k).doneBefore
    ensures forall k: nat :: k < attempts - 1 ==> !world(k).doneInSleep
    // It stops exactly when it sees Close at the head of the loop with time left.
    ensures ending == Stopped <==>
              && world(attempts).doneBefore
              && (attempts > 0 ==> world(attempts - 1).outcome == Failed && !world(attempts - 1).doneInSleep)
              && now < start + (if resumeBudget <= 0 then DEFAULT_BUDGET else resumeBudget)
    ensures ending == Exhausted ==>
              || now >= start + (if resumeBudget <= 0 then DEFAULT_BUDGET else resumeBudget)
              || (attempts > 0 && world(attempts - 1).doneInSleep)
    // At most 21 attempts in the default budget.
    ensures resumeBudget <= 0 || resumeBudget == DEFAULT_BUDGET ==> attempts <= 21
    ensures now >= start && Spent(world, attempts, now - start)
    // No sleep reaches past the deadline.
    ensures (forall k: nat :: world(k).took == world(k).late == 0) ==>
              now <= start + (if resumeBudget <= 0 then DEFAULT_BUDGET else resumeBudget)
  {
    hide DelaySum, BaseDelay, PowerOfTwo, CalculateDelay, Spent, Called, SleptOut;
    var budget := resumeBudget;
    if budget <= 0 {
      budget := DEFAULT_BUDGET;
    }
    var deadline := start + budget;
    now := start;
    attempts := 0;
    NothingSpent(world);
    while now < deadline
      invariant start <= now
      invariant (forall k: nat :: world(k).took == world(k).late == 0) ==> now <= deadline
      invariant Spent(world, attempts, now - start)
      invariant now < deadline ==> SleptOut(world, attempts, now - start)
      invariant attempts > 0 ==> DelaySum(RESUME_RETRYER, attempts - 1) < budget
      invariant Unharmed(world, attempts)
      invariant budget == DEFAULT_BUDGET ==> attempts <= 21
      decreases deadline - now
    {
      var a := world(attempts);
      if a.doneBefore {
        return Stopped, attempts, now;
      }
      CallTakes(world, attempts, now - start);
      attempts := attempts + 1;
      AttemptsBounded(budget, attempts);
      now := now + a.took;
      CalledSpent(world, attempts, now - start);
      if a.outcome == Connected {
        return Resumed, attempts, now;
      }
      var delay := CalculateDelay(RESUME_RETRYER, attempts, a.draw);
      JitterBounds(RESUME_RETRYER, attempts, a.draw);
      DelayPositive(RESUME_RETRYER, attempts);
      if delay > deadline - now {
        delay := deadline - now;
      }
      if delay <= 0 || a.doneInSleep {
        break;
      }
      SleepTakes(world, attempts, now - start, delay);
      now := now + delay + a.late;
    }
    return Exhausted, attempts, now;
  }
}
