/** Running one step's handler with retries, and the delays between attempts
    (rust-old/src/engine/step_exec.rs, rust-old/src/step.rs). */
module StepExec {
  import opened Wrappers
  import opened Steps

  const U32_MAX: nat := 0xFFFF_FFFF
  const U64_MAX: nat := 0xFFFF_FFFF_FFFF_FFFF

  // ---------- Backoff ----------

  function Pow2(e: nat): (p: nat)
    ensures p > 0
  {
    if e == 0 then 1 else 2 * Pow2(e - 1)
  }

  function SaturatingMul(a: nat, b: nat): nat {
    if a * b > U64_MAX then U64_MAX else a * b
  }

  /** `1u64.checked_shl(n)`: the shift if n is below the width, else nothing. */
  function CheckedShlOne(n: nat): Option<nat> {
    if n < 64 then Some(Pow2(n)) else None
  }

  function DelayMs(backoff: BackoffStrategy, base: nat, attempt: nat): nat
    requires base <= U64_MAX
  {
    match backoff
    case Fixed => base
    case Linear => SaturatingMul(base, attempt)
    case Exponential =>
      var shift := CheckedShlOne(if attempt == 0 then 0 else attempt - 1);
      SaturatingMul(base, match shift case Some(s) => s case None => U64_MAX)
  }

  function Min(a: nat, b: nat): nat { if a < b then a else b }

  lemma {:induction false} Pow2Grows(a: nat, b: nat)
    requires a <= b
    ensures Pow2(a) <= Pow2(b)
    decreases b - a
  {
    if a < b {
      Pow2Grows(a, b - 1);
    }
  }

  lemma Pow2Of64()
    ensures Pow2(64) == U64_MAX + 1
  {
    assert Pow2(8) == 256;
    Pow2Adds(8, 8);
    assert Pow2(16) == 0x1_0000;
    Pow2Adds(16, 16);
    assert Pow2(32) == 0x1_0000_0000;
    Pow2Adds(32, 32);
  }

  lemma {:induction false} Pow2Adds(a: nat, b: nat)
    ensures Pow2(a + b) == Pow2(a) * Pow2(b)
  {
    if a > 0 {
      Pow2Adds(a - 1, b);
    }
  }

  lemma MulMonotone(a: nat, x: nat, y: nat)
    requires x <= y
    ensures a * x <= a * y
  {
  }

  /** The exponential delay is base times two to the retries so far, capped at the largest u64: the
      width limit of the shift never shows. */
  lemma ExponentialDelay(base: nat, attempt: nat)
    requires base <= U64_MAX && attempt >= 1
    ensures DelayMs(Exponential, base, attempt) == Min(base * Pow2(attempt - 1), U64_MAX)
  {
    if attempt > 64 && base > 0 {
      Pow2Grows(64, attempt - 1);
      Pow2Of64();
      MulMonotone(base, U64_MAX, Pow2(attempt - 1));
      MulMonotone(U64_MAX, 1, base);
    }
  }

  /** The linear delay is base times the attempt, capped at the largest u64; the fixed one is base. */
  lemma LinearAndFixedDelays(base: nat, attempt: nat)
    requires base <= U64_MAX
    ensures DelayMs(Linear, base, attempt) == (if base * attempt > U64_MAX then U64_MAX else base * attempt)
    ensures DelayMs(Fixed, base, attempt) == base
  {
  }

  /** Whatever the strategy, a later attempt is never followed by a shorter delay than an earlier one,
      and no delay exceeds the largest u64. */
  lemma DelaysNeverDecrease(backoff: BackoffStrategy, base: nat, earlier: nat, later: nat)
    requires base <= U64_MAX && 1 <= earlier <= later
    ensures DelayMs(backoff, base, earlier) <= DelayMs(backoff, base, later) <= U64_MAX
  {
    match backoff {
      case Fixed =>
      case Linear => MulMonotone(base, earlier, later);
      case Exponential =>
        ExponentialDelay(base, earlier);
        ExponentialDelay(base, later);
        Pow2Grows(earlier - 1, later - 1);
        MulMonotone(base, Pow2(earlier - 1), Pow2(later - 1));
    }
  }

  // ---------- Retries ----------

  // What one call of the handler comes to.
  datatype Attempt = Success | Failure(error: string) | TimedOut

  datatype Event =
    | StepStarted
    | StepRetry(attempt: nat)
    | StepFailed(attempt: nat)
    | StepCompleted(attempt: nat)

  /** A number as it is written. */
  function Decimal(n: nat): string {
    if n < 10 then ["0123456789"[n]] else Decimal(n / 10) + ["0123456789"[n % 10]]
  }

  function RetryExhausted(step: StepDef): string {
    "retry exhausted: " + step.name + " after " + Decimal(step.maxRetries + 1) + " attempts"
  }

  function ErrorOf(step: StepDef, a: Attempt): string {
    match a
    case Failure(e) => e
    case TimedOut => "step timeout: " + step.name + " after " + Decimal(step.timeoutMs) + "ms"
    case Success => ""
  }

  /** The events after the first `retries` retries, with `seen` attempts looked at: retry events once each and
      in order, and a failure event for exactly those attempts that timed out. */
  ghost predicate EventsSoFar(events: seq<Event>, attempts: nat -> Attempt, retries: nat, seen: nat) {
    && events != [] && events[0] == StepStarted
    && (forall n: nat :: StepRetry(n) in events <==> 1 <= n <= retries)
    && (forall i, j :: 0 <= i < j < |events| && events[i].StepRetry? && events[j].StepRetry? ==>
          events[i].attempt < events[j].attempt)
    && (forall n: nat :: StepFailed(n) in events <==> 1 <= n <= seen && attempts(n) == TimedOut)
  }

  /** What the next attempt adds, if the loop goes on. */
  function Added(attempt: nat, result: Attempt, retry: bool): seq<Event> {
    (if result == TimedOut then [StepFailed(attempt)] else []) + (if retry then [StepRetry(attempt)] else [])
  }

  lemma AddedIs(events: seq<Event>, attempt: nat, result: Attempt)
    ensures result == Success ==> events + Added(attempt, result, false) == events
    ensures result.Failure? ==> events + Added(attempt, result, false) == events
    ensures result.Failure? ==> events + Added(attempt, result, true) == events + [StepRetry(attempt)]
    ensures result == TimedOut ==> events + Added(attempt, result, false) == events + [StepFailed(attempt)]
    ensures result == TimedOut ==>
      events + Added(attempt, result, true) == events + [StepFailed(attempt)] + [StepRetry(attempt)]
  {
  }

  lemma ErrorIs(step: StepDef, a: Attempt)
    ensures a.Failure? ==> ErrorOf(step, a) == a.error
    ensures a.TimedOut? ==> ErrorOf(step, a) == "step timeout: " + step.name + " after " + Decimal(step.timeoutMs) + "ms"
  {
  }

  lemma OneMoreAttempt(events: seq<Event>, attempts: nat -> Attempt, n: nat, retry: bool)
    requires EventsSoFar(events, attempts, n, n)
    ensures EventsSoFar(events + Added(n + 1, attempts(n + 1), retry), attempts, if retry then n + 1 else n, n + 1)
  {
    var more := events + Added(n + 1, attempts(n + 1), retry);
    assert forall x :: x in more <==>
      x in events || (x == StepFailed(n + 1) && attempts(n + 1) == TimedOut) || (x == StepRetry(n + 1) && retry);
    forall i | 0 <= i < |events| && events[i].StepRetry?
      ensures events[i].attempt <= n
    {
      assert events[i] in events;
    }
  }

  /** The events of a step: a retry event for each call but the last, in order, a failure event for each
      timeout and one for a last failure. */
  ghost predicate EventsMean(events: seq<Event>, attempts: nat -> Attempt, calls: nat) {
    && events != [] && events[0] == StepStarted
    && events[|events| - 1] == (if attempts(calls) == Success then StepCompleted(calls) else StepFailed(calls))
    && (forall n: nat :: StepRetry(n) in events <==> 1 <= n < calls)
    && (forall i, j :: 0 <= i < j < |events| && events[i].StepRetry? && events[j].StepRetry? ==>
          events[i].attempt < events[j].attempt)
    && (forall n: nat :: StepFailed(n) in events <==>
          (1 <= n <= calls && attempts(n) == TimedOut) || (n == calls && attempts(calls) != Success))
  }

  /** One sleep for each call but the last, of the length its strategy says. */
  ghost predicate SleepsMean(sleeps: seq<nat>, step: StepDef, calls: nat) {
    && |sleeps| == calls - 1
    && (step.backoff == Fixed ==> forall k :: 0 <= k < |sleeps| ==> sleeps[k] == step.retryDelayMs)
    && (step.backoff == Linear ==> forall k :: 0 <= k < |sleeps| ==>
          sleeps[k] == if step.retryDelayMs * (k + 1) > U64_MAX then U64_MAX else step.retryDelayMs * (k + 1))
    && (step.backoff == Exponential ==> forall k :: 0 <= k < |sleeps| ==>
          sleeps[k] == if step.retryDelayMs * Pow2(k) > U64_MAX then U64_MAX else step.retryDelayMs * Pow2(k))
  }

  lemma LastEvent(events: seq<Event>, attempts: nat -> Attempt, calls: nat)
    requires calls >= 1 && EventsSoFar(events, attempts, calls - 1, calls)
    ensures EventsMean(events + [if attempts(calls) == Success then StepCompleted(calls) else StepFailed(calls)], attempts, calls)
  {
    var e := if attempts(calls) == Success then StepCompleted(calls) else StepFailed(calls);
    assert forall x :: x in events + [e] <==> x in events || x == e;
  }

  /** The retry loop. `attempts(n)` is what the n-th call of the handler comes to, from 1. */
  method ExecuteStep(step: StepDef, attempts: nat -> Attempt)
    returns (outcome: Outcome, calls: nat, events: seq<Event>, sleeps: seq<nat>)
    requires step.maxRetries < U32_MAX && step.retryDelayMs <= U64_MAX
    ensures 1 <= calls <= step.maxRetries + 1
    // The handler is called until it first succeeds or the attempts are used up.
    ensures forall n :: 1 <= n < calls ==> attempts(n) != Success
    ensures attempts(calls) == Success || calls == step.maxRetries + 1
    // What is recorded: the calls on success, else all attempts and the last error or that retries are exhausted.
    ensures attempts(calls) == Success ==> outcome == Succeeded(calls)
    ensures attempts(calls) != Success && step.maxRetries > 0 ==>
      outcome == Errored(calls, "retry exhausted: " + step.name + " after " + Decimal(step.maxRetries + 1) + " attempts")
    ensures attempts(calls).TimedOut? && step.maxRetries == 0 ==>
      outcome == Errored(1, "step timeout: " + step.name + " after " + Decimal(step.timeoutMs) + "ms")
    ensures attempts(calls).Failure? && step.maxRetries == 0 ==> outcome == Errored(1, attempts(1).error)
    ensures EventsMean(events, attempts, calls)
    ensures SleepsMean(sleeps, step, calls)
  {
    hide DelayMs, Sleeps, EventsSoFar, Decimal, ErrorOf, Added, EventsMean, SleepsMean;
    var maxAttempts := step.maxRetries + 1;
    events, sleeps := [StepStarted], [];
    AtStart(step, attempts);
    calls := 0;
    var lastError := "";
    var attempt := 1;
    while attempt <= maxAttempts
      invariant 1 <= attempt <= maxAttempts + 1 && calls == attempt - 1
      invariant forall n :: 1 <= n < attempt ==> attempts(n) != Success
      invariant lastError == if attempt == 1 then "" else ErrorOf(step, attempts(attempt - 1))
      invariant EventsSoFar(events, attempts, if attempt <= maxAttempts then attempt - 1 else step.maxRetries, attempt - 1)
      invariant sleeps == Sleeps(step, if attempt <= maxAttempts then attempt else maxAttempts)
    {
      var result := attempts(attempt);
      calls := calls + 1;
      ghost var before := events;
      AddedIs(events, attempt, result);
      OneMoreAttempt(events, attempts, attempt - 1, result != Success && attempt < maxAttempts);
      if result == TimedOut {
        events := events + [StepFailed(attempt)];
      }
      if result == Success {
        LastEvent(events, attempts, attempt);
        events := events + [StepCompleted(attempt)];
        SleepsAre(step, attempt);
        return Succeeded(attempt), calls, events, sleeps;
      }
      if attempt < maxAttempts {
        events := events + [StepRetry(attempt)];
        OneMoreSleep(step, attempt);
      }
      lastError := ErrorOf(step, result);
      if attempt < maxAttempts {
        sleeps := sleeps + [DelayMs(step.backoff, step.retryDelayMs, attempt)];
      }
      attempt := attempt + 1;
    }
    ErrorIs(step, attempts(maxAttempts));
    var error := if maxAttempts > 1 then RetryExhausted(step) else lastError;
    LastEvent(events, attempts, maxAttempts);
    events := events + [StepFailed(maxAttempts)];
    SleepsAre(step, maxAttempts);
    outcome := Errored(maxAttempts, error);
  }

  lemma AtStart(step: StepDef, attempts: nat -> Attempt)
    requires step.retryDelayMs <= U64_MAX
    ensures EventsSoFar([StepStarted], attempts, 0, 0) && Sleeps(step, 1) == []
  {
  }

  lemma OneMoreSleep(step: StepDef, attempt: nat)
    requires attempt >= 1 && step.retryDelayMs <= U64_MAX
    ensures Sleeps(step, attempt + 1) == Sleeps(step, attempt) + [DelayMs(step.backoff, step.retryDelayMs, attempt)]
  {
  }

  lemma SleepsAre(step: StepDef, n: nat)
    requires n >= 1 && step.retryDelayMs <= U64_MAX
    ensures SleepsMean(Sleeps(step, n), step, n)
  {
    hide DelayMs;
    forall k | 0 <= k < n - 1
      ensures step.backoff == Exponential ==> Sleeps(step, n)[k] == Min(step.retryDelayMs * Pow2(k), U64_MAX)
      ensures step.backoff == Linear ==>
        Sleeps(step, n)[k] == if step.retryDelayMs * (k + 1) > U64_MAX then U64_MAX else step.retryDelayMs * (k + 1)
      ensures step.backoff == Fixed ==> Sleeps(step, n)[k] == step.retryDelayMs
    {
      LinearAndFixedDelays(step.retryDelayMs, k + 1);
      ExponentialDelay(step.retryDelayMs, k + 1);
    }
  }

  /** A written number reads back: its last digit counts ones, what is before it tens. */
  lemma {:induction false} DecimalReads(n: nat)
    ensures Reading(Decimal(n)) == n && (n > 0 ==> Decimal(n)[0] != '0') && forall c :: c in Decimal(n) ==> '0' <= c <= '9'
  {
    if n >= 10 {
      DecimalReads(n / 10);
      assert Decimal(n)[..|Decimal(n)| - 1] == Decimal(n / 10);
    }
  }

  function Reading(s: string): int {
    if s == "" then 0 else 10 * Reading(s[..|s| - 1]) + (s[|s| - 1] as int - '0' as int)
  }

  /** The delays slept before the n-th call. */
  function Sleeps(step: StepDef, n: nat): seq<nat>
    requires n >= 1 && step.retryDelayMs <= U64_MAX
  {
    seq(n - 1, k requires 0 <= k < n - 1 => DelayMs(step.backoff, step.retryDelayMs, k + 1))
  }

  function Total(s: seq<nat>): nat {
    if s == [] then 0 else Total(s[..|s| - 1]) + s[|s| - 1]
  }

  lemma DoubledTotal(base: nat, p: nat)
    ensures base * (p - 1) + base * p == base * (2 * p - 1)
  {
  }

  /** While no delay reaches the cap, exponential sleeps over n calls total base * (2^(n-1) - 1). */
  lemma {:induction false} ExponentialTotal(step: StepDef, n: nat)
    requires n >= 1 && step.retryDelayMs <= U64_MAX && step.backoff == Exponential
    requires n >= 2 ==> step.retryDelayMs * Pow2(n - 2) <= U64_MAX
    ensures Total(Sleeps(step, n)) == step.retryDelayMs * (Pow2(n - 1) - 1)
  {
    if n >= 2 {
      var base := step.retryDelayMs;
      if n >= 3 {
        Pow2Grows(n - 3, n - 2);
        MulMonotone(base, Pow2(n - 3), Pow2(n - 2));
      }
      ExponentialTotal(step, n - 1);
      ExponentialDelay(base, n - 1);
      assert Sleeps(step, n)[..n - 2] == Sleeps(step, n - 1);
      DoubledTotal(base, Pow2(n - 2));
      assert Pow2(n - 1) == 2 * Pow2(n - 2);
      hide *;
    }
  }
}
