/** Sequential execution (rust-old/src/engine/sequential.rs). */
module Sequential {
  import opened Wrappers
  import opened Steps

  // What a handler that returns comes to. A panic unwinds out of these runners and leaves no record.
  type Finished = o: Outcome | !o.Panicked? witness Succeeded(0)

  // A run's environment. Every decision is made with a different number of results on record, so
  // functions of that number cover every behaviour of handlers, cancellation and clock.
  datatype RunEnv = RunEnv(
    exec: (nat, StepDef) -> Finished,
    verdict: (StepDef, seq<StepResult>) -> Verdict,
    cancelled: nat -> bool,
    timedOut: nat -> bool)

  predicate ConditionAllows(step: StepDef, env: RunEnv, results: seq<StepResult>) {
    step.condition == None || env.verdict(step, results) != DoesNotHold
  }

  /** The result the step must get when `before` is on record. */
  ghost function Decide(step: StepDef, before: seq<StepResult>, env: RunEnv): StepResult {
    if env.cancelled(|before|) then SkippedResult(step.id, "cancelled")
    else if HasFailures(before) then SkippedResult(step.id, "prior step failed")
    else if env.timedOut(|before|) then SkippedResult(step.id, "flow timeout exceeded")
    else if !ConditionAllows(step, env, before) then SkippedResult(step.id, "condition not met")
    else ExecutedResult(step.id, env.exec(|before|, step))
  }

  /** What the i-th step's result says: that it was skipped and why, or what its handler came to. */
  ghost predicate StepRecord(i: nat, step: StepDef, before: seq<StepResult>, r: StepResult, env: RunEnv) {
    && r.stepId == step.id
    && if env.cancelled(i) then RecordsSkip(r, "cancelled")
       else if exists q :: q in before && q.status == Failed then RecordsSkip(r, "prior step failed")
       else if env.timedOut(i) then RecordsSkip(r, "flow timeout exceeded")
       else if step.condition.Some? && env.verdict(step, before) == DoesNotHold then RecordsSkip(r, "condition not met")
       else RecordsOutcome(r, env.exec(i, step))
  }

  /** One result per step, in order, each decided by the ones before it. */
  ghost predicate SequentialOutcome(steps: seq<StepDef>, env: RunEnv, results: seq<StepResult>) {
    && |results| == |steps|
    && forall i :: 0 <= i < |steps| ==> results[i] == Decide(steps[i], results[..i], env)
  }

  method RunSequential(steps: seq<StepDef>, env: RunEnv) returns (results: seq<StepResult>)
    ensures SequentialOutcome(steps, env, results)
    ensures ResultIds(results) == Ids(steps)
    ensures forall i :: 0 <= i < |steps| ==> StepRecord(i, steps[i], results[..i], results[i], env)
  {
    results := [];
    var failed := false;
    assert steps[..0] == [] && SequentialOutcome([], env, []) && !HasFailures([]);
    hide SequentialOutcome, HasFailures, StepRecord;
    for i := 0 to |steps|
      invariant |results| == i
      invariant SequentialOutcome(steps[..i], env, results)
      invariant failed <==> HasFailures(results)
    {
      var step := steps[i];
      ghost var before := results;
      if env.cancelled(i) || failed {
        var reason := if env.cancelled(i) then "cancelled" else "prior step failed";
        results := results + [SkippedResult(step.id, reason)];
      } else if env.timedOut(i) {
        results := results + [SkippedResult(step.id, "flow timeout exceeded")];
      } else if step.condition.Some? && env.verdict(step, results) == DoesNotHold {
        results := results + [SkippedResult(step.id, "condition not met")];
      } else {
        var result := ExecutedResult(step.id, env.exec(i, step));
        if result.status == Failed {
          failed := true;
        }
        results := results + [result];
      }
      OutcomeAppend(steps[..i], step, env, before);
      assert steps[..i + 1] == steps[..i] + [step];
    }
    assert steps[..|steps|] == steps;
    OutcomeIds(steps, env, results);
  }

  lemma OutcomeIds(steps: seq<StepDef>, env: RunEnv, results: seq<StepResult>)
    requires SequentialOutcome(steps, env, results)
    ensures ResultIds(results) == Ids(steps)
    ensures forall i :: 0 <= i < |steps| ==> StepRecord(i, steps[i], results[..i], results[i], env)
  {
    forall i | 0 <= i < |steps|
      ensures StepRecord(i, steps[i], results[..i], results[i], env)
    {
      assert results[i] == Decide(steps[i], results[..i], env);
    }
  }

  lemma OutcomeAppend(steps: seq<StepDef>, step: StepDef, env: RunEnv, results: seq<StepResult>)
    requires SequentialOutcome(steps, env, results)
    ensures SequentialOutcome(steps + [step], env, results + [Decide(step, results, env)])
    ensures forall r :: HasFailures(results + [r]) <==> HasFailures(results) || r.status == Failed
  {
    var all := results + [Decide(step, results, env)];
    forall i | 0 <= i <= |steps|
      ensures all[i] == Decide((steps + [step])[i], all[..i], env)
    {
      assert all[..i] == results[..i];
      assert results[..|results|] == results;
    }
    forall r
      ensures HasFailures(results + [r]) <==> HasFailures(results) || r.status == Failed
    {
      assert forall q :: q in results + [r] <==> q in results || q == r;
    }
  }

  lemma {:induction false} OutcomeIsUnique(steps: seq<StepDef>, env: RunEnv, a: seq<StepResult>, b: seq<StepResult>, n: nat)
    requires SequentialOutcome(steps, env, a) && SequentialOutcome(steps, env, b) && n <= |steps|
    ensures a[..n] == b[..n]
  {
    hide Decide;
    if n > 0 {
      OutcomeIsUnique(steps, env, a, b, n - 1);
      assert a[..n] == a[..n - 1] + [a[n - 1]] && b[..n] == b[..n - 1] + [b[n - 1]];
    }
  }
}
