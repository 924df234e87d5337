/** Why each result of a Dag run is what it is, said of statuses, reasons, verdicts and handler outcomes
    alone (rust-old/src/engine/dag.rs, rust-old/src/engine/distributed.rs). */
module Causes {
  import opened Wrappers
  import opened Steps
  import opened Graph
  import opened Scheduler

  /** A step skipped for a dependency leads along its dependencies to an earlier failure. */
  ghost predicate SkipsComeFromFailures(m: StepTable, results: seq<StepResult>) {
    forall i :: 0 <= i < |results| && results[i].status == Skipped && results[i].error == Some("dependency failed") ==>
      exists j :: 0 <= j < i && results[j].status == Failed && Reaches(GraphOf(m), results[i].stepId, results[j].stepId)
  }

  /** A step that waits for a dependency which failed, or was skipped for a failure, is skipped for it. */
  ghost predicate FailuresSpread(m: StepTable, results: seq<StepResult>) {
    forall i, j | 0 <= i < |results| && 0 <= j < |results|
      && results[i].stepId in m && m[results[i].stepId].triggerMode == All
      && results[j].stepId in m[results[i].stepId].dependsOn
      && (results[j].status == Failed || (results[j].status == Skipped && results[j].error == Some("dependency failed"))) ::
        results[i] == StepResult(results[i].stepId, Skipped, 0, Some("dependency failed"))
  }

  /** No dependency of the step has failed, or been skipped for a failure. */
  ghost predicate NoneFailed(step: StepDef, before: seq<StepResult>) {
    forall q :: q in before && q.stepId in step.dependsOn ==>
      q.status != Failed && !(q.status == Skipped && q.error == Some("dependency failed"))
  }

  /** The step may be started: what it waits for is on record, nothing it depends on failed, and it has no
      condition, or one that holds or cannot be evaluated. */
  ghost predicate MayStart(step: StepDef, env: Env, before: seq<StepResult>) {
    && (step.triggerMode == All ==> forall d :: d in step.dependsOn ==> exists q :: q in before && q.stepId == d)
    && (step.triggerMode == Any && step.dependsOn != [] ==> exists q :: q in before && q.stepId in step.dependsOn)
    && NoneFailed(step, before)
    && (step.condition == None || env.verdict(step, before).Holds? || env.verdict(step, before).Malformed?)
  }

  /** The result has the cause it names. */
  ghost predicate Caused(m: StepTable, env: Env, before: seq<StepResult>, r: StepResult) {
    && r.stepId in m
    && var step := m[r.stepId];
       || (r.status == Skipped && r.attempts == 0 && r.error == Some("dependency failed") && !NoneFailed(step, before))
       || (r.status == Skipped && r.attempts == 0 && r.error == Some("condition not met") && NoneFailed(step, before)
           && step.condition.Some? && env.verdict(step, before) == DoesNotHold)
       || (RecordsOutcome(r, env.exec(r.stepId)) && exists k :: 0 <= k <= |before| && MayStart(step, env, before[..k]))
       || (env.mayReject && r.status == Failed && r.attempts == 0 && r.error == Some("no fleet node available")
           && MayStart(step, env, before))
  }

  ghost predicate AllCaused(m: StepTable, env: Env, results: seq<StepResult>) {
    forall i :: 0 <= i < |results| ==> Caused(m, env, results[..i], results[i])
  }

  /** The three statements together. */
  ghost predicate Traced(m: StepTable, env: Env, results: seq<StepResult>) {
    SkipsComeFromFailures(m, results) && FailuresSpread(m, results) && AllCaused(m, env, results)
  }

  // ---------- Explained records are traced ----------

  ghost predicate SkipsAreBare(results: seq<StepResult>) {
    forall q :: q in results && q.status == Skipped ==> q.attempts == 0
  }

  lemma ExplainedSkipsAreBare(m: StepTable, env: Env, results: seq<StepResult>)
    requires Explained(m, env, results)
    ensures SkipsAreBare(results)
  {
    hide Launched, DependencyBlocked, ConditionAllows, MayLaunch;
    forall q | q in results && q.status == Skipped
      ensures q.attempts == 0
    {
      var i :| 0 <= i < |results| && results[i] == q;
      assert Justified(m, env, results[..i], q);
    }
  }

  lemma BlockedMeans(step: StepDef, before: seq<StepResult>)
    requires SkipsAreBare(before)
    ensures DependencyBlocked(step, before) <==> !NoneFailed(step, before)
  {
    forall q | q in before && q.stepId in step.dependsOn
      ensures (q.status == Failed || (q.status == Skipped && q.error == Some("dependency failed"))) ==>
        DependencyBlocked(step, before)
    {
      assert q.status == Failed ==> Blocked(before, q.stepId);
      assert q == SkippedResult(q.stepId, "dependency failed") ==> Blocked(before, q.stepId);
    }
  }

  lemma LaunchMeans(m: StepTable, env: Env, before: seq<StepResult>, id: StepId)
    requires MayLaunch(m, env, before, id) && SkipsAreBare(before)
    ensures MayStart(m[id], env, before)
  {
    BlockedMeans(m[id], before);
    TriggeredMeaning(m[id], ResolvedIds(before));
  }

  lemma JustifiedIsCaused(m: StepTable, env: Env, before: seq<StepResult>, r: StepResult)
    requires Justified(m, env, before, r) && SkipsAreBare(before)
    ensures Caused(m, env, before, r)
  {
    BlockedMeans(m[r.stepId], before);
    if r == ExecutedResult(r.stepId, env.exec(r.stepId)) && Launched(m, env, before, r.stepId) {
      var k :| 0 <= k <= |before| && MayLaunch(m, env, before[..k], r.stepId);
      LaunchMeans(m, env, before[..k], r.stepId);
    } else if MayLaunch(m, env, before, r.stepId) {
      LaunchMeans(m, env, before, r.stepId);
    }
  }

  lemma {:induction false} SkipReachesFailure(m: StepTable, env: Env, results: seq<StepResult>, i: nat) returns (j: nat)
    requires AllCaused(m, env, results) && i < |results|
    requires results[i].status == Skipped && results[i].error == Some("dependency failed")
    ensures j < i && results[j].status == Failed && Reaches(GraphOf(m), results[i].stepId, results[j].stepId)
    decreases i
  {
    var id := results[i].stepId;
    assert Caused(m, env, results[..i], results[i]);
    assert "dependency failed"[0] != "condition not met"[0];
    hide AllCaused;
    var q :| q in results[..i] && q.stepId in m[id].dependsOn
      && (q.status == Failed || (q.status == Skipped && q.error == Some("dependency failed")));
    j :| 0 <= j < i && results[j] == q;
    assert Edge(GraphOf(m), id, q.stepId);
    EdgeReaches(GraphOf(m), id, q.stepId);
    if q.status != Failed {
      var mid := j;
      j := SkipReachesFailure(m, env, results, mid);
      ReachesTransitive(GraphOf(m), id, q.stepId, results[j].stepId);
    }
  }

  /** A step that waits for all its dependencies comes after each of them. */
  lemma ComesAfter(m: StepTable, results: seq<StepResult>, i: nat, j: nat)
    requires Ordered(m, results) && NoDuplicates(ResultIds(results)) && i < |results| && j < |results|
    requires results[i].stepId in m && m[results[i].stepId].triggerMode == All
    requires results[j].stepId in m[results[i].stepId].dependsOn
    ensures j < i
  {
    TriggeredMeaning(m[results[i].stepId], ResolvedIds(results[..i]));
    var k :| 0 <= k < i && results[k].stepId == results[j].stepId;
    assert ResultIds(results)[k] == ResultIds(results)[j];
  }

  lemma FailureSpreads(m: StepTable, env: Env, results: seq<StepResult>, i: nat, j: nat)
    requires AllCaused(m, env, results) && Ordered(m, results) && NoDuplicates(ResultIds(results))
    requires i < |results| && j < |results| && results[i].stepId in m && m[results[i].stepId].triggerMode == All
    requires results[j].stepId in m[results[i].stepId].dependsOn
    requires results[j].status == Failed || (results[j].status == Skipped && results[j].error == Some("dependency failed"))
    ensures results[i] == StepResult(results[i].stepId, Skipped, 0, Some("dependency failed"))
  {
    var step := m[results[i].stepId];
    ComesAfter(m, results, i, j);
    assert results[j] in results[..i] && !NoneFailed(step, results[..i]);
    assert Caused(m, env, results[..i], results[i]);
    hide AllCaused, Ordered, NoDuplicates, RecordsOutcome;
    forall k | 0 <= k <= i
      ensures !MayStart(step, env, results[..i][..k])
    {
      NotStarted(step, env, results, j, k);
      assert results[..i][..k] == results[..k];
    }
    assert results[..i][..i] == results[..i];
  }

  lemma NotStarted(step: StepDef, env: Env, results: seq<StepResult>, j: nat, k: nat)
    requires j < |results| && k <= |results| && step.triggerMode == All && results[j].stepId in step.dependsOn
    requires results[j].status == Failed || (results[j].status == Skipped && results[j].error == Some("dependency failed"))
    requires NoDuplicates(ResultIds(results))
    ensures !MayStart(step, env, results[..k])
  {
    forall l | 0 <= l < k && results[l].stepId == results[j].stepId
      ensures l == j
    {
      assert ResultIds(results)[l] == ResultIds(results)[j];
    }
  }

  lemma RecordIsTraced(m: StepTable, env: Env, results: seq<StepResult>)
    requires Explained(m, env, results) && Ordered(m, results) && NoDuplicates(ResultIds(results))
    ensures Traced(m, env, results)
  {
    ExplainedSkipsAreBare(m, env, results);
    forall i | 0 <= i < |results|
      ensures Caused(m, env, results[..i], results[i])
    {
      assert Justified(m, env, results[..i], results[i]);
      JustifiedIsCaused(m, env, results[..i], results[i]);
    }
    hide Explained, Ordered, NoDuplicates, Caused;
    assert AllCaused(m, env, results);
    forall i | 0 <= i < |results| && results[i].status == Skipped && results[i].error == Some("dependency failed")
      ensures exists j :: 0 <= j < i && results[j].status == Failed && Reaches(GraphOf(m), results[i].stepId, results[j].stepId)
    {
      var j := SkipReachesFailure(m, env, results, i);
    }
    forall i, j | 0 <= i < |results| && 0 <= j < |results|
      && results[i].stepId in m && m[results[i].stepId].triggerMode == All
      && results[j].stepId in m[results[i].stepId].dependsOn
      && (results[j].status == Failed || (results[j].status == Skipped && results[j].error == Some("dependency failed")))
      ensures results[i] == StepResult(results[i].stepId, Skipped, 0, Some("dependency failed"))
    {
      FailureSpreads(m, env, results, i, j);
    }
  }

  /** With no failure on record no step is skipped for a dependency. */
  lemma NoFailureNoSkip(m: StepTable, results: seq<StepResult>)
    requires SkipsComeFromFailures(m, results) && forall r :: r in results ==> r.status != Failed
    ensures forall r :: r in results && r.status == Skipped ==> r.error != Some("dependency failed")
  {
  }
}
