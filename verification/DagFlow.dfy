/** A whole Dag flow: validation, the local runner and the assembly of its outcome
    (rust-old/src/engine/runner.rs), and what stopping a run leaves out. */
module DagFlow {
  import opened Wrappers
  import opened Steps
  import opened Graph
  import opened Flow
  import opened Scheduler
  import opened Causes
  import opened DagRunner
  import opened Engine

  /** Validation's reference check on the list and the scheduler's view of the table agree. */
  lemma PresentIsClosed(steps: seq<StepDef>)
    requires DistinctIds(steps)
    ensures AllDependenciesPresent(steps) <==> ClosedTable(TableOf(steps))
  {
    var m := TableOf(steps);
    TableCoversSteps(steps);
    forall s | s in steps
      ensures s.id in m && m[s.id] == s
    {
      var i :| 0 <= i < |steps| && steps[i] == s;
      TableOfDistinct(steps, i);
    }
    forall id | id in m
      ensures exists s :: s in steps && s.id == id && m[id] == s
    {
      var s :| s in steps && s.id == id;
    }
  }

  /** If some handler fails, one fails that no failing dependency keeps from being started. */
  lemma SomeFailureIsReached(m: StepTable, exec: StepId -> Outcome, id: StepId)
    requires !HasCycle(GraphOf(m)) && ClosedTable(m)
    requires id in m && !exec(id).Succeeded?
    ensures exists x :: x in m && !exec(x).Succeeded? && !Doomed(m, exec, x)
  {
    if forall x :: x in m && !exec(x).Succeeded? ==> Doomed(m, exec, x) {
      var g := GraphOf(m);
      var doomed := set x | x in m && Doomed(m, exec, x);
      forall x | x in doomed
        ensures HasSuccessorIn(g, x, doomed)
      {
        var t :| Reaches(g, x, t) && !exec(t).Succeeded?;
        var n := ReachesFirst(g, x, t);
        assert n in m[x].dependsOn;
        assert n in doomed;
      }
      assert id in doomed;
      EndlessSetHasCycle(g, doomed);
    }
  }

  lemma FailureIsRecordedIff(m: StepTable, exec: StepId -> Outcome, results: seq<StepResult>)
    requires !HasCycle(GraphOf(m)) && ClosedTable(m) && ExactlyOnce(m, results)
    requires forall r :: r in results ==> r == Expected(m, exec, r.stepId)
    ensures HasFailures(results) <==> exists id :: id in m && !exec(id).Succeeded?
  {
    if id :| id in m && !exec(id).Succeeded? {
      SomeFailureIsReached(m, exec, id);
      var x :| x in m && !exec(x).Succeeded? && !Doomed(m, exec, x);
      assert x in ResolvedIds(results);
      var r :| r in results && r.stepId == x;
      assert r.status == Failed;
    }
    if r :| r in results && r.status == Failed {
      assert r.stepId in ResolvedIds(results);
      assert r == Expected(m, exec, r.stepId);
    }
  }

  // The reasons a run may be told to stop for, wave by wave; cancellation is looked at first.
  function StopReason(cancelled: nat -> bool, expired: nat -> bool): nat -> Option<string> {
    (wave: nat) => if cancelled(wave) then Some("cancelled") else if expired(wave) then Some("flow timeout exceeded") else None
  }

  ghost predicate Undisturbed(stop: nat -> Option<string>) {
    forall wave: nat :: stop(wave) == None
  }

  /** When every step is on record: in an undisturbed run of a validated flow, and in a run first told
      to stop at wave `w` exactly if w + 1 waves reach every step. */
  ghost predicate Complete(m: StepTable, stop: nat -> Option<string>, results: seq<StepResult>) {
    && (Undisturbed(stop) ==> ExactlyOnce(m, results))
    && forall w: nat :: FirstStop(stop, w) ==> (ExactlyOnce(m, results) <==> Fired(m, w + 1) == m.Keys)
  }

  /** What the executed waves record of unconditioned steps whose dependencies agree: the declarative
      answer, in a stopped run as far as it went. */
  ghost predicate AsExpected(m: StepTable, exec: StepId -> Outcome, results: seq<StepResult>) {
    forall r :: r in results ==> r == Expected(m, exec, r.stepId)
  }

  lemma CompletenessOfRuns(m: StepTable, env: Env, stop: nat -> Option<string>, results: seq<StepResult>, executed: nat)
    requires executed <= |results| && Accurate(m, env, stop, results, executed)
    requires !HasCycle(GraphOf(m)) && ClosedTable(m)
    ensures Complete(m, stop, results)
  {
    hide Fired, Explained, Ordered, NoDuplicates, HasCycle, ClosedTable, ResolvedIds, FirstStop;
    assert ExactlyOnce(m, results) <==> ResolvedIds(results) == m.Keys;
  }

  lemma ExpectedResults(m: StepTable, env: Env, stop: nat -> Option<string>, results: seq<StepResult>, executed: nat)
    requires executed <= |results| && Accurate(m, env, stop, results, executed)
    requires Uniform(m, env.exec) && !env.mayReject
    ensures AsExpected(m, env.exec, results[..executed])
    ensures Undisturbed(stop) ==> results[..executed] == results
  {
    hide Explained, Uniform, Expected, Ordered, NoDuplicates, Fired, StopsAt, ExactlyOnce, HasCycle, ClosedTable;
    AllExpected(m, env, results[..executed]);
  }

  lemma SuccessMeansAllSucceed(m: StepTable, env: Env, stop: nat -> Option<string>, results: seq<StepResult>, executed: nat)
    requires executed <= |results| && Accurate(m, env, stop, results, executed) && Undisturbed(stop)
    requires Uniform(m, env.exec) && !env.mayReject && !HasCycle(GraphOf(m)) && ClosedTable(m)
    ensures HasFailures(results) <==> exists id :: id in m && !env.exec(id).Succeeded?
  {
    ExpectedResults(m, env, stop, results, executed);
    hide Explained, Uniform, HasFailures, HasCycle, ClosedTable, Expected, Ordered, NoDuplicates, Fired, StopsAt, ResolvedIds;
    FailureIsRecordedIff(m, env.exec, results);
  }

  /** The rollback calls are exactly the completed rollbackable steps, once each. */
  lemma UndoesExactly(steps: seq<StepDef>, results: seq<StepResult>)
    requires DistinctIds(steps)
    ensures var calls := Reversed(ToUndo(steps, results));
      && NoDuplicates(Ids(calls))
      && forall s :: s in calls <==>
           s in steps && s.rollbackable && exists r :: r in results && r.stepId == s.id && r.status == Completed
  {
    hide NoDuplicates;
    UndoneOnce(steps, results);
    CallsAre(steps, results);
  }

  // ---------- Whole runs ----------

  /** The rollback calls a finished run makes and what it reports of them. */
  ghost predicate RolledBackIf(flow: FlowDef, handler: Option<RollbackHandler>, r: FlowResult, calls: seq<StepDef>) {
    if HasFailures(r.steps) && flow.rollbackOnFailure && handler.Some? then
      && calls == Reversed(ToUndo(flow.steps, r.steps))
      && NoDuplicates(Ids(calls))
      && CallsMean(flow.steps, r.steps, calls)
      && (r.rolledBack <==> AllUndone(handler.value, calls))
    else
      calls == [] && !r.rolledBack
  }

  lemma FinalizedRollsBack(flow: FlowDef, handler: Option<RollbackHandler>, r: FlowResult, calls: seq<StepDef>)
    requires DistinctIds(flow.steps)
    requires r.rolledBack <==>
      HasFailures(r.steps) && flow.rollbackOnFailure && handler.Some? && AllUndone(handler.value, calls)
    requires calls == if HasFailures(r.steps) && flow.rollbackOnFailure && handler.Some?
      then Reversed(ToUndo(flow.steps, r.steps)) else []
    ensures RolledBackIf(flow, handler, r, calls)
  {
    hide HasFailures, AllUndone, NoDuplicates, DistinctIds;
    UndoesExactly(flow.steps, r.steps);
  }

  /** What `run` and `run_with_cancellation` share: validate, execute, roll back on failure. */
  method ExecuteFlow(flow: FlowDef, env: Env, stop: nat -> Option<string>, handler: Option<RollbackHandler>)
    returns (r: Result<FlowResult, FlowError>, calls: seq<StepDef>, ghost executed: nat)
    requires flow.mode == Dag && DistinctIds(flow.steps) && TableOk(TableOf(flow.steps))
    ensures r.Ok? <==> WellFormed(flow)
    ensures r.Err? ==> calls == []
    ensures r.Ok? ==> executed <= |r.value.steps| && Accurate(TableOf(flow.steps), env, stop, r.value.steps, executed)
    ensures r.Ok? ==> Traced(TableOf(flow.steps), env, r.value.steps[..executed])
    ensures r.Ok? ==> Complete(TableOf(flow.steps), stop, r.value.steps)
    ensures r.Ok? ==> (r.value.success <==> !HasFailures(r.value.steps)) && RolledBackIf(flow, handler, r.value, calls)
    ensures r.Ok? && Uniform(TableOf(flow.steps), env.exec) && !env.mayReject ==>
      && AsExpected(TableOf(flow.steps), env.exec, r.value.steps[..executed])
      && (Undisturbed(stop) ==>
            && r.value.steps[..executed] == r.value.steps
            && (r.value.success <==> forall id :: id in TableOf(flow.steps) ==> env.exec(id).Succeeded?))
  {
    hide Accurate, Complete, Uniform, HasFailures, HasCycle, ClosedTable, AllDependenciesPresent, AsExpected,
      RolledBackIf, Expected, TableOk, Undisturbed, Traced;
    executed, calls := 0, [];
    var verdict := Validate(flow);
    if verdict.Err? {
      return Err(verdict.error), calls, executed;
    }
    PresentIsClosed(flow.steps);
    ghost var m := TableOf(flow.steps);
    var results;
    results, executed := RunDag(flow.steps, env, stop);
    CompletenessOfRuns(m, env, stop, results, executed);
    if Uniform(m, env.exec) && !env.mayReject {
      ExpectedResults(m, env, stop, results, executed);
      if Undisturbed(stop) {
        SuccessMeansAllSucceed(m, env, stop, results, executed);
      }
    }
    var result, state;
    result, state, calls := Finalize(flow, results, handler);
    FinalizedRollsBack(flow, handler, result, calls);
    r := Ok(result);
  }

  /** `run`: there is no token to cancel, only the flow timeout. */
  method RunDagFlow(flow: FlowDef, env: Env, expired: nat -> bool, handler: Option<RollbackHandler>)
    returns (r: Result<FlowResult, FlowError>, calls: seq<StepDef>, ghost executed: nat)
    requires flow.mode == Dag && DistinctIds(flow.steps) && TableOk(TableOf(flow.steps))
    ensures r.Ok? <==> WellFormed(flow)
    ensures r.Err? ==> calls == []
    // Every executed result has the cause it names; the others are skipped for the timeout.
    ensures r.Ok? ==> executed <= |r.value.steps| && Traced(TableOf(flow.steps), env, r.value.steps[..executed])
    ensures r.Ok? ==> forall q :: q in r.value.steps[executed..] ==>
      q.status == Skipped && q.attempts == 0 && q.error == Some("flow timeout exceeded")
    // All steps are on record if the timeout never passes, or exactly if it passes late enough.
    ensures r.Ok? && (forall wave: nat :: !expired(wave)) ==> ExactlyOnce(TableOf(flow.steps), r.value.steps)
    ensures r.Ok? ==> forall w: nat :: expired(w) && (forall v: nat :: v < w ==> !expired(v)) ==>
      (ExactlyOnce(TableOf(flow.steps), r.value.steps) <==> Fired(TableOf(flow.steps), w + 1) == TableOf(flow.steps).Keys)
    // Rollback undoes exactly the rollbackable steps that completed, once each, last listed first.
    ensures r.Ok? ==> (r.value.success <==> !HasFailures(r.value.steps)) && RolledBackIf(flow, handler, r.value, calls)
    // A flow of unconditioned steps whose dependencies agree succeeds exactly if every handler would.
    ensures r.Ok? && Uniform(TableOf(flow.steps), env.exec) && !env.mayReject && (forall wave: nat :: !expired(wave)) ==>
      && AsExpected(TableOf(flow.steps), env.exec, r.value.steps)
      && (r.value.success <==> forall id :: id in TableOf(flow.steps) ==> env.exec(id).Succeeded?)
  {
    hide Uniform, HasFailures, AsExpected, RolledBackIf, TableOk, Accurate, ExactlyOnce, Fired, WellFormed, Traced;
    var never := (wave: nat) => false;
    var stop := StopReason(never, expired);
    r, calls, executed := ExecuteFlow(flow, env, stop, handler);
    if r.Ok? {
      TailReasons(TableOf(flow.steps), env, never, expired, r.value.steps, executed);
    }
    forall w: nat | expired(w) && forall v: nat :: v < w ==> !expired(v)
      ensures FirstStop(stop, w)
    {
    }
  }

  /** What is not executed is skipped with the reason of the first wave at which the run is told to stop,
      a cancellation before the timeout; a run that is not told to stop executes all it records. */
  lemma TailReasons(m: StepTable, env: Env, cancelled: nat -> bool, expired: nat -> bool,
      results: seq<StepResult>, executed: nat)
    requires executed <= |results| && Accurate(m, env, StopReason(cancelled, expired), results, executed)
    ensures forall w: nat :: (cancelled(w) || expired(w)) && (forall v: nat :: v < w ==> !cancelled(v) && !expired(v)) ==>
      forall q :: q in results[executed..] ==>
        q.status == Skipped && q.attempts == 0 && q.error == Some(if cancelled(w) then "cancelled" else "flow timeout exceeded")
    ensures (forall w: nat :: !cancelled(w) && !expired(w)) ==> results[executed..] == []
    ensures (forall w: nat :: !cancelled(w)) ==> forall q :: q in results[executed..] ==>
      q.status == Skipped && q.attempts == 0 && q.error == Some("flow timeout exceeded")
  {
    var stop := StopReason(cancelled, expired);
    hide Explained, Ordered, Fired, ExactlyOnce, HasCycle, ClosedTable, ResolvedIds, NoDuplicates;
    forall w: nat | (cancelled(w) || expired(w)) && forall v: nat :: v < w ==> !cancelled(v) && !expired(v)
      ensures FirstStop(stop, w)
    {
    }
    if u: nat :| stop(u).Some? {
      var w := SomeFirstStop(stop, u);
      assert StopsAt(m, stop, w, results, executed);
    }
  }

  // ---------- Cancellation ----------

  /** The test for a cancelled run: some step was skipped for the cancellation. */
  ghost predicate WasCancelled(results: seq<StepResult>) {
    exists r :: r in results && r.status == Skipped && r.error == Some("cancelled")
  }

  /** The token is what first stops the run, while steps are still waiting to be started. */
  ghost predicate CancelledWithWorkLeft(m: StepTable, cancelled: nat -> bool, expired: nat -> bool) {
    exists w: nat :: FirstStop(StopReason(cancelled, expired), w) && cancelled(w) && Fired(m, w + 1) != Fired(m, w)
  }

  /** `run_with_cancellation`. The token, once cancelled, stays so until the run is over. */
  method RunCancellableDagFlow(flow: FlowDef, env: Env, cancelled: nat -> bool, expired: nat -> bool,
      cancelledAtEnd: bool, handler: Option<RollbackHandler>)
    returns (r: Result<FlowResult, FlowError>, calls: seq<StepDef>, ghost executed: nat)
    requires flow.mode == Dag && DistinctIds(flow.steps) && TableOk(TableOf(flow.steps))
    requires forall w: nat :: cancelled(w) ==> cancelledAtEnd
    ensures r.Ok? <==> WellFormed(flow)
    ensures r.Err? ==> calls == []
    // Every executed result has the cause it names; the others are skipped for what first stopped the run.
    ensures r.Ok? ==> executed <= |r.value.steps| && Traced(TableOf(flow.steps), env, r.value.steps[..executed])
    ensures r.Ok? ==> forall w: nat ::
      (cancelled(w) || expired(w)) && (forall v: nat :: v < w ==> !cancelled(v) && !expired(v)) ==>
        forall q :: q in r.value.steps[executed..] ==>
          q.status == Skipped && q.attempts == 0 && q.error == Some(if cancelled(w) then "cancelled" else "flow timeout exceeded")
    ensures r.Ok? ==> Complete(TableOf(flow.steps), StopReason(cancelled, expired), r.value.steps)
    ensures r.Ok? ==> RolledBackIf(flow, handler, r.value, calls)
    // It succeeds without a failure and without a cancellation that left steps to start.
    ensures r.Ok? ==> (r.value.success <==>
      !HasFailures(r.value.steps) && !CancelledWithWorkLeft(TableOf(flow.steps), cancelled, expired))
  {
    hide HasFailures, RolledBackIf, TableOk, Accurate, ExactlyOnce, Fired, WellFormed, Complete, CancelledWithWorkLeft,
      Uniform, AsExpected, Traced;
    r, calls, executed := ExecuteFlow(flow, env, StopReason(cancelled, expired), handler);
    if r.Ok? {
      var results := r.value.steps;
      var wasCancelled := cancelledAtEnd
        && exists q :: q in results && q.status == Skipped && q.error == Some("cancelled");
      CancellationIsSeen(TableOf(flow.steps), env, cancelled, expired, results, executed);
      TailReasons(TableOf(flow.steps), env, cancelled, expired, results, executed);
      r := Ok(r.value.(success := r.value.success && !wasCancelled));
      RollbackIgnoresSuccess(flow, handler, r.value, calls);
    }
  }

  lemma RollbackIgnoresSuccess(flow: FlowDef, handler: Option<RollbackHandler>, r: FlowResult, calls: seq<StepDef>)
    ensures forall b :: RolledBackIf(flow, handler, r.(success := b), calls) <==> RolledBackIf(flow, handler, r, calls)
  {
  }

  lemma {:induction false} SomeFirstStop(stop: nat -> Option<string>, w: nat) returns (first: nat)
    requires stop(w).Some?
    ensures FirstStop(stop, first)
  {
    if v: nat :| v < w && stop(v).Some? {
      first := SomeFirstStop(stop, v);
    } else {
      first := w;
    }
  }

  /** No executed step is recorded as skipped for a cancellation. */
  lemma ExecutedAreNotCancelled(m: StepTable, env: Env, results: seq<StepResult>)
    requires Explained(m, env, results)
    ensures !WasCancelled(results)
  {
    if r :| r in results && r.status == Skipped && r.error == Some("cancelled") {
      var i :| 0 <= i < |results| && results[i] == r;
      assert Justified(m, env, results[..i], r);
      assert |"cancelled"| == 9 && |"dependency failed"| == 17 && |"condition not met"| == 17;
    }
  }

  /** Steps left to skip are exactly what the next wave would have added. */
  lemma TailIsNewlyFired(m: StepTable, stop: nat -> Option<string>, w: nat, results: seq<StepResult>, executed: nat)
    requires executed <= |results| && StopsAt(m, stop, w, results, executed) && NoDuplicates(ResultIds(results))
    ensures executed < |results| <==> Fired(m, w + 1) != Fired(m, w)
  {
    hide Fired;
    if executed < |results| {
      var id := results[executed].stepId;
      assert id in ResolvedIds(results);
      forall i | 0 <= i < executed
        ensures results[i].stepId != id
      {
        assert ResultIds(results)[i] != ResultIds(results)[executed];
      }
      assert id !in ResolvedIds(results[..executed]);
    } else {
      assert results[..executed] == results;
    }
  }

  lemma CancellationIsSeen(m: StepTable, env: Env, cancelled: nat -> bool, expired: nat -> bool,
      results: seq<StepResult>, executed: nat)
    requires executed <= |results| && Accurate(m, env, StopReason(cancelled, expired), results, executed)
    ensures WasCancelled(results) <==> CancelledWithWorkLeft(m, cancelled, expired)
    ensures WasCancelled(results) ==> exists w: nat :: cancelled(w)
  {
    var stop := StopReason(cancelled, expired);
    ExecutedAreNotCancelled(m, env, results[..executed]);
    hide Explained, Ordered, Fired, ExactlyOnce, HasCycle, ClosedTable, ResolvedIds, NoDuplicates;
    assert results == results[..executed] + results[executed..];
    if u: nat :| stop(u).Some? {
      var w := SomeFirstStop(stop, u);
      TailIsNewlyFired(m, stop, w, results, executed);
      OneFirstStop(stop, w);
      assert |"cancelled"| == 9 && |"flow timeout exceeded"| == 21;
      if executed < |results| {
        var r := results[executed..][0];
        assert r in results[executed..] && r in results;
      }
    } else {
      assert results[..executed] == results;
    }
  }

  lemma OneFirstStop(stop: nat -> Option<string>, w: nat)
    requires FirstStop(stop, w)
    ensures forall u: nat :: FirstStop(stop, u) ==> u == w
  {
  }

  // ---------- Concrete flows ----------

  /** A run stopped before its first wave records the steps without dependencies and no others:
      of a chain, the second step has no result at all. */
  method StoppedChain(a: StepDef, b: StepDef, env: Env) returns (results: seq<StepResult>)
    requires a.id != b.id && a.dependsOn == [] && b.dependsOn == [a.id]
    ensures ResolvedIds(results) == {a.id}
  {
    hide Explained, Ordered, ExactlyOnce, HasCycle, ClosedTable;
    ChainTable(a, b);
    var stop := (wave: nat) => Some("cancelled");
    ghost var executed;
    results, executed := RunDag([a, b], env, stop);
    assert FirstStop(stop, 0);
    assert Fired(TableOf([a, b]), 0 + 1) == {a.id};
  }

  lemma ChainTable(a: StepDef, b: StepDef)
    requires a.id != b.id && a.dependsOn == [] && b.dependsOn == [a.id]
    ensures DistinctIds([a, b]) && TableOf([a, b]) == map[a.id := a, b.id := b] && TableOk(TableOf([a, b]))
    ensures Triggered(a, {}) && !Triggered(b, {})
  {
    assert [a, b][..1] == [a] && [a][..0] == [];
    assert TableOf([a]) == TableOf([])[a.id := a];
    assert TableOf([a, b]) == TableOf([a])[b.id := b];
    TriggeredMeaning(a, {});
    TriggeredMeaning(b, {});
    assert a.id in b.dependsOn && CountIn([a.id], {}) == 0;
  }

  /** Rollback in a failed Dag run: of a step and its dependency, both undone, the one listed later is
      undone first, whichever completed first. */
  method RollbackOrder(flow: FlowDef, env: Env, handler: RollbackHandler, dep: nat, user: nat)
    returns (result: FlowResult, calls: seq<StepDef>)
    requires flow.mode == Dag && DistinctIds(flow.steps) && TableOk(TableOf(flow.steps)) && WellFormed(flow)
    requires flow.rollbackOnFailure && Uniform(TableOf(flow.steps), env.exec) && !env.mayReject
    requires exists id :: id in TableOf(flow.steps) && !env.exec(id).Succeeded?
    requires dep < |flow.steps| && user < |flow.steps| && flow.steps[dep].id in flow.steps[user].dependsOn
    requires Passes(flow, env, dep) && Passes(flow, env, user) && dep != user
    ensures flow.steps[dep] in calls && flow.steps[user] in calls && HasFailures(result.steps)
    ensures RolledBackIf(flow, Some(handler), result, calls)
    ensures UndoneBefore(calls, flow.steps[user], flow.steps[dep]) <==> dep < user
    ensures UndoneBefore(calls, flow.steps[dep], flow.steps[user]) <==> user < dep
  {
    var r;
    ghost var executed;
    r, calls, executed := RunDagFlow(flow, env, (wave: nat) => false, Some(handler));
    result := r.value;
    hide WellFormed, Uniform, TableOk, DistinctIds, HasFailures, Traced;
    PassingIsUndone(flow, env, result.steps, dep);
    PassingIsUndone(flow, env, result.steps, user);
    assert flow.steps[dep] in flow.steps && flow.steps[user] in flow.steps;
    UndoneFirstIff(flow.steps, result.steps, dep, user);
    UndoneFirstIff(flow.steps, result.steps, user, dep);
  }

  /** The step's rollbackable, its handler succeeds, and no dependency fails. */
  ghost predicate Passes(flow: FlowDef, env: Env, i: nat)
    requires i < |flow.steps|
  {
    flow.steps[i].rollbackable && env.exec(flow.steps[i].id).Succeeded?
    && !Doomed(TableOf(flow.steps), env.exec, flow.steps[i].id)
  }

  lemma PassingIsUndone(flow: FlowDef, env: Env, results: seq<StepResult>, i: nat)
    requires i < |flow.steps| && Passes(flow, env, i)
    requires ExactlyOnce(TableOf(flow.steps), results) && AsExpected(TableOf(flow.steps), env.exec, results)
    ensures Undoable(flow.steps[i], results)
  {
    TableCoversSteps(flow.steps);
    var id := flow.steps[i].id;
    assert flow.steps[i] in flow.steps;
    assert id in ResolvedIds(results);
    var q :| q in results && q.stepId == id;
  }

  /** Such a run: a step listed before its dependency, and a third step whose handler fails. */
  method DependencyUndoneFirst() returns (result: FlowResult, calls: seq<StepDef>, dep: StepDef, user: StepDef)
    ensures dep.id in user.dependsOn && UndoneBefore(calls, dep, user) && !UndoneBefore(calls, user, dep)
    ensures HasFailures(result.steps) && result.rolledBack
  {
    hide Uniform, WellFormed, TableOk, DistinctIds, Doomed, HasFailures, NoDuplicates;
    user := StepDef(2, "user", 30000, 0, 0, Fixed, true, None, [1], All, []);
    dep := StepDef(1, "dep", 30000, 0, 0, Fixed, true, None, [], All, []);
    var broken := StepDef(3, "broken", 30000, 0, 0, Fixed, false, None, [], All, []);
    var flow := FlowDef("f", Dag, [user, dep, broken], true, 1);
    var env := Env(id => if id == 3 then Errored(1, "e") else Succeeded(1), (step, results) => Holds, false);
    WitnessFlow(flow, user, dep, broken, env);
    result, calls := RollbackOrder(flow, env, (n, step) => true, 1, 0);
  }

  lemma WitnessFlow(flow: FlowDef, user: StepDef, dep: StepDef, broken: StepDef, env: Env)
    requires flow.mode == Dag && flow.steps == [user, dep, broken] && user.id == 2 && dep.id == 1 && broken.id == 3
    requires user.dependsOn == [1] && dep.dependsOn == [] && broken.dependsOn == []
    requires forall s :: s in flow.steps ==> s.triggerMode == All && s.condition == None
    requires forall id :: env.exec(id).Succeeded? <==> id != 3
    ensures DistinctIds(flow.steps) && TableOk(TableOf(flow.steps)) && WellFormed(flow)
    ensures TableOf(flow.steps).Keys == {1, 2, 3} && Uniform(TableOf(flow.steps), env.exec)
    ensures !Doomed(TableOf(flow.steps), env.exec, 1) && !Doomed(TableOf(flow.steps), env.exec, 2)
  {
    WitnessTable(user, dep, broken);
    var m := TableOf(flow.steps);
    assert flow.steps[0] == user && flow.steps[1] == dep && flow.steps[2] == broken;
    PresentIsClosed(flow.steps);
    hide Reaches, HasCycle;
    WitnessGraph(GraphOf(m));
  }

  lemma WitnessGraph(g: Graph)
    requires g == map[1 := [], 2 := [1], 3 := []]
    ensures !HasCycle(g)
    ensures forall t :: Reaches(g, 1, t) || Reaches(g, 2, t) ==> t != 3
  {
    SettleNode(g, {}, 1);
    SettleNode(g, {1}, 2);
    SettleNode(g, {1, 2}, 3);
    assert {} + {1} == {1} && {1} + {2} == {1, 2} && {1, 2} + {3} == {1, 2, 3};
    hide Reaches;
    SettledGraphIsAcyclic(g, {1, 2, 3});
    forall t | Reaches(g, 1, t) || Reaches(g, 2, t)
      ensures t != 3
    {
      if Reaches(g, 1, t) {
        ClosedReaches(g, {1, 2}, 1, t);
      } else {
        ClosedReaches(g, {1, 2}, 2, t);
      }
    }
  }

  lemma WitnessTable(user: StepDef, dep: StepDef, broken: StepDef)
    requires user.id == 2 && dep.id == 1 && broken.id == 3
    ensures DistinctIds([user, dep, broken])
    ensures TableOf([user, dep, broken]) == map[2 := user, 1 := dep, 3 := broken]
  {
    assert [user, dep, broken][..2] == [user, dep] && [user, dep][..1] == [user] && [user][..0] == [];
    assert TableOf([user]) == TableOf([])[2 := user];
    assert TableOf([user, dep]) == TableOf([user])[1 := dep];
    assert TableOf([user, dep, broken]) == TableOf([user, dep])[3 := broken];
  }
}
