/** What the engine does with the step results of a run: rollback on failure, the flow's outcome,
    and the execution records saved (rust-old/src/engine/runner.rs). */
module Engine {
  import opened Wrappers
  import opened Steps
  import opened Flow
  import opened Sequential
  import opened HierarchicalRunner

  datatype WorkflowState = RunningFlow | CompletedFlow | FailedFlow | RolledBackFlow

  datatype FlowResult = FlowResult(steps: seq<StepResult>, success: bool, rolledBack: bool)

  // The rollback handler's answer for the n-th rollback call of a run.
  type RollbackHandler = (nat, StepDef) -> bool

  predicate CompletedIn(results: seq<StepResult>, id: StepId) {
    exists r :: r in results && r.stepId == id && r.status == Completed
  }

  predicate Undoable(step: StepDef, results: seq<StepResult>) {
    step.rollbackable && CompletedIn(results, step.id)
  }

  /** A step is undone if it may be and is on record as completed. */
  lemma UndoableMeans(step: StepDef, results: seq<StepResult>)
    ensures Undoable(step, results) <==>
      step.rollbackable && exists r :: r in results && r.stepId == step.id && r.status == Completed
  {
  }

  /** The steps to undo, in the order the flow lists them. */
  function ToUndo(steps: seq<StepDef>, results: seq<StepResult>): seq<StepDef> {
    if steps == [] then []
    else
      var last := steps[|steps| - 1];
      ToUndo(steps[..|steps| - 1], results) + if Undoable(last, results) then [last] else []
  }

  function Reversed<T>(s: seq<T>): seq<T> {
    seq(|s|, i requires 0 <= i < |s| => s[|s| - 1 - i])
  }

  /** The handler said yes at each of the calls. */
  predicate AllUndone(handler: RollbackHandler, calls: seq<StepDef>) {
    forall k | 0 <= k < |calls| :: handler(k, calls[k])
  }

  /** Calls the handler on every completed rollbackable step, last listed first, and goes on after a
      failure; without a handler nothing is called and nothing counts as rolled back. */
  method RollbackCompletedSteps(steps: seq<StepDef>, results: seq<StepResult>, handler: Option<RollbackHandler>)
    returns (rolledBack: bool, calls: seq<StepDef>)
    ensures handler == None ==> !rolledBack && calls == []
    ensures handler.Some? ==> calls == Reversed(ToUndo(steps, results)) && (rolledBack <==> AllUndone(handler.value, calls))
  {
    calls := [];
    if handler == None {
      return false, calls;
    }
    var completed := CollectUndoable(steps, results);
    rolledBack := true;
    var i := |completed|;
    while i > 0
      invariant 0 <= i <= |completed| && |calls| == |completed| - i
      invariant forall k :: 0 <= k < |calls| ==> calls[k] == completed[|completed| - 1 - k]
      invariant rolledBack <==> AllUndone(handler.value, calls)
    {
      i := i - 1;
      var step := completed[i];
      if !handler.value(|calls|, step) {
        rolledBack := false;
      }
      ghost var before := calls;
      calls := calls + [step];
      OneMoreCall(handler.value, before, step);
    }
  }

  lemma OneMoreCall(handler: RollbackHandler, calls: seq<StepDef>, step: StepDef)
    ensures AllUndone(handler, calls + [step]) <==> AllUndone(handler, calls) && handler(|calls|, step)
  {
    var all := calls + [step];
    if AllUndone(handler, all) {
      assert handler(|calls|, all[|calls|]);
      forall k | 0 <= k < |calls|
        ensures handler(k, calls[k])
      {
        assert handler(k, all[k]);
      }
    }
  }

  method CollectUndoable(steps: seq<StepDef>, results: seq<StepResult>) returns (completed: seq<StepDef>)
    ensures completed == ToUndo(steps, results)
  {
    completed := [];
    for i := 0 to |steps|
      invariant completed == ToUndo(steps[..i], results)
    {
      assert steps[..i + 1][..i] == steps[..i];
      if Undoable(steps[i], results) {
        completed := completed + [steps[i]];
      }
    }
    assert steps[..|steps|] == steps;
  }

  /** The flow's result, the state saved for it and the rollback calls made. */
  method Finalize(flow: FlowDef, results: seq<StepResult>, handler: Option<RollbackHandler>)
    returns (r: FlowResult, saved: WorkflowState, calls: seq<StepDef>)
    ensures r.steps == results && (r.success <==> !HasFailures(results))
    ensures r.rolledBack <==>
      HasFailures(results) && flow.rollbackOnFailure && handler.Some? && AllUndone(handler.value, calls)
    ensures calls == if HasFailures(results) && flow.rollbackOnFailure && handler.Some?
      then Reversed(ToUndo(flow.steps, results)) else []
    ensures saved == if r.success then CompletedFlow else if r.rolledBack then RolledBackFlow else FailedFlow
  {
    var hasFailures := exists q :: q in results && q.status == Failed;
    var rolledBack := false;
    calls := [];
    if hasFailures && flow.rollbackOnFailure {
      rolledBack, calls := RollbackCompletedSteps(flow.steps, results, handler);
    }
    saved := if rolledBack then RolledBackFlow else if hasFailures then FailedFlow else CompletedFlow;
    r := FlowResult(results, !hasFailures, rolledBack);
  }

  // ---------- Rollback order ----------

  /** The rollbackable steps in the order their completions were recorded. */
  function CompletionLog(table: StepTable, results: seq<StepResult>): seq<StepDef> {
    if results == [] then []
    else
      var last := results[|results| - 1];
      CompletionLog(table, results[..|results| - 1]) +
      if last.status == Completed && last.stepId in table && table[last.stepId].rollbackable
      then [table[last.stepId]] else []
  }

  lemma CompletedOnlyHere(results: seq<StepResult>, i: nat)
    requires NoDuplicates(ResultIds(results)) && i < |results|
    ensures CompletedIn(results, results[i].stepId) <==> results[i].status == Completed
  {
    if r :| r in results && r.stepId == results[i].stepId && r.status == Completed {
      var k :| 0 <= k < |results| && results[k] == r;
      assert ResultIds(results)[k] == ResultIds(results)[i];
    }
    assert results[i] in results;
  }

  /** When results come in flow order, the flow's order of undoable steps is their completion order. */
  lemma {:induction false} FlowOrderIsCompletionOrder(steps: seq<StepDef>, results: seq<StepResult>, n: nat)
    requires DistinctIds(steps) && ResultIds(results) == Ids(steps) && n <= |steps|
    ensures |results| == |steps| && ToUndo(steps[..n], results) == CompletionLog(TableOf(steps), results[..n])
  {
    assert |ResultIds(results)| == |results| == |steps|;
    if n > 0 {
      FlowOrderIsCompletionOrder(steps, results, n - 1);
      assert steps[..n][..n - 1] == steps[..n - 1] && results[..n][..n - 1] == results[..n - 1];
      assert ResultIds(results)[n - 1] == Ids(steps)[n - 1];
      TableOfDistinct(steps, n - 1);
      CompletedOnlyHere(results, n - 1);
    }
  }

  /** A Sequential flow: validate, execute, finalize. A failed run with rollback enabled and a handler
      undoes exactly the rollbackable steps that completed, once each, latest completion first. */
  method RunSequentialFlow(flow: FlowDef, env: RunEnv, handler: Option<RollbackHandler>)
    returns (r: Result<FlowResult, FlowError>, saved: seq<WorkflowState>, calls: seq<StepDef>)
    requires flow.mode == FlowMode.Sequential && DistinctIds(flow.steps)
    ensures r.Ok? <==> WellFormed(flow)
    ensures r.Err? ==> saved == [] && calls == []
    ensures r.Ok? ==> SequentialOutcome(flow.steps, env, r.value.steps)
    ensures r.Ok? && HasFailures(r.value.steps) && flow.rollbackOnFailure && handler.Some? ==>
      && calls == Reversed(CompletionLog(TableOf(flow.steps), r.value.steps))
      && NoDuplicates(Ids(calls))
      && (r.value.rolledBack <==> AllUndone(handler.value, calls))
    ensures r.Ok? && !(HasFailures(r.value.steps) && flow.rollbackOnFailure && handler.Some?) ==>
      calls == [] && !r.value.rolledBack
    ensures r.Ok? ==> (r.value.success <==> !HasFailures(r.value.steps)) && |saved| == 2 && saved[0] == RunningFlow
    ensures r.Ok? ==> saved[1] == if r.value.success then CompletedFlow else if r.value.rolledBack then RolledBackFlow else FailedFlow
  {
    hide SequentialOutcome, ToUndo, CompletionLog, WellFormed, NoDuplicates, AllUndone, HasFailures;
    saved, calls := [], [];
    var verdict := Validate(flow);
    if verdict.Err? {
      return Err(verdict.error), saved, calls;
    }
    saved := [RunningFlow];
    var results := RunSequential(flow.steps, env);
    var result, state;
    result, state, calls := Finalize(flow, results, handler);
    saved := saved + [state];
    r := Ok(result);
    FlowOrderIsCompletionOrder(flow.steps, results, |flow.steps|);
    assert flow.steps[..|flow.steps|] == flow.steps && results[..|flow.steps|] == results;
    UndoneOnce(flow.steps, results);
  }

  lemma {:induction false} ToUndoIsSubsequence(steps: seq<StepDef>, results: seq<StepResult>)
    requires DistinctIds(steps)
    ensures NoDuplicates(Ids(ToUndo(steps, results)))
    ensures forall s :: s in ToUndo(steps, results) <==> s in steps && Undoable(s, results)
  {
    if steps != [] {
      var n := |steps| - 1;
      var front := steps[..n];
      assert steps == front + [steps[n]];
      assert forall k :: 0 <= k < n ==> Ids(front)[k] == Ids(steps)[k];
      ToUndoIsSubsequence(front, results);
      var u := ToUndo(front, results);
      assert forall s :: s in steps <==> s in front || s == steps[n];
      forall s | s in front
        ensures s.id != steps[n].id
      {
        var j :| 0 <= j < n && front[j] == s;
        assert Ids(steps)[j] != Ids(steps)[n];
      }
      hide Undoable, NoDuplicates, DistinctIds;
      if Undoable(steps[n], results) {
        OneMoreUndone(u, steps[n]);
        assert ToUndo(steps, results) == u + [steps[n]];
      } else {
        assert ToUndo(steps, results) == u;
      }
    }
  }

  /** The calls are for exactly the steps listed that may be undone and are on record as completed. */
  ghost predicate CallsMean(steps: seq<StepDef>, results: seq<StepResult>, calls: seq<StepDef>) {
    forall s :: s in calls <==>
      s in steps && s.rollbackable && exists r :: r in results && r.stepId == s.id && r.status == Completed
  }

  lemma CallsAre(steps: seq<StepDef>, results: seq<StepResult>)
    requires DistinctIds(steps)
    ensures CallsMean(steps, results, Reversed(ToUndo(steps, results)))
  {
    ToUndoIsSubsequence(steps, results);
    ReversedHoldsTheSame(ToUndo(steps, results));
    hide Reversed, ToUndo, Undoable;
    forall s
      ensures Undoable(s, results) <==> s.rollbackable && exists r :: r in results && r.stepId == s.id && r.status == Completed
    {
      UndoableMeans(s, results);
    }
  }

  lemma OneMoreUndone(u: seq<StepDef>, step: StepDef)
    requires NoDuplicates(Ids(u)) && forall s :: s in u ==> s.id != step.id
    ensures NoDuplicates(Ids(u + [step])) && forall s :: s in u + [step] <==> s in u || s == step
  {
    var ids := Ids(u + [step]);
    forall i, j | 0 <= i < j < |ids|
      ensures ids[i] != ids[j]
    {
      assert ids[i] == Ids(u)[i] && u[i] in u;
      if j < |u| {
        assert ids[j] == Ids(u)[j];
      }
    }
  }

  lemma UndoneOnce(steps: seq<StepDef>, results: seq<StepResult>)
    requires DistinctIds(steps)
    ensures NoDuplicates(Ids(Reversed(ToUndo(steps, results))))
  {
    ToUndoIsSubsequence(steps, results);
    var u := ToUndo(steps, results);
    var v := Reversed(u);
    forall i, j | 0 <= i < j < |v|
      ensures Ids(v)[i] != Ids(v)[j]
    {
      assert Ids(u)[|u| - 1 - j] != Ids(u)[|u| - 1 - i];
    }
  }

  /** Rollback goes by the flow's listing, not by completion: of two undone steps the one listed
      later is undone first, whatever order a Dag run completed them in. */
  lemma LaterListedIsUndoneFirst(steps: seq<StepDef>, results: seq<StepResult>, i: nat, j: nat)
    returns (ci: nat, cj: nat)
    requires DistinctIds(steps) && i < j < |steps| && Undoable(steps[i], results) && Undoable(steps[j], results)
    ensures var calls := Reversed(ToUndo(steps, results));
      ci < |calls| && cj < |calls| && calls[ci] == steps[i] && calls[cj] == steps[j] && cj < ci
  {
    var a, b := UndoPositions(steps, results, i, j);
    var u := ToUndo(steps, results);
    ci, cj := |u| - 1 - a, |u| - 1 - b;
  }

  lemma {:induction false} UndoPositions(steps: seq<StepDef>, results: seq<StepResult>, i: nat, j: nat)
    returns (a: nat, b: nat)
    requires i < j < |steps| && Undoable(steps[i], results) && Undoable(steps[j], results)
    ensures var u := ToUndo(steps, results); a < b < |u| && u[a] == steps[i] && u[b] == steps[j]
    decreases |steps|
  {
    var n := |steps| - 1;
    if j < n {
      a, b := UndoPositions(steps[..n], results, i, j);
    } else {
      a := UndoPosition(steps[..n], results, i);
      b := |ToUndo(steps[..n], results)|;
    }
  }

  lemma {:induction false} UndoPosition(steps: seq<StepDef>, results: seq<StepResult>, i: nat) returns (a: nat)
    requires i < |steps| && Undoable(steps[i], results)
    ensures var u := ToUndo(steps, results); a < |u| && u[a] == steps[i]
    decreases |steps|
  {
    var n := |steps| - 1;
    if i < n {
      a := UndoPosition(steps[..n], results, i);
    } else {
      a := |ToUndo(steps[..n], results)|;
    }
  }

  /** Of two undone steps one is undone before the other exactly when the flow lists it later. */
  lemma UndoneFirstIff(steps: seq<StepDef>, results: seq<StepResult>, i: nat, j: nat)
    requires DistinctIds(steps) && i < |steps| && j < |steps| && i != j
    requires Undoable(steps[i], results) && Undoable(steps[j], results)
    ensures UndoneBefore(Reversed(ToUndo(steps, results)), steps[j], steps[i]) <==> i < j
  {
    var calls := Reversed(ToUndo(steps, results));
    UndoneOnce(steps, results);
    if i < j {
      var ci, cj := LaterListedIsUndoneFirst(steps, results, i, j);
      assert calls[cj] == steps[j] && calls[ci] == steps[i];
    } else {
      var cj, ci := LaterListedIsUndoneFirst(steps, results, j, i);
      forall k, l | 0 <= k < l < |calls| && calls[k] == steps[j]
        ensures calls[l] != steps[i]
      {
        CalledOnlyAt(calls, k, cj);
        if calls[l] == steps[i] {
          CalledOnlyAt(calls, l, ci);
        }
      }
    }
  }

  lemma CalledOnlyAt(calls: seq<StepDef>, k: nat, l: nat)
    requires NoDuplicates(Ids(calls)) && k < |calls| && l < |calls| && calls[k] == calls[l]
    ensures k == l
  {
    assert Ids(calls)[k] == calls[k].id && Ids(calls)[l] == calls[l].id;
  }

  ghost predicate UndoneBefore(calls: seq<StepDef>, first: StepDef, second: StepDef) {
    exists k, l :: 0 <= k < l < |calls| && calls[k] == first && calls[l] == second
  }

  // ---------- Rollback of a forest ----------

  ghost predicate Exhaustive(steps: seq<StepDef>, results: seq<StepResult>, calls: seq<StepDef>) {
    forall s :: s in Preorder(steps) && s.rollbackable && (exists r :: r in results && r.stepId == s.id && r.status == Completed)
      ==> s in calls
  }

  lemma {:induction false} TopLevelInForest(steps: seq<StepDef>)
    requires DistinctIds(Preorder(steps))
    ensures DistinctIds(steps) && forall s :: s in steps ==> s in Preorder(steps)
  {
    if steps != [] {
      var below, after := Preorder(steps[0].subSteps), Preorder(steps[1..]);
      var all := [steps[0]] + below + after;
      assert Preorder(steps) == all;
      forall i, j | 0 <= i < j < |Ids(after)|
        ensures Ids(after)[i] != Ids(after)[j]
      {
        assert Ids(all)[1 + |below| + i] == after[i].id && Ids(all)[1 + |below| + j] == after[j].id;
      }
      TopLevelInForest(steps[1..]);
      assert steps == [steps[0]] + steps[1..];
      forall s | s in steps[1..]
        ensures s.id != steps[0].id
      {
        var k :| 0 <= k < |after| && after[k] == s;
        assert Ids(all)[1 + |below| + k] == s.id && Ids(all)[0] == steps[0].id;
      }
      DistinctCons(steps[0], steps[1..]);
    }
  }

  lemma DistinctCons(step: StepDef, steps: seq<StepDef>)
    requires DistinctIds(steps) && forall s :: s in steps ==> s.id != step.id
    ensures DistinctIds([step] + steps)
  {
    var ids := Ids([step] + steps);
    forall i, j | 0 <= i < j < |ids|
      ensures ids[i] != ids[j]
    {
      assert ids[j] == Ids(steps)[j - 1] && steps[j - 1] in steps;
      assert i > 0 ==> ids[i] == Ids(steps)[i - 1];
    }
  }

  lemma ExhaustiveIff(steps: seq<StepDef>, results: seq<StepResult>, calls: seq<StepDef>)
    requires CallsMean(steps, results, calls)
    ensures Exhaustive(steps, results, calls) <==> Exhaustive(steps, results, steps)
  {
    hide Preorder;
  }

  /** A Hierarchical flow: validate, execute, finalize. A failed run with rollback enabled and a handler undoes
      the rollbackable steps of the top level that completed, once each; so every completed rollbackable step
      of the forest is undone exactly if none of them is a sub-step. */
  method RunHierarchicalFlow(flow: FlowDef, env: RunEnv, handler: Option<RollbackHandler>)
    returns (r: Result<FlowResult, FlowError>, saved: seq<WorkflowState>, calls: seq<StepDef>)
    requires flow.mode == Hierarchical && DistinctIds(Preorder(flow.steps))
    ensures r.Ok? <==> WellFormed(flow)
    ensures r.Err? ==> saved == [] && calls == []
    ensures r.Ok? ==> r.value.steps == Tree(flow.steps, false, [], env) && (r.value.success <==> !HasFailures(r.value.steps))
    ensures r.Ok? && HasFailures(r.value.steps) && flow.rollbackOnFailure && handler.Some? ==>
      && NoDuplicates(Ids(calls)) && CallsMean(flow.steps, r.value.steps, calls)
      && (Exhaustive(flow.steps, r.value.steps, calls) <==> Exhaustive(flow.steps, r.value.steps, flow.steps))
      && (r.value.rolledBack <==> AllUndone(handler.value, calls))
    ensures r.Ok? && !(HasFailures(r.value.steps) && flow.rollbackOnFailure && handler.Some?) ==>
      calls == [] && !r.value.rolledBack
    ensures r.Ok? ==> saved == [RunningFlow,
      if r.value.success then CompletedFlow else if r.value.rolledBack then RolledBackFlow else FailedFlow]
  {
    hide Tree, ToUndo, WellFormed, NoDuplicates, AllUndone, HasFailures, Preorder, CallsMean, Exhaustive;
    saved, calls := [], [];
    var verdict := Validate(flow);
    if verdict.Err? {
      return Err(verdict.error), saved, calls;
    }
    saved := [RunningFlow];
    var results := ExecuteTree(flow.steps, env, []);
    var result, state;
    result, state, calls := Finalize(flow, results, handler);
    saved := saved + [state];
    r := Ok(result);
    TopLevelInForest(flow.steps);
    UndoneOnce(flow.steps, results);
    CallsAre(flow.steps, results);
    ExhaustiveIff(flow.steps, results, Reversed(ToUndo(flow.steps, results)));
  }

  lemma ReversedHoldsTheSame(s: seq<StepDef>)
    ensures forall x :: x in Reversed(s) <==> x in s
  {
    forall x | x in s
      ensures x in Reversed(s)
    {
      var k :| 0 <= k < |s| && s[k] == x;
      assert Reversed(s)[|s| - 1 - k] == x;
    }
  }

  /** A failed run, rolled back, that leaves a completed rollbackable sub-step as it is. */
  lemma SubStepIsNotUndone(parent: StepDef, child: StepDef, last: StepDef, env: RunEnv)
    requires parent.subSteps == [child] && child.subSteps == [] && last.subSteps == []
    requires parent.id != child.id && parent.id != last.id && child.id != last.id
    requires parent.condition == None && child.condition == None && last.condition == None && child.rollbackable
    requires forall n :: !env.cancelled(n) && !env.timedOut(n)
    requires env.exec(0, parent).Succeeded? && env.exec(1, child).Succeeded? && env.exec(2, last).Errored?
    ensures var steps, results := [parent, last], Tree([parent, last], false, [], env);
      && HasFailures(results) && child in Preorder(steps)
      && child.rollbackable && (exists r :: r in results && r.stepId == child.id && r.status == Completed)
      && child !in Reversed(ToUndo(steps, results))
  {
    var steps := [parent, last];
    var p, q := ExecutedResult(parent.id, env.exec(0, parent)), ExecutedResult(child.id, env.exec(1, child));
    var f := ExecutedResult(last.id, env.exec(2, last));
    assert Branch(child, false, [p], env) == (false, [p, q]) by {
      assert [p] + [q] == [p, q] && Tree([], false, [p, q], env) == [p, q];
    }
    assert [child][1..] == [] && Tree([child], false, [p], env) == [p, q];
    assert [] + [p] == [p] && Branch(parent, false, [], env) == (false, [p, q]);
    assert Branch(last, false, [p, q], env) == (true, [p, q, f]) by {
      assert [p, q] + [f] + Skips(Preorder([]), "parent step failed") == [p, q, f];
    }
    assert steps[1..] == [last] && [last][1..] == [];
    assert Tree([last], false, [p, q], env) == [p, q, f];
    var results := Tree(steps, false, [], env);
    assert results == [p, q, f];
    assert f in results && q in results;
    assert Preorder(steps) == [parent] + Preorder([child]) + Preorder([last]);
    ToUndoIsSubsequence(steps, results);
    ReversedHoldsTheSame(ToUndo(steps, results));
  }
}
