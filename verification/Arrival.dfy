/** What an Any step with dependencies that disagree gets depends on which of them reports first
    (rust-old/src/engine/distributed.rs). */
module Arrival {
  import opened Wrappers
  import opened Steps
  import opened Graph
  import opened Scheduler
  import opened Distributed
  import opened Termination
  import opened Confluence

  ghost predicate Unconditioned(m: StepTable) {
    forall id :: id in m ==> m[id].condition == None
  }

  /** The step and everything it depends on, directly or not. */
  ghost function Needs(m: StepTable, d: StepId): set<StepId> {
    set x | x in m && (x == d || Reaches(GraphOf(m), d, x))
  }

  lemma NeedsIsClosed(m: StepTable, d: StepId)
    requires ClosedTable(m)
    ensures DependencyClosed(m, Needs(m, d))
  {
    var g := GraphOf(m);
    forall x, y | x in Needs(m, d) && x in m && y in m[x].dependsOn
      ensures y in Needs(m, d)
    {
      assert Edge(g, x, y);
      EdgeReaches(g, x, y);
      if x != d {
        ReachesTransitive(g, d, x, y);
      }
    }
  }

  // ---------- Runs in which workers only take some of the steps ----------

  predicate Unfinished(fleet: map<StepId, Place>, id: StepId) {
    id in fleet && (fleet[id].Queued? || fleet[id].Executing?)
  }

  /** No two unfinished items are on one node, so the order of the queues does not matter. */
  ghost predicate Spread(s: State) {
    forall x, y :: x != y && Unfinished(s.fleet, x) && Unfinished(s.fleet, y) ==> s.fleet[x].node != s.fleet[y].node
  }

  /** So far workers have started no step outside `w`. */
  ghost predicate OnlyOf(c: Config, s: State, w: set<StepId>) {
    && s.alive == c.nodes && Spread(s)
    && (forall id :: id in s.fleet && !s.fleet[id].Queued? ==> id in w)
    && (forall r :: r in s.sched.results && r.stepId !in w ==> r == SkippedResult(r.stepId, "dependency failed"))
  }

  /** The coordinator waits, and not for a step of `w`. */
  ghost predicate DoneWith(s: State, w: set<StepId>) {
    s.pc == Waiting && s.channel == [] && s.fleet.Keys !! w
  }

  /** Runs without disturbances, of unconditioned steps on a fleet with a node for each of them. */
  ghost predicate Calm(c: Config) {
    && !c.mayStop && !c.mayCrash && !c.env.mayReject && (forall id :: !c.env.exec(id).Panicked?)
    && Unconditioned(TableOf(c.steps)) && |c.nodes| >= |c.steps|
  }

  lemma {:induction false} FewNodes(fleet: map<StepId, Place>, ids: set<StepId>) returns (used: set<NodeId>)
    requires ids <= fleet.Keys
    ensures |used| <= |ids|
    ensures forall x :: x in ids && Unfinished(fleet, x) ==> fleet[x].node in used
    decreases |ids|
  {
    used := {};
    if x :| x in ids {
      used := FewNodes(fleet, ids - {x});
      if Unfinished(fleet, x) {
        used := used + {fleet[x].node};
      }
    }
  }

  lemma FreeNode(c: Config, s: State) returns (n: NodeId)
    requires |s.fleet| < |c.nodes|
    ensures n in c.nodes
    ensures forall x :: Unfinished(s.fleet, x) ==> s.fleet[x].node != n
  {
    var used := FewNodes(s.fleet, s.fleet.Keys);
    if c.nodes <= used {
      SubsetCardinality(c.nodes, used);
    }
    n :| n in c.nodes && n !in used;
  }

  lemma RoomForHead(c: Config, s: State)
    requires ConfigOk(c) && StateOk(c, s) && s.sched.ready != []
    ensures |s.fleet| < |c.steps|
  {
    hide Sound, Counted, Ordered, Guarded, Placed, Honest, PcOk, LossesExplained;
    var id := s.sched.ready[0];
    var taken := s.sched.inFlight + {id};
    forall x | x in taken
      ensures x in TableOf(c.steps)
    {
      assert Entered(s.sched, {}, x);
    }
    StepCount(c.steps);
    SubsetCardinality(taken, TableOf(c.steps).Keys);
    assert |s.fleet| == |s.fleet.Keys|;
  }

  lemma HeadMoves(c: Config, s: State, w: set<StepId>) returns (s': State)
    requires ConfigOk(c) && StateOk(c, s) && Calm(c) && OnlyOf(c, s, w) && s.pc == Submitting && s.sched.ready != []
    ensures CoordinatorStep(c, s, s') && OnlyOf(c, s', w)
  {
    hide ConfigOk, StateOk;
    RoomForHead(c, s);
    var n := FreeNode(c, s);
    s' := HeadCanMove(c, s, n);
    assert !SkipCondition(c, s, s') && !Refuse(c, s, s');
    hide Unlocks, DependencyFailed, ConditionAllows;
  }

  lemma WorkerMoves(c: Config, s: State, w: set<StepId>) returns (s': State)
    requires BooksOk(c, s) && Calm(c) && OnlyOf(c, s, w) && s.pc == Waiting && s.channel == [] && !DoneWith(s, w)
    ensures WorkerStep(c, s, s') && OnlyOf(c, s', w)
  {
    var id :| id in s.fleet && id in w;
    assert id !in ResolvedIds(s.channel);
    assert s.fleet[id].Queued? || s.fleet[id].Executing?;
    hide BooksOk;
    if s.fleet[id].Queued? {
      s' := s.(fleet := s.fleet[id := Executing(s.fleet[id].node)]);
      TakenStays(c, s, id, s', w);
    } else {
      s' := s.(fleet := s.fleet[id := Reported], channel := s.channel + [ExecutedResult(id, c.env.exec(id))]);
      FinishedStays(c, s, id, s', w);
    }
  }

  lemma TakenStays(c: Config, s: State, id: StepId, s': State, w: set<StepId>)
    requires OnlyOf(c, s, w) && id in s.fleet && id in w && s.fleet[id].Queued? && s.fleet[id].node in c.nodes
    requires s' == s.(fleet := s.fleet[id := Executing(s.fleet[id].node)])
    ensures WorkerStep(c, s, s') && OnlyOf(c, s', w)
  {
    assert Unfinished(s.fleet, id);
    assert Dequeue(c, s, id, s') by {
      forall x | x in s.fleet
        ensures s.fleet[x] != Executing(s.fleet[id].node)
      {
        assert s.fleet[x].Executing? ==> Unfinished(s.fleet, x);
      }
    }
    assert forall x :: Unfinished(s'.fleet, x) ==> Unfinished(s.fleet, x) && s'.fleet[x].node == s.fleet[x].node;
  }

  lemma FinishedStays(c: Config, s: State, id: StepId, s': State, w: set<StepId>)
    requires OnlyOf(c, s, w) && Calm(c) && id in s.fleet && id in w && s.fleet[id].Executing?
    requires s' == s.(fleet := s.fleet[id := Reported], channel := s.channel + [ExecutedResult(id, c.env.exec(id))])
    ensures WorkerStep(c, s, s') && OnlyOf(c, s', w)
  {
    assert Finish(c, s, id, s');
    assert forall x :: Unfinished(s'.fleet, x) ==> Unfinished(s.fleet, x) && s'.fleet[x].node == s.fleet[x].node;
  }

  lemma ReportMoves(c: Config, s: State, w: set<StepId>) returns (s': State)
    requires ConfigOk(c) && BooksOk(c, s) && OnlyOf(c, s, w) && s.pc == Waiting && s.channel != []
    ensures Receive(c, s, s') && OnlyOf(c, s', w)
  {
    assert s.channel[0].stepId in ResolvedIds(s.channel);
    s' := ReportCanBeTaken(c, s);
    hide Unlocks;
  }

  /** The coordinator acts, or a worker takes or finishes a step of `w`. */
  lemma MoveOnly(c: Config, s: State, w: set<StepId>) returns (s': State)
    requires ConfigOk(c) && StateOk(c, s) && Calm(c) && OnlyOf(c, s, w) && !s.pc.Exited? && !DoneWith(s, w)
    ensures Next(c, s, s') && OnlyOf(c, s', w)
  {
    hide ConfigOk, Good, BooksOk, Calm;
    match s.pc {
      case Submitting =>
        if s.sched.ready == [] {
          s' := s.(pc := if |s.sched.results| >= |c.steps| || s.counter == 0 then Exited(Drained) else Waiting);
          assert Check(c, s, s');
        } else {
          s' := HeadMoves(c, s, w);
        }
      case Rebalancing =>
        s' := s.(pc := Submitting);
        NothingMoves(c, s, s');
      case Waiting =>
        if s.channel != [] {
          s' := ReportMoves(c, s, w);
        } else {
          s' := WorkerMoves(c, s, w);
        }
    }
  }

  lemma {:induction false} RunOnly(c: Config, run: seq<State>, w: set<StepId>) returns (run': seq<State>)
    requires ConfigOk(c) && Calm(c) && IsRun(c, run) && OnlyOf(c, run[|run| - 1], w)
    ensures IsRun(c, run') && OnlyOf(c, run'[|run'| - 1], w)
    ensures run'[|run'| - 1].pc.Exited? || DoneWith(run'[|run'| - 1], w)
    decreases 6 * |c.steps| + |c.nodes| + 3 - |run|
  {
    hide ConfigOk, StateOk, Next, Init, OnlyOf, DoneWith, Calm;
    var s := run[|run| - 1];
    if s.pc.Exited? || DoneWith(s, w) {
      run' := run;
    } else {
      RunOk(c, run, |run| - 1);
      var s' := MoveOnly(c, s, w);
      RunsAreBounded(c, run + [s'], |run|);
      run' := RunOnly(c, run + [s'], w);
    }
  }

  /** What the results of a run that only worked on `w` are. */
  ghost predicate RecordOf(c: Config, results: seq<StepResult>, w: set<StepId>) {
    && Explained(TableOf(c.steps), c.env, results)
    && forall r :: r in results && r.stepId !in w ==> r == SkippedResult(r.stepId, "dependency failed")
  }

  /** The step is on record, or was left in flight since it is not of `w`. */
  ghost predicate Decided(c: Config, results: seq<StepResult>, w: set<StepId>, u: StepId) {
    u in ResolvedIds(results) || (u !in w && Launched(TableOf(c.steps), c.env, results, u))
  }

  /** Starting afresh and working on `w` alone resolves every dependency-closed part of `w`, and decides each
      step this triggers. */
  lemma WorkedOff(c: Config, w: set<StepId>, n: set<StepId>) returns (run: seq<State>)
    requires ConfigOk(c) && Calm(c) && Validated(c.steps)
    requires n <= w <= TableOf(c.steps).Keys && DependencyClosed(TableOf(c.steps), n)
    ensures run != [] && IsRun(c, run)
    ensures var results := run[|run| - 1].sched.results;
      && RecordOf(c, results, w) && NoDuplicates(ResultIds(results)) && n <= ResolvedIds(results)
      && forall u :: u in TableOf(c.steps) && Triggered(TableOf(c.steps)[u], ResolvedIds(results)) ==>
           Decided(c, results, w, u)
  {
    hide ConfigOk, Calm, Validated, Next;
    var s := InitExists(c);
    run := [s];
    assert IsRun(c, run) && OnlyOf(c, s, w);
    run := RunOnly(c, run, w);
    RunIsNonEmpty(c, run);
    RunOk(c, run, |run| - 1);
    s := run[|run| - 1];
    KeepsRecord(c, s, w);
    hide IsRun, OnlyOf, StateOk, RecordOf;
    if s.pc.Exited? {
      AllResolved(c, run, w);
    } else {
      PartResolved(c, s, w, n);
    }
  }

  lemma KeepsRecord(c: Config, s: State, w: set<StepId>)
    requires StateOk(c, s) && OnlyOf(c, s, w)
    ensures RecordOf(c, s.sched.results, w) && NoDuplicates(ResultIds(s.sched.results))
  {
  }

  lemma AllResolved(c: Config, run: seq<State>, w: set<StepId>)
    requires ConfigOk(c) && Calm(c) && Validated(c.steps) && IsRun(c, run)
    requires run[|run| - 1].pc.Exited? && OnlyOf(c, run[|run| - 1], w)
    ensures ResolvedIds(run[|run| - 1].sched.results) == TableOf(c.steps).Keys
  {
    hide ConfigOk, Validated, Next;
    UndisturbedRunDrains(c, run);
    LoopIsCompleteIffDrained(c, run);
  }

  lemma PartResolved(c: Config, s: State, w: set<StepId>, n: set<StepId>)
    requires StateOk(c, s) && DoneWith(s, w) && Validated(c.steps)
    requires n <= w <= TableOf(c.steps).Keys && DependencyClosed(TableOf(c.steps), n)
    ensures n <= ResolvedIds(s.sched.results)
    ensures forall u :: u in TableOf(c.steps) && Triggered(TableOf(c.steps)[u], ResolvedIds(s.sched.results)) ==>
      Decided(c, s.sched.results, w, u)
  {
    var m := TableOf(c.steps);
    ClosedIsResolved(m, s.sched, n);
    forall u | u in m && Triggered(m[u], ResolvedIds(s.sched.results))
      ensures Decided(c, s.sched.results, w, u)
    {
      assert Entered(s.sched, {}, u);
    }
  }

  // ---------- The two orders of arrival ----------

  /** A chain of dependencies through All steps to a step whose handler fails. */
  ghost predicate FailsBy(m: StepTable, exec: StepId -> Outcome, p: seq<StepId>) {
    && p != [] && exec(p[|p| - 1]).Errored?
    && forall i :: 0 <= i < |p| - 1 ==> p[i] in m && m[p[i]].triggerMode == All && p[i + 1] in m[p[i]].dependsOn
  }

  /** An Any step that depends on `bad`, which fails or waits for a failure, and on `good`, which like all it
      needs succeeds; and `bad` waits for no other dependency of the step. */
  ghost predicate Disagree(m: StepTable, exec: StepId -> Outcome, user: StepId, bad: StepId, good: StepId) {
    && user in m && m[user].triggerMode == Any && bad in m[user].dependsOn && good in m[user].dependsOn
    && (exists p :: FailsBy(m, exec, p) && p[0] == bad)
    && (forall x :: x in Needs(m, good) ==> exec(x).Succeeded?)
    && (forall d :: d in m[user].dependsOn && d in Needs(m, bad) ==> d == bad)
  }

  /** Until the user reports, nothing fails. */
  lemma {:induction false} NothingFailsBefore(c: Config, results: seq<StepResult>, w: set<StepId>, user: StepId, i: nat)
    requires Calm(c) && RecordOf(c, results, w) && i <= |results|
    requires forall x :: x in w && x != user ==> c.env.exec(x).Succeeded?
    requires forall j :: 0 <= j < i ==> results[j].stepId != user
    ensures forall j :: 0 <= j < i ==> !Blocks(results[j])
  {
    if i > 0 {
      NothingFailsBefore(c, results, w, user, i - 1);
      var r := results[i - 1];
      assert Justified(TableOf(c.steps), c.env, results[..i - 1], r);
      assert !DependencyBlocked(TableOf(c.steps)[r.stepId], results[..i - 1]);
    }
  }

  lemma UserIsExecuted(c: Config, results: seq<StepResult>, user: StepId, bad: StepId, good: StepId)
    requires Calm(c) && Disagree(TableOf(c.steps), c.env.exec, user, bad, good)
    requires RecordOf(c, results, Needs(TableOf(c.steps), good) + {user})
    requires NoDuplicates(ResultIds(results)) && user in ResolvedIds(results)
    ensures ExecutedResult(user, c.env.exec(user)) in results
  {
    var i :| 0 <= i < |results| && results[i].stepId == user;
    forall j | 0 <= j < i
      ensures results[j].stepId != user
    {
      assert ResultIds(results)[j] != ResultIds(results)[i];
    }
    hide Needs, FailsBy;
    NothingFailsBefore(c, results, Needs(TableOf(c.steps), good) + {user}, user, i);
    assert Justified(TableOf(c.steps), c.env, results[..i], results[i]);
  }

  lemma SuccessFirst(c: Config, user: StepId, bad: StepId, good: StepId) returns (run: seq<State>)
    requires ConfigOk(c) && Calm(c) && Validated(c.steps) && Disagree(TableOf(c.steps), c.env.exec, user, bad, good)
    ensures run != [] && IsRun(c, run) && ExecutedResult(user, c.env.exec(user)) in run[|run| - 1].sched.results
  {
    hide ConfigOk, Calm, IsRun, FailsBy, RecordOf, Launched, NoDuplicates;
    var m := TableOf(c.steps);
    var n := Needs(m, good);
    NeedsIsClosed(m, good);
    DependencyIsNeeded(c, user, good);
    hide Needs, Validated;
    NeedsAreSteps(m, good);
    run := WorkedOff(c, n + {user}, n);
    TriggeredMeaning(m[user], ResolvedIds(run[|run| - 1].sched.results));
    UserIsExecuted(c, run[|run| - 1].sched.results, user, bad, good);
  }

  lemma NeedsAreSteps(m: StepTable, d: StepId)
    ensures Needs(m, d) <= m.Keys
  {
  }

  lemma DependencyIsNeeded(c: Config, user: StepId, d: StepId)
    requires Validated(c.steps) && user in TableOf(c.steps) && d in TableOf(c.steps)[user].dependsOn
    ensures d in Needs(TableOf(c.steps), d)
  {
  }

  lemma UnstartedBlocks(c: Config, results: seq<StepResult>, i: nat)
    requires Calm(c) && Explained(TableOf(c.steps), c.env, results) && i < |results|
    requires !Launched(TableOf(c.steps), c.env, results[..i], results[i].stepId)
    ensures Blocks(results[i])
  {
    assert Justified(TableOf(c.steps), c.env, results[..i], results[i]);
  }

  lemma StartedMeans(m: StepTable, env: Env, results: seq<StepResult>, i: nat, id: StepId, d: StepId) returns (j: nat)
    requires i <= |results| && Launched(m, env, results[..i], id) && m[id].triggerMode == All && d in m[id].dependsOn
    ensures j < i && results[j].stepId == d && !Blocks(results[j])
  {
    var k :| 0 <= k <= i && MayLaunch(m, env, results[..i][..k], id);
    var before := results[..i][..k];
    TriggeredMeaning(m[id], ResolvedIds(before));
    j :| 0 <= j < k && before[j].stepId == d;
    assert !Blocked(before, d);
  }

  /** A step that fails or waits for a failure blocks what depends on it. */
  lemma {:induction false} BadBlocks(c: Config, results: seq<StepResult>, p: seq<StepId>, i: nat)
    requires Calm(c) && Explained(TableOf(c.steps), c.env, results)
    requires FailsBy(TableOf(c.steps), c.env.exec, p) && i < |results| && results[i].stepId == p[0]
    ensures Blocks(results[i])
    decreases |p|
  {
    if !Launched(TableOf(c.steps), c.env, results[..i], p[0]) {
      UnstartedBlocks(c, results, i);
    } else if |p| > 1 {
      hide Calm, Explained, Launched;
      var j := StartedMeans(TableOf(c.steps), c.env, results, i, p[0], p[1]);
      BadBlocks(c, results, p[1..], j);
    } else {
      hide Calm, Launched;
      FailureIsFailed(c, results, i);
    }
  }

  lemma FailureIsFailed(c: Config, results: seq<StepResult>, i: nat)
    requires Calm(c) && Explained(TableOf(c.steps), c.env, results) && i < |results|
    requires c.env.exec(results[i].stepId).Errored?
    ensures Blocks(results[i])
  {
    hide Launched;
    assert Justified(TableOf(c.steps), c.env, results[..i], results[i]);
  }

  /** With only the failing dependency worked off, the user is never started. */
  lemma FailureBlocks(c: Config, results: seq<StepResult>, user: StepId, bad: StepId, good: StepId, k: nat)
    requires Calm(c) && Disagree(TableOf(c.steps), c.env.exec, user, bad, good) && k <= |results|
    requires RecordOf(c, results, Needs(TableOf(c.steps), bad))
    requires Triggered(TableOf(c.steps)[user], ResolvedIds(results[..k]))
    ensures DependencyBlocked(TableOf(c.steps)[user], results[..k])
  {
    var m := TableOf(c.steps);
    TriggeredMeaning(m[user], ResolvedIds(results[..k]));
    var d :| d in m[user].dependsOn && d in ResolvedIds(results[..k]);
    var i :| 0 <= i < k && results[i].stepId == d;
    assert results[i] in results[..k];
    hide Needs, Explained;
    if d == bad {
      var p :| FailsBy(m, c.env.exec, p) && p[0] == bad;
      BadBlocks(c, results, p, i);
    }
    assert Blocks(results[i]);
  }

  lemma RecordIsExplained(c: Config, results: seq<StepResult>, w: set<StepId>)
    requires RecordOf(c, results, w)
    ensures Explained(TableOf(c.steps), c.env, results)
  {
  }

  lemma UserIsNotStarted(c: Config, results: seq<StepResult>, user: StepId, bad: StepId, good: StepId)
    requires Calm(c) && Disagree(TableOf(c.steps), c.env.exec, user, bad, good)
    requires RecordOf(c, results, Needs(TableOf(c.steps), bad))
    ensures !Launched(TableOf(c.steps), c.env, results, user)
  {
    hide Calm, Disagree, RecordOf, Needs;
    if Launched(TableOf(c.steps), c.env, results, user) {
      var k :| 0 <= k <= |results| && MayLaunch(TableOf(c.steps), c.env, results[..k], user);
      FailureBlocks(c, results, user, bad, good, k);
    }
  }

  lemma UserIsSkipped(c: Config, results: seq<StepResult>, user: StepId)
    requires Calm(c) && Explained(TableOf(c.steps), c.env, results) && user in ResolvedIds(results)
    requires !Launched(TableOf(c.steps), c.env, results, user)
    ensures SkippedResult(user, "dependency failed") in results
  {
    var m := TableOf(c.steps);
    var i :| 0 <= i < |results| && results[i].stepId == user;
    assert Justified(m, c.env, results[..i], results[i]);
    hide Explained;
    assert results[..i] + results[i..] == results;
    if Launched(m, c.env, results[..i], user) {
      LaunchedLater(m, c.env, results[..i], results[i..], user);
    }
  }

  lemma FailureFirst(c: Config, user: StepId, bad: StepId, good: StepId) returns (run: seq<State>)
    requires ConfigOk(c) && Calm(c) && Validated(c.steps) && Disagree(TableOf(c.steps), c.env.exec, user, bad, good)
    ensures run != [] && IsRun(c, run) && SkippedResult(user, "dependency failed") in run[|run| - 1].sched.results
  {
    hide ConfigOk, Calm, IsRun, FailsBy, RecordOf, Launched, NoDuplicates;
    var m := TableOf(c.steps);
    var n := Needs(m, bad);
    NeedsIsClosed(m, bad);
    DependencyIsNeeded(c, user, bad);
    hide Needs, Validated;
    NeedsAreSteps(m, bad);
    run := WorkedOff(c, n, n);
    TriggeredMeaning(m[user], ResolvedIds(run[|run| - 1].sched.results));
    UserIsNotStarted(c, run[|run| - 1].sched.results, user, bad, good);
    RecordIsExplained(c, run[|run| - 1].sched.results, n);
    UserIsSkipped(c, run[|run| - 1].sched.results, user);
  }

  /** Two complete runs of one configuration, without cancellation, refusal or crash, that return different
      results for the step with disagreeing dependencies. */
  lemma AnyStepsDependOnArrival(c: Config, user: StepId, bad: StepId, good: StepId, reason: string)
    returns (run1: seq<State>, run2: seq<State>)
    requires ConfigOk(c) && Calm(c) && Validated(c.steps) && Disagree(TableOf(c.steps), c.env.exec, user, bad, good)
    ensures IsRun(c, run1) && run1[|run1| - 1].pc.Exited? && IsRun(c, run2) && run2[|run2| - 1].pc.Exited?
    ensures SkippedResult(user, "dependency failed") in FinalResults(c, run1[|run1| - 1], reason)
    ensures ExecutedResult(user, c.env.exec(user)) in FinalResults(c, run2[|run2| - 1], reason)
    ensures !SameResults(FinalResults(c, run1[|run1| - 1], reason), FinalResults(c, run2[|run2| - 1], reason))
  {
    hide IsRun, ConfigOk, Validated, Disagree;
    var start1 := FailureFirst(c, user, bad, good);
    run1 := FinishedRun(c, start1);
    StaysInFinal(c, start1, run1, SkippedResult(user, "dependency failed"), reason);
    var start2 := SuccessFirst(c, user, bad, good);
    run2 := FinishedRun(c, start2);
    StaysInFinal(c, start2, run2, ExecutedResult(user, c.env.exec(user)), reason);
  }

  /** Without crashes and panics every run can be carried on to its exit. */
  lemma FinishedRun(c: Config, run: seq<State>) returns (run': seq<State>)
    requires ConfigOk(c) && IsRun(c, run) && !c.mayCrash && forall id :: !c.env.exec(id).Panicked?
    ensures IsRun(c, run') && run <= run' && run'[|run'| - 1].pc.Exited?
  {
    hide IsRun, ConfigOk, Hung;
    run' := RunGoesOn(c, run);
    RunIsNonEmpty(c, run');
    if Hung(c, run'[|run'| - 1]) {
      NeverHangs(c, run');
    }
  }

  lemma StaysInFinal(c: Config, run: seq<State>, run': seq<State>, r: StepResult, reason: string)
    requires run != [] && run <= run' && IsRun(c, run') && r in run[|run| - 1].sched.results
    ensures r in FinalResults(c, run'[|run'| - 1], reason)
  {
    hide IsRun;
    ResultsGrow(c, run', |run| - 1, |run'| - 1);
    assert run'[|run| - 1] == run[|run| - 1];
  }

  /** The smallest such flow: two steps without dependencies, and a step that waits for either. */
  lemma ForkDisagrees(a: StepDef, b: StepDef, user: StepDef, exec: StepId -> Outcome)
    requires a.dependsOn == [] && b.dependsOn == [] && user.dependsOn == [a.id, b.id] && user.triggerMode == Any
    requires a.id != b.id && a.id != user.id && b.id != user.id && exec(a.id).Errored? && exec(b.id).Succeeded?
    ensures Disagree(map[a.id := a, b.id := b, user.id := user], exec, user.id, a.id, b.id)
  {
    var m := map[a.id := a, b.id := b, user.id := user];
    assert FailsBy(m, exec, [a.id]);
    NeedsNothing(m, a.id);
    NeedsNothing(m, b.id);
  }

  lemma NeedsNothing(m: StepTable, d: StepId)
    requires d in m && m[d].dependsOn == []
    ensures Needs(m, d) == {d}
  {
    forall x | x in Needs(m, d) && x != d
      ensures false
    {
      var n := ReachesFirst(GraphOf(m), d, x);
    }
  }
}
