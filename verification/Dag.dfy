/** The local DAG runner: waves of ready steps, counters and triggers (rust-old/src/engine/dag.rs). */
module DagRunner {
  import opened Wrappers
  import opened Steps
  import opened Graph
  import opened Scheduler
  import opened Causes

  /** `dependents'` has one more entry for `id` under each of `deps`, repetitions counted. */
  ghost predicate Registered(id: StepId, deps: seq<StepId>, dependents: map<StepId, seq<StepId>>,
      dependents': map<StepId, seq<StepId>>)
  {
    forall d, x :: Count(Targets(dependents', d), x) ==
      Count(Targets(dependents, d), x) + if x == id then Count(deps, d) else 0
  }

  method Register(id: StepId, deps: seq<StepId>, dependents: map<StepId, seq<StepId>>)
    returns (dependents': map<StepId, seq<StepId>>)
    ensures Registered(id, deps, dependents, dependents')
  {
    dependents' := dependents;
    assert deps[..0] == [] && forall d :: Count([], d) == 0;
    for k := 0 to |deps|
      invariant Registered(id, deps[..k], dependents, dependents')
    {
      assert deps[..k + 1] == deps[..k] + [deps[k]];
      RegisterOne(id, deps[..k], deps[k], dependents, dependents');
      dependents' := dependents'[deps[k] := Targets(dependents', deps[k]) + [id]];
    }
    assert deps[..|deps|] == deps;
  }

  lemma RegisterOne(id: StepId, deps: seq<StepId>, dep: StepId, dependents: map<StepId, seq<StepId>>,
      dependents': map<StepId, seq<StepId>>)
    requires Registered(id, deps, dependents, dependents')
    ensures Registered(id, deps + [dep], dependents, dependents'[dep := Targets(dependents', dep) + [id]])
  {
    CountSnoc(deps, dep);
    CountSnoc(Targets(dependents', dep), id);
  }

  /** The two maps built before the first wave. */
  method BuildIndex(steps: seq<StepDef>)
    returns (inDegree: map<StepId, nat>, dependents: map<StepId, seq<StepId>>)
    requires DistinctIds(steps)
    ensures inDegree.Keys == TableOf(steps).Keys
    ensures forall id :: id in inDegree ==> inDegree[id] == InitialDegree(TableOf(steps)[id])
    ensures DependentsOf(TableOf(steps), dependents)
  {
    inDegree, dependents := map[], map[];
    for i := 0 to |steps|
      invariant inDegree.Keys == TableOf(steps[..i]).Keys
      invariant forall id :: id in inDegree ==> inDegree[id] == InitialDegree(TableOf(steps[..i])[id])
      invariant DependentsOf(TableOf(steps[..i]), dependents)
    {
      var step := steps[i];
      FreshId(steps, i);
      assert steps[..i + 1][..i] == steps[..i] && steps[..i + 1][i] == step;
      inDegree := inDegree[step.id := InitialDegree(step)];
      ghost var before := dependents;
      dependents := Register(step.id, step.dependsOn, dependents);
      DependentsGrow(TableOf(steps[..i]), step, before, dependents);
    }
    assert steps[..|steps|] == steps;
  }

  lemma DependentsGrow(m: StepTable, step: StepDef, dependents: map<StepId, seq<StepId>>,
      dependents': map<StepId, seq<StepId>>)
    requires step.id !in m && DependentsOf(m, dependents)
    requires Registered(step.id, step.dependsOn, dependents, dependents')
    ensures DependentsOf(m[step.id := step], dependents')
  {
    forall d, x
      ensures x !in m ==> Count(Targets(dependents, d), x) == 0
      ensures x in Targets(dependents', d) <==> Count(Targets(dependents', d), x) > 0
    {
      CountBounds(Targets(dependents, d), x);
      CountBounds(Targets(dependents', d), x);
    }
  }

  lemma FreshId(steps: seq<StepDef>, i: nat)
    requires DistinctIds(steps) && i < |steps|
    ensures steps[i].id !in TableOf(steps[..i])
  {
    TableCoversSteps(steps[..i]);
    forall k | 0 <= k < i
      ensures steps[k].id != steps[i].id
    {
      assert Ids(steps)[k] != Ids(steps)[i];
    }
  }

  function HandleSet(handles: seq<StepId>): set<StepId> {
    set h | h in handles :: h
  }

  lemma HandleSetConcat(a: seq<StepId>, b: seq<StepId>)
    ensures HandleSet(a + b) == HandleSet(a) + HandleSet(b)
    ensures forall id :: HandleSet([id]) == {id}
  {
    forall id
      ensures HandleSet([id]) == {id}
    {
      assert id in [id];
    }
    assert forall h :: h in a + b <==> h in a || h in b;
  }

  ghost predicate SkippedInOrder(skipped: seq<StepResult>, ready: seq<StepId>) {
    KeepsOrder(ResultIds(skipped), ready) && forall r :: r in skipped ==> r.status == Skipped
  }

  /** Of the queue entries gone through so far some are skipped and some started, each in order. */
  ghost predicate TakenInOrder(skipped: seq<StepResult>, started: seq<StepId>, ready: seq<StepId>) {
    && SkippedInOrder(skipped, ready) && KeepsOrder(started, ready)
    && (forall x :: x in ResultIds(skipped) ==> x in ready) && (forall x :: x in started ==> x in ready)
  }

  lemma NothingTaken(results: seq<StepResult>)
    ensures TakenInOrder(results[|results|..], [], []) && HandleSet([]) == {} && NoDuplicates<StepId>([])
  {
  }

  lemma AllTaken(skipped: seq<StepResult>, started: seq<StepId>, ready: seq<StepId>)
    requires TakenInOrder(skipped, started, ready)
    ensures SkippedInOrder(skipped, ready) && KeepsOrder(started, ready)
  {
  }

  lemma OneMoreTaken(start: seq<StepResult>, results: seq<StepResult>, results': seq<StepResult>,
      started: seq<StepId>, started': seq<StepId>, ready: seq<StepId>, id: StepId)
    requires start <= results && TakenInOrder(results[|start|..], started, ready)
    requires || (results' == results && started' == started + [id])
             || (started' == started && exists r :: results' == results + [r] && r.stepId == id && r.status == Skipped)
    ensures start <= results' && TakenInOrder(results'[|start|..], started', ready + [id])
  {
    var skipped, skipped' := results[|start|..], results'[|start|..];
    OrderGrows(started, ready, id);
    OrderGrows(ResultIds(skipped), ready, id);
    hide KeepsOrder;
    if results' != results {
      var r :| results' == results + [r] && r.stepId == id && r.status == Skipped;
      assert skipped' == skipped + [r];
      assert ResultIds(skipped + [r]) == ResultIds(skipped) + [id];
    }
  }

  /** First half of a wave: take every id that was ready when the wave began; skip it or start it. */
  method LaunchWave(m: StepTable, dependents: map<StepId, seq<StepId>>, env: Env, s: Sched)
    returns (s': Sched, handles: seq<StepId>)
    requires TableOk(m) && DependentsOf(m, dependents)
    requires Good(m, env, s, {}) && s.inFlight == {}
    ensures Good(m, env, s', {}) && s'.inFlight == HandleSet(handles) && NoDuplicates(handles)
    ensures |s'.results| + |handles| == |s.results| + |s.ready|
    ensures ResolvedIds(s'.results) + HandleSet(handles) == ResolvedIds(s.results) + HandleSet(s.ready)
    // Both the skipped and the started are taken in queue order.
    ensures s.results <= s'.results && SkippedInOrder(s'.results[|s.results|..], s.ready) && KeepsOrder(handles, s.ready)
  {
    hide Good, DependentsOf, TableOk, KeepsOrder, TakenInOrder, SkippedInOrder, HandleSet, ResolvedIds, NoDuplicates;
    s', handles := s, [];
    NothingTaken(s.results);
    assert s.ready[..0] == [];
    var batchLen := |s.ready|;
    assert s.ready[0..] == s.ready;
    for i := 0 to batchLen
      invariant Good(m, env, s', {}) && s'.inFlight == HandleSet(handles) && NoDuplicates(handles)
      invariant s.ready[i..] <= s'.ready
      invariant |s'.results| + |handles| == |s.results| + i
      invariant ResolvedIds(s'.results) + HandleSet(handles) + HandleSet(s.ready[i..])
             == ResolvedIds(s.results) + HandleSet(s.ready)
      invariant s.results <= s'.results && TakenInOrder(s'.results[|s.results|..], handles, s.ready[..i])
    {
      assert s.ready[i..] == [s'.ready[0]] + s.ready[i + 1..] && s.ready[i + 1..] <= s'.ready[1..];
      HandleSetConcat([s'.ready[0]], s.ready[i + 1..]);
      ghost var results, started := s'.results, handles;
      s', handles := LaunchOne(m, dependents, env, s', handles);
      assert s.ready[..i + 1] == s.ready[..i] + [s.ready[i]];
      OneMoreTaken(s.results, results, s'.results, started, handles, s.ready[..i], s.ready[i]);
    }
    assert s.ready[batchLen..] == [] && s.ready[..batchLen] == s.ready;
    AllTaken(s'.results[|s.results|..], handles, s.ready);
  }

  /** The step at the head of the queue: skip it with its cause or start it. */
  method LaunchOne(m: StepTable, dependents: map<StepId, seq<StepId>>, env: Env, s: Sched, handles: seq<StepId>)
    returns (s': Sched, handles': seq<StepId>)
    requires TableOk(m) && DependentsOf(m, dependents) && s.ready != []
    requires Good(m, env, s, {}) && s.inFlight == HandleSet(handles) && NoDuplicates(handles)
    ensures Good(m, env, s', {}) && s'.inFlight == HandleSet(handles') && NoDuplicates(handles')
    ensures s.ready[1..] <= s'.ready
    ensures |s'.results| + |handles'| == |s.results| + |handles| + 1
    ensures ResolvedIds(s'.results) + HandleSet(handles') == ResolvedIds(s.results) + HandleSet(handles) + {s.ready[0]}
    ensures || (s'.results == s.results && handles' == handles + [s.ready[0]])
            || (handles' == handles && exists r :: s'.results == s.results + [r] && r.stepId == s.ready[0] && r.status == Skipped)
  {
    hide Good, DependentsOf;
    var id := s.ready[0];
    PopGood(m, env, s);
    s', handles' := Pop(s), handles;
    var step := m[id];
    if exists d :: d in step.dependsOn && d in s'.failed {
      ResolvedAppend(s.results, SkippedResult(id, "dependency failed"));
      s' := Finish(m, dependents, env, s', SkippedResult(id, "dependency failed"));
    } else if step.condition.Some? && env.verdict(step, s'.results) == DoesNotHold {
      ResolvedAppend(s.results, SkippedResult(id, "condition not met"));
      s' := Finish(m, dependents, env, s', SkippedResult(id, "condition not met"));
    } else {
      LaunchGood(m, env, s', id);
      s' := s'.(inFlight := s'.inFlight + {id});
      HandleSetConcat(handles, [id]);
      assert id !in handles;
      handles' := handles + [id];
    }
  }

  /** Record a result, mark the step failed if it blocks others, and unlock its dependents. */
  method Finish(m: StepTable, dependents: map<StepId, seq<StepId>>, ghost env: Env, s: Sched, r: StepResult)
    returns (s': Sched)
    requires TableOk(m) && DependentsOf(m, dependents) && r.stepId in m
    requires Good(m, env, s, {r.stepId}) && Justified(m, env, s.results, r)
    requires r.status != Skipped && m[r.stepId].triggerMode == All ==> !DependencyFailed(m[r.stepId], s.failed)
    ensures Good(m, env, s', {})
    ensures s'.results == s.results + [r] && s'.inFlight == s.inFlight && s.ready <= s'.ready
  {
    hide Good, Unlocks, DependentsOf, TableOk, Justified;
    var failed := if Blocks(r) then s.failed + {r.stepId} else s.failed;
    TargetsCounted(m, dependents, r.stepId);
    var inDegree, ready := UnlockDependents(r.stepId, dependents, s.inDegree, s.ready);
    ghost var newly := ready[|s.ready|..];
    assert ready == s.ready + newly;
    RecordGood(m, dependents, env, s, r, inDegree, newly);
    s' := Sched(inDegree, ready, s.inFlight, failed, s.results + [r]);
  }

  /** The handlers' outcomes, one for each started step and in the order they were started. */
  ghost predicate OutcomesInOrder(results: seq<StepResult>, handles: seq<StepId>, env: Env) {
    && |results| == |handles|
    && forall i :: 0 <= i < |handles| ==> results[i].stepId == handles[i] && RecordsOutcome(results[i], env.exec(handles[i]))
  }

  lemma HandleSetHolds(handles: seq<StepId>)
    ensures forall h :: h in HandleSet(handles) <==> h in handles
  {
  }

  lemma NoHandles()
    ensures HandleSet([]) == {}
  {
  }

  lemma NoOutcomes(results: seq<StepResult>, env: Env)
    ensures OutcomesInOrder(results[|results|..], [], env)
  {
  }

  lemma OneMoreOutcome(start: seq<StepResult>, results: seq<StepResult>, handles: seq<StepId>, i: nat, env: Env)
    requires start <= results && i < |handles| && OutcomesInOrder(results[|start|..], handles[..i], env)
    ensures var results' := results + [ExecutedResult(handles[i], env.exec(handles[i]))];
      start <= results' && OutcomesInOrder(results'[|start|..], handles[..i + 1], env)
  {
    var r := ExecutedResult(handles[i], env.exec(handles[i]));
    assert (results + [r])[|start|..] == results[|start|..] + [r] && handles[..i + 1] == handles[..i] + [handles[i]];
  }

  /** Second half of a wave: await the started tasks in order. */
  method AwaitWave(m: StepTable, dependents: map<StepId, seq<StepId>>, env: Env, s: Sched, handles: seq<StepId>)
    returns (s': Sched)
    requires TableOk(m) && DependentsOf(m, dependents)
    requires Good(m, env, s, {}) && s.inFlight == HandleSet(handles) && NoDuplicates(handles)
    ensures Good(m, env, s', {}) && s'.inFlight == {}
    ensures |s'.results| == |s.results| + |handles|
    ensures ResolvedIds(s'.results) == ResolvedIds(s.results) + HandleSet(handles)
    ensures s.results <= s'.results && OutcomesInOrder(s'.results[|s.results|..], handles, env)
  {
    hide Good, DependentsOf, TableOk, Launched, OutcomesInOrder, ResolvedIds, HandleSet;
    s' := s;
    NoOutcomes(s.results, env);
    assert handles[0..] == handles && handles[..0] == [];
    for i := 0 to |handles|
      invariant Good(m, env, s', {}) && s'.inFlight == HandleSet(handles[i..])
      invariant |s'.results| == |s.results| + i
      invariant ResolvedIds(s'.results) + HandleSet(handles[i..]) == ResolvedIds(s.results) + HandleSet(handles)
      invariant s.results <= s'.results && OutcomesInOrder(s'.results[|s.results|..], handles[..i], env)
    {
      var id := handles[i];
      assert handles[i..] == [id] + handles[i + 1..] && id !in handles[i + 1..];
      HandleSetConcat([id], handles[i + 1..]);
      HandleSetHolds(handles[i + 1..]);
      LandGood(m, env, s', id);
      ResolvedAppend(s'.results, ExecutedResult(id, env.exec(id)));
      OneMoreOutcome(s.results, s'.results, handles, i, env);
      s' := Finish(m, dependents, env, s'.(inFlight := s'.inFlight - {id}), ExecutedResult(id, env.exec(id)));
    }
    assert handles[|handles|..] == [] && handles[..|handles|] == handles;
    NoHandles();
  }

  function StartQueue(steps: seq<StepDef>): seq<StepId> {
    if steps == [] then []
    else
      var last := steps[|steps| - 1];
      StartQueue(steps[..|steps| - 1]) + if last.dependsOn == [] then [last.id] else []
  }

  lemma {:induction false} StartQueueIs(steps: seq<StepDef>)
    requires DistinctIds(steps)
    ensures NoDuplicates(StartQueue(steps))
    ensures forall id :: id in StartQueue(steps) <==> id in TableOf(steps) && TableOf(steps)[id].dependsOn == []
    ensures KeepsOrder(StartQueue(steps), Ids(steps))
  {
    if steps != [] {
      var n := |steps| - 1;
      assert Ids(steps) == Ids(steps[..n]) + [steps[n].id];
      assert forall k :: 0 <= k < n ==> Ids(steps[..n])[k] == Ids(steps)[k];
      StartQueueIs(steps[..n]);
      FreshId(steps, n);
      TableIds(steps[..n]);
      OrderGrows(StartQueue(steps[..n]), Ids(steps[..n]), steps[n].id);
      hide KeepsOrder;
      assert StartQueue(steps[..n]) + [] == StartQueue(steps[..n]);
    }
  }

  lemma TableIds(steps: seq<StepDef>)
    ensures forall id :: id in TableOf(steps) ==> id in Ids(steps)
  {
    TableCoversSteps(steps);
    forall id | id in TableOf(steps)
      ensures id in Ids(steps)
    {
      var s :| s in steps && s.id == id;
      var k :| 0 <= k < |steps| && steps[k] == s;
      assert Ids(steps)[k] == id;
    }
  }

  function DrainedResults(ready: seq<StepId>, reason: string): seq<StepResult> {
    seq(|ready|, i requires 0 <= i < |ready| => SkippedResult(ready[i], reason))
  }

  lemma DrainIds(m: StepTable, s: Sched, reason: string)
    requires Exclusive(m, s, {}) && s.inFlight == {}
    ensures NoDuplicates(ResultIds(s.results + DrainedResults(s.ready, reason)))
  {
    var ids := ResultIds(s.results + DrainedResults(s.ready, reason));
    assert ids == ResultIds(s.results) + s.ready;
    forall x | x in s.ready
      ensures x !in ResultIds(s.results)
    {
      assert x !in ResolvedIds(s.results);
      forall i | 0 <= i < |s.results|
        ensures ResultIds(s.results)[i] != x
      {
        assert s.results[i] in s.results;
      }
    }
    NoDuplicatesConcat(ResultIds(s.results), s.ready);
  }

  lemma DrainResolves(results: seq<StepResult>, ready: seq<StepId>, reason: string)
    ensures forall id :: id in ResolvedIds(results + DrainedResults(ready, reason)) <==>
      id in ResolvedIds(results) || id in ready
  {
    var all := results + DrainedResults(ready, reason);
    forall id
      ensures id in ResolvedIds(all) <==> id in ResolvedIds(results) || id in ready
    {
      if id in ready {
        var k :| 0 <= k < |ready| && ready[k] == id;
        assert all[|results| + k].stepId == id;
      }
      if r :| r in results && r.stepId == id {
        assert r in all;
      }
      if r :| r in all && r !in results && r.stepId == id {
        var k :| 0 <= k < |all| && all[k] == r;
        assert ready[k - |results|] == id;
      }
    }
  }

  lemma DrainAppends(m: StepTable, s: Sched, reason: string)
    requires Exclusive(m, s, {}) && s.inFlight == {}
    ensures var all := s.results + DrainedResults(s.ready, reason);
      NoDuplicates(ResultIds(all)) && ResolvedIds(all) <= m.Keys
  {
    DrainIds(m, s, reason);
    DrainResolves(s.results, s.ready, reason);
    assert forall id :: id in ResolvedIds(s.results) || id in s.ready <==> Entered(s, {}, id);
  }

  // ---------- What a wave can reach ----------

  /** The steps resolved after `k` full waves: each wave resolves whatever has been triggered. */
  function Fired(m: StepTable, k: nat): set<StepId> {
    if k == 0 then {} else set x | x in m && Triggered(m[x], Fired(m, k - 1))
  }

  lemma {:induction false} CountInMonotone(deps: seq<StepId>, a: set<StepId>, b: set<StepId>)
    requires a <= b
    ensures CountIn(deps, a) <= CountIn(deps, b)
  {
    if deps != [] {
      CountInMonotone(deps[..|deps| - 1], a, b);
    }
  }

  lemma {:induction false} FiredGrows(m: StepTable, k: nat)
    ensures Fired(m, k) <= Fired(m, k + 1)
  {
    if k > 0 {
      FiredGrows(m, k - 1);
      forall x | x in m
        ensures CountIn(m[x].dependsOn, Fired(m, k - 1)) <= CountIn(m[x].dependsOn, Fired(m, k))
      {
        CountInMonotone(m[x].dependsOn, Fired(m, k - 1), Fired(m, k));
      }
    }
  }

  /** Once a wave reaches nothing new, no later wave does. */
  lemma {:induction false} FiredStays(m: StepTable, k: nat, l: nat)
    requires k <= l && Fired(m, k + 1) == Fired(m, k)
    ensures Fired(m, l) == Fired(m, k) && Fired(m, l + 1) == Fired(m, k)
  {
    if k < l {
      FiredStays(m, k, l - 1);
    }
  }

  /** When every step waits for all of its dependencies, k waves resolve exactly the steps from which
      no dependency path visits more than k steps. */
  lemma {:induction false} FiredIsDepth(m: StepTable, k: nat, id: StepId)
    requires ClosedTable(m) && id in m && forall x :: x in m ==> m[x].triggerMode == All
    ensures id in Fired(m, k) <==> k > 0 && forall p :: IsPath(GraphOf(m), p) && p[0] == id ==> |p| <= k
  {
    var g := GraphOf(m);
    if k > 0 {
      TriggeredMeaning(m[id], Fired(m, k - 1));
      forall d | d in m[id].dependsOn
        ensures d in Fired(m, k - 1) <==> k - 1 > 0 && forall p :: IsPath(g, p) && p[0] == d ==> |p| <= k - 1
      {
        FiredIsDepth(m, k - 1, d);
      }
      if id in Fired(m, k) {
        forall p | IsPath(g, p) && p[0] == id
          ensures |p| <= k
        {
          PathTail(g, p);
        }
      } else {
        var d :| d in m[id].dependsOn && d !in Fired(m, k - 1);
        if k - 1 == 0 {
          assert IsPath(g, [id, d]);
        } else {
          var p :| IsPath(g, p) && p[0] == d && |p| > k - 1;
          PathCons(g, id, p);
          assert ([id] + p)[0] == id;
        }
      }
    }
  }

  lemma PathTail(g: Graph, p: seq<Node>)
    requires IsPath(g, p)
    ensures Edge(g, p[0], p[1]) && (|p| > 2 ==> IsPath(g, p[1..]))
  {
    assert Edge(g, p[0], p[0 + 1]);
  }

  lemma PathCons(g: Graph, x: Node, p: seq<Node>)
    requires IsPath(g, p) && Edge(g, x, p[0])
    ensures IsPath(g, [x] + p)
  {
  }

  /** What was ready at the start of a wave completes what the next wave resolves. */
  lemma WaveFires(m: StepTable, s: Sched, k: nat)
    requires Exclusive(m, s, {}) && Counted(m, s, {}) && s.inFlight == {} && ResolvedIds(s.results) == Fired(m, k)
    ensures ResolvedIds(s.results) + HandleSet(s.ready) == Fired(m, k + 1)
  {
    forall x
      ensures x in ResolvedIds(s.results) + HandleSet(s.ready) <==> x in Fired(m, k + 1)
    {
      assert Entered(s, {}, x) <==> x in ResolvedIds(s.results) || x in s.ready;
    }
  }

  // ---------- Stopped runs ----------

  predicate AllSkipped(results: seq<StepResult>, reason: string) {
    forall r :: r in results ==> r == SkippedResult(r.stepId, reason)
  }

  /** Wave `w` is the first at which the run is told to stop. */
  ghost predicate FirstStop(stop: nat -> Option<string>, w: nat) {
    stop(w).Some? && forall v: nat :: v < w ==> stop(v) == None
  }

  /** What a run that is first told to stop at wave `w` records: exactly the steps fired by w + 1 waves.
      Those of the last wave are not executed but skipped, with the stop's reason. */
  ghost predicate StopsAt(m: StepTable, stop: nat -> Option<string>, w: nat, results: seq<StepResult>, executed: nat)
    requires executed <= |results|
  {
    && ResolvedIds(results[..executed]) == Fired(m, w)
    && ResolvedIds(results) == Fired(m, w + 1)
    && stop(w).Some? && AllSkipped(results[executed..], stop(w).value)
  }

  /** A full wave, the k-th from zero. */
  method RunWave(m: StepTable, dependents: map<StepId, seq<StepId>>, env: Env, s: Sched, ghost k: nat)
    returns (s': Sched)
    requires TableOk(m) && DependentsOf(m, dependents)
    requires Good(m, env, s, {}) && s.inFlight == {} && ResolvedIds(s.results) == Fired(m, k)
    ensures Good(m, env, s', {}) && s'.inFlight == {} && ResolvedIds(s'.results) == Fired(m, k + 1)
    ensures |s'.results| == |s.results| + |s.ready| <= |m|
    ensures InWaveOrder(s.results, s'.results, s.ready, env)
  {
    hide Good, DependentsOf, TableOk, Fired, ResolvedIds, SkippedInOrder, OutcomesInOrder, KeepsOrder;
    NextWave(m, env, s, k);
    var handles;
    s', handles := LaunchWave(m, dependents, env, s);
    ghost var n := |s'.results|;
    ghost var skipped := s'.results[|s.results|..];
    s' := AwaitWave(m, dependents, env, s', handles);
    ResultsFit(m, env, s');
    assert s'.results[|s.results|..n] == skipped;
    assert WaveSplit(s.results, s'.results, s.ready, env, n, handles);
  }

  /** A wave adds first the results of the steps it skips, then those of the steps it starts, each in the
      order the steps were queued. */
  ghost predicate InWaveOrder(before: seq<StepResult>, after: seq<StepResult>, ready: seq<StepId>, env: Env) {
    exists n, handles :: WaveSplit(before, after, ready, env, n, handles)
  }

  ghost predicate WaveSplit(before: seq<StepResult>, after: seq<StepResult>, ready: seq<StepId>, env: Env,
      n: nat, handles: seq<StepId>)
  {
    && |before| <= n <= |after| && before <= after
    && SkippedInOrder(after[|before|..n], ready)
    && OutcomesInOrder(after[n..], handles, env) && KeepsOrder(handles, ready)
  }

  /** The state before the first wave. */
  method Prepare(steps: seq<StepDef>, ghost env: Env) returns (s: Sched, dependents: map<StepId, seq<StepId>>)
    requires DistinctIds(steps) && TableOk(TableOf(steps))
    ensures DependentsOf(TableOf(steps), dependents)
    ensures Good(TableOf(steps), env, s, {}) && s.inFlight == {} && s.results == []
    ensures ResolvedIds(s.results) == Fired(TableOf(steps), 0)
    ensures KeepsOrder(s.ready, Ids(steps))
  {
    hide Good, DependentsOf, KeepsOrder;
    TableCoversSteps(steps);
    var inDegree;
    inDegree, dependents := BuildIndex(steps);
    StartQueueIs(steps);
    StartGood(TableOf(steps), env, inDegree, StartQueue(steps));
    s := Sched(inDegree, StartQueue(steps), {}, {}, []);
    NothingFired(TableOf(steps));
  }

  /** What every run promises of its results, the first `executed` of which come from full waves. */
  ghost predicate Accurate(m: StepTable, env: Env, stop: nat -> Option<string>, results: seq<StepResult>, executed: nat)
    requires executed <= |results|
  {
    // At most one result per step.
    && NoDuplicates(ResultIds(results)) && ResolvedIds(results) <= m.Keys
    // Every result of a full wave has its cause on record before it, in trigger order.
    && Explained(m, env, results[..executed]) && Ordered(m, results[..executed])
    // A stopped run executes the waves before the stop and skips those ready at it, no others.
    && (forall w: nat :: FirstStop(stop, w) ==> StopsAt(m, stop, w, results, executed))
    // A run that is not stopped executes every step that waves can reach, in a validated flow each step.
    && ((forall w: nat :: stop(w) == None) ==>
          && executed == |results| && ResolvedIds(results) == Fired(m, |m|)
          && (!HasCycle(GraphOf(m)) && ClosedTable(m) ==> ExactlyOnce(m, results)))
  }

  /** A whole run. `stop` says, wave by wave, whether cancellation or the timeout is seen and why. */
  method RunDag(steps: seq<StepDef>, env: Env, stop: nat -> Option<string>)
    returns (results: seq<StepResult>, ghost executed: nat)
    requires DistinctIds(steps) && TableOk(TableOf(steps))
    ensures executed <= |results| && Accurate(TableOf(steps), env, stop, results, executed)
    // Every executed result has the cause it names; failures spread, and only failures do.
    ensures Traced(TableOf(steps), env, results[..executed])
    ensures (forall r :: r in results[..executed] ==> r.status != Failed) ==>
      forall r :: r in results[..executed] && r.status == Skipped ==> r.error != Some("dependency failed")
    // Which steps are on record depends on the flow and the first stop alone.
    ensures forall w: nat :: FirstStop(stop, w) ==> ResolvedIds(results) == Fired(TableOf(steps), w + 1)
    ensures (forall w: nat :: stop(w) == None) ==> ResolvedIds(results) == Fired(TableOf(steps), |TableOf(steps)|)
  {
    hide Good, Fired, FirstStop, Accurate, DrainedResults, DependentsOf, TableOk, DistinctIds, Traced;
    var m := TableOf(steps);
    var s, dependents := Prepare(steps, env);
    var wave := 0;
    while s.ready != []
      invariant Good(m, env, s, {}) && s.inFlight == {}
      invariant forall v: nat :: v < wave ==> stop(v) == None
      invariant wave <= |s.results| && ResolvedIds(s.results) == Fired(m, wave)
      decreases |m| - |s.results|
    {
      if stop(wave).Some? {
        results, executed := s.results + DrainedResults(s.ready, stop(wave).value), |s.results|;
        StoppedRun(m, env, stop, wave, s);
        AccurateResolves(m, env, stop, results, executed);
        AccurateIsTraced(m, env, stop, results, executed);
        return;
      }
      s := RunWave(m, dependents, env, s, wave);
      wave := wave + 1;
    }
    results, executed := s.results, |s.results|;
    DrainedRun(m, env, stop, wave, s);
    AccurateResolves(m, env, stop, results, executed);
    AccurateIsTraced(m, env, stop, results, executed);
  }

  lemma AccurateResolves(m: StepTable, env: Env, stop: nat -> Option<string>, results: seq<StepResult>, executed: nat)
    requires executed <= |results| && Accurate(m, env, stop, results, executed)
    ensures forall w: nat :: FirstStop(stop, w) ==> ResolvedIds(results) == Fired(m, w + 1)
    ensures (forall w: nat :: stop(w) == None) ==> ResolvedIds(results) == Fired(m, |m|)
  {
  }

  lemma AccurateIsTraced(m: StepTable, env: Env, stop: nat -> Option<string>, results: seq<StepResult>, executed: nat)
    requires executed <= |results| && Accurate(m, env, stop, results, executed)
    ensures Traced(m, env, results[..executed])
    ensures (forall r :: r in results[..executed] ==> r.status != Failed) ==>
      forall r :: r in results[..executed] && r.status == Skipped ==> r.error != Some("dependency failed")
  {
    hide Explained, Ordered, Fired, StopsAt, HasCycle, ClosedTable, AllCaused, FailuresSpread, SkipsComeFromFailures;
    PrefixIds(results, executed);
    RecordIsTraced(m, env, results[..executed]);
    if forall r :: r in results[..executed] ==> r.status != Failed {
      NoFailureNoSkip(m, results[..executed]);
    }
  }

  lemma PrefixIds(results: seq<StepResult>, n: nat)
    requires n <= |results| && NoDuplicates(ResultIds(results))
    ensures NoDuplicates(ResultIds(results[..n]))
  {
    assert ResultIds(results[..n]) == ResultIds(results)[..n];
  }

  lemma StoppedRun(m: StepTable, env: Env, stop: nat -> Option<string>, w: nat, s: Sched)
    requires stop(w).Some? && (forall v: nat :: v < w ==> stop(v) == None)
    requires Good(m, env, s, {}) && s.inFlight == {} && ResolvedIds(s.results) == Fired(m, w)
    ensures var results := s.results + DrainedResults(s.ready, stop(w).value);
      |s.results| <= |results| && Accurate(m, env, stop, results, |s.results|)
  {
    var results := s.results + DrainedResults(s.ready, stop(w).value);
    hide Good, Fired, FirstStop, StopsAt, DrainedResults, Explained, Ordered, NoDuplicates, ResolvedIds;
    NextWave(m, env, s, w);
    FinishedRun(m, env, s, stop(w).value);
    Stopped(m, stop, w, s, results);
  }

  lemma DrainedRun(m: StepTable, env: Env, stop: nat -> Option<string>, k: nat, s: Sched)
    requires s.ready == [] && (forall v: nat :: v < k ==> stop(v) == None) && k <= |s.results|
    requires Good(m, env, s, {}) && s.inFlight == {} && ResolvedIds(s.results) == Fired(m, k)
    ensures Accurate(m, env, stop, s.results, |s.results|)
  {
    hide Good, Fired, FirstStop, StopsAt, DrainedResults, Explained, Ordered, NoDuplicates, ResolvedIds;
    NextWave(m, env, s, k);
    ResultsFit(m, env, s);
    FinishedRun(m, env, s, "");
    Drained(m, stop, k, s.results);
  }

  lemma NothingFired(m: StepTable)
    ensures ResolvedIds([]) == Fired(m, 0)
  {
  }

  lemma NextWave(m: StepTable, env: Env, s: Sched, k: nat)
    requires Good(m, env, s, {}) && s.inFlight == {} && ResolvedIds(s.results) == Fired(m, k)
    ensures ResolvedIds(s.results) + HandleSet(s.ready) == Fired(m, k + 1)
  {
    hide Sound, Ordered, Guarded;
    WaveFires(m, s, k);
  }

  /** A run told to stop at wave `w` is complete for that wave. */
  lemma Stopped(m: StepTable, stop: nat -> Option<string>, w: nat, s: Sched, results: seq<StepResult>)
    requires stop(w).Some? && (forall v: nat :: v < w ==> stop(v) == None)
    requires results == s.results + DrainedResults(s.ready, stop(w).value)
    requires ResolvedIds(s.results) == Fired(m, w) && ResolvedIds(s.results) + HandleSet(s.ready) == Fired(m, w + 1)
    ensures |s.results| <= |results| && results[..|s.results|] == s.results
    ensures forall u: nat :: FirstStop(stop, u) ==> StopsAt(m, stop, u, results, |s.results|)
    ensures !forall u: nat :: stop(u) == None
  {
    assert results[|s.results|..] == DrainedResults(s.ready, stop(w).value);
    DrainResolves(s.results, s.ready, stop(w).value);
  }

  /** A run that ends by itself at wave `k` has nothing left for a later stop to skip. */
  lemma Drained(m: StepTable, stop: nat -> Option<string>, k: nat, results: seq<StepResult>)
    requires (forall v: nat :: v < k ==> stop(v) == None) && ResolvedIds(results) == Fired(m, k) && k <= |m|
    requires ResolvedIds(results) + HandleSet([]) == Fired(m, k + 1)
    ensures results[..|results|] == results
    ensures forall w: nat :: FirstStop(stop, w) ==> StopsAt(m, stop, w, results, |results|)
    ensures ResolvedIds(results) == Fired(m, |m|)
  {
    assert results[..|results|] == results;
    FiredStays(m, k, |m|);
    forall w: nat | FirstStop(stop, w)
      ensures StopsAt(m, stop, w, results, |results|)
    {
      FiredStays(m, k, w);
    }
  }

  lemma StartGood(m: StepTable, env: Env, inDegree: map<StepId, nat>, ready: seq<StepId>)
    requires TableOk(m) && inDegree.Keys == m.Keys
    requires forall id :: id in m ==> inDegree[id] == InitialDegree(m[id])
    requires NoDuplicates(ready)
    requires forall id :: id in ready <==> id in m && m[id].dependsOn == []
    ensures Good(m, env, Sched(inDegree, ready, {}, {}, []), {})
  {
    StartInv(m, inDegree, ready);
  }

  lemma ResultsFit(m: StepTable, env: Env, s: Sched)
    requires Good(m, env, s, {})
    ensures |s.results| <= |m|
  {
    FewerResultsThanSteps(m, s, {});
  }

  lemma FinishedRun(m: StepTable, env: Env, s: Sched, reason: string)
    requires Good(m, env, s, {}) && s.inFlight == {}
    ensures Explained(m, env, s.results) && Ordered(m, s.results)
    ensures var all := s.results + DrainedResults(s.ready, reason);
      NoDuplicates(ResultIds(all)) && ResolvedIds(all) <= m.Keys
    ensures s.ready == [] ==> s.results + DrainedResults(s.ready, reason) == s.results
    ensures s.ready == [] && ClosedTable(m) && !HasCycle(GraphOf(m)) ==> ExactlyOnce(m, s.results)
  {
    DrainAppends(m, s, reason);
    if s.ready == [] && ClosedTable(m) && !HasCycle(GraphOf(m)) {
      DrainedIsComplete(m, s);
    }
  }
}
