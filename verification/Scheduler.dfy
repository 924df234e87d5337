/** What the local DAG runner and the distributed coordinator share: the in-degree counters,
    the ready queue, the failed set, and the invariant every scheduling action keeps
    (rust-old/src/engine/dag.rs, rust-old/src/engine/distributed.rs). */
module Scheduler {
  import opened Wrappers
  import opened Steps
  import opened Graph

  const USIZE_MAX: nat := 0xFFFF_FFFF_FFFF_FFFF

  // A run's environment. A step's handler is started at most once, so a function of the id
  // covers every behaviour of the handlers; likewise for the condition verdicts.
  datatype Env = Env(
    exec: StepId -> Outcome,
    verdict: (StepDef, seq<StepResult>) -> Verdict,
    mayReject: bool)  // whether the fleet may refuse a submission

  datatype Sched = Sched(
    inDegree: map<StepId, nat>,
    ready: seq<StepId>,
    inFlight: set<StepId>,
    failed: set<StepId>,
    results: seq<StepResult>)

  // ---------- Counting resolved dependencies ----------

  /** How many entries of a dependency list, repetitions included, lie in `r`. */
  function CountIn(deps: seq<StepId>, r: set<StepId>): nat {
    if deps == [] then 0
    else CountIn(deps[..|deps| - 1], r) + if deps[|deps| - 1] in r then 1 else 0
  }

  /** How often `x` occurs in `s`. */
  function Count(s: seq<StepId>, x: StepId): nat {
    if s == [] then 0
    else Count(s[..|s| - 1], x) + if s[|s| - 1] == x then 1 else 0
  }

  lemma CountSnoc(s: seq<StepId>, d: StepId)
    ensures forall x :: Count(s + [d], x) == Count(s, x) + if x == d then 1 else 0
  {
    assert (s + [d])[..|s|] == s;
  }

  lemma {:induction false} CountBounds(s: seq<StepId>, x: StepId)
    ensures Count(s, x) <= |s|
    ensures Count(s, x) > 0 <==> x in s
  {
    if s != [] {
      assert s == s[..|s| - 1] + [s[|s| - 1]];
      CountBounds(s[..|s| - 1], x);
    }
  }

  lemma {:induction false} CountPrefix(s: seq<StepId>, n: nat, x: StepId)
    requires n <= |s|
    ensures Count(s[..n], x) <= Count(s, x)
    decreases |s| - n
  {
    if n < |s| {
      assert s[..n + 1] == s[..n] + [s[n]];
      CountSnoc(s[..n], s[n]);
      CountPrefix(s, n + 1, x);
    } else {
      assert s[..n] == s;
    }
  }

  lemma {:induction false} CountInBounds(deps: seq<StepId>, r: set<StepId>)
    ensures CountIn(deps, r) <= |deps|
    ensures CountIn(deps, r) == |deps| <==> forall d :: d in deps ==> d in r
    ensures CountIn(deps, r) > 0 <==> exists d :: d in deps && d in r
  {
    if deps != [] {
      assert deps == deps[..|deps| - 1] + [deps[|deps| - 1]];
      CountInBounds(deps[..|deps| - 1], r);
    }
  }

  lemma {:induction false} CountInAdd(deps: seq<StepId>, r: set<StepId>, d: StepId)
    requires d !in r
    ensures CountIn(deps, r + {d}) == CountIn(deps, r) + Count(deps, d)
  {
    if deps != [] {
      CountInAdd(deps[..|deps| - 1], r, d);
    }
  }

  /** The counter a step starts with: all of its dependencies, or one of them. */
  function InitialDegree(step: StepDef): nat {
    match step.triggerMode
    case All => |step.dependsOn|
    case Any => if step.dependsOn != [] then 1 else |step.dependsOn|
  }

  /** Enough dependencies of the step lie in `r` for its trigger to fire. */
  predicate Triggered(step: StepDef, r: set<StepId>) {
    CountIn(step.dependsOn, r) >= InitialDegree(step)
  }

  /** An All step waits for every dependency; an Any step with dependencies for one of them. */
  lemma TriggeredMeaning(step: StepDef, r: set<StepId>)
    ensures step.triggerMode == All ==> (Triggered(step, r) <==> forall d :: d in step.dependsOn ==> d in r)
    ensures step.triggerMode == Any && step.dependsOn != [] ==>
      (Triggered(step, r) <==> exists d :: d in step.dependsOn && d in r)
    ensures step.dependsOn == [] ==> Triggered(step, r)
  {
    CountInBounds(step.dependsOn, r);
  }

  // ---------- unlock_dependents ----------

  function Targets(dependents: map<StepId, seq<StepId>>, id: StepId): seq<StepId> {
    if id in dependents then dependents[id] else []
  }

  /** After how many saturating decrements a counter first reads zero. */
  function ZeroAfter(deg: nat): nat {
    if deg == 0 then 1 else deg
  }

  /** A counter after `k` decrements; on reading zero it is set to the sentinel. */
  function Decremented(deg: nat, k: nat): int {
    if k < ZeroAfter(deg) then deg - k else USIZE_MAX - (k - ZeroAfter(deg))
  }

  /** The effect of decrementing the counters of `targets` in turn: each counter goes down by the
      number of its occurrences, and `newly` lists the ids whose counter read zero, once each. */
  ghost predicate Unlocks(targets: seq<StepId>, inDegree: map<StepId, nat>, inDegree': map<StepId, nat>,
      newly: seq<StepId>)
  {
    && inDegree'.Keys == inDegree.Keys
    && (forall x :: x in inDegree ==> inDegree'[x] == Decremented(inDegree[x], Count(targets, x)))
    && NoDuplicates(newly)
    && (forall x :: x in newly <==> x in inDegree && Count(targets, x) >= ZeroAfter(inDegree[x]))
  }

  method UnlockDependents(stepId: StepId, dependents: map<StepId, seq<StepId>>, inDegree: map<StepId, nat>,
      ready: seq<StepId>) returns (inDegree': map<StepId, nat>, ready': seq<StepId>)
    requires forall x :: Count(Targets(dependents, stepId), x) <= USIZE_MAX
    ensures ready <= ready'
    ensures Unlocks(Targets(dependents, stepId), inDegree, inDegree', ready'[|ready|..])
    ensures KeepsOrder(ready'[|ready|..], Targets(dependents, stepId))
  {
    inDegree', ready' := inDegree, ready;
    ghost var newly: seq<StepId> := [];
    assert KeepsOrder(newly, []);
    assert ready'[|ready|..] == newly;
    if stepId in dependents {
      var deps := dependents[stepId];
      assert Targets(dependents, stepId) == deps && deps[..0] == [];
      hide Unlocks, KeepsOrder;
      for i := 0 to |deps|
        invariant inDegree'.Keys == inDegree.Keys
        invariant Unlocks(deps[..i], inDegree, inDegree', newly)
        invariant ready' == ready + newly
        invariant KeepsOrder(newly, deps[..i]) && forall x :: x in newly ==> x in deps[..i]
      {
        var depId := deps[i];
        assert deps[..i + 1] == deps[..i] + [depId];
        CountPrefix(deps, i + 1, depId);
        UnlocksOneMore(deps[..i], depId, inDegree, inDegree', newly);
        OrderGrows(newly, deps[..i], depId);
        if depId in inDegree' {
          var deg := if inDegree'[depId] == 0 then 0 else inDegree'[depId] - 1;
          if deg == 0 {
            ready', newly := ready' + [depId], newly + [depId];
            deg := USIZE_MAX;
          }
          inDegree' := inDegree'[depId := deg];
        }
      }
      assert deps[..|deps|] == deps && ready'[|ready|..] == newly;
    }
  }

  /** Ids taken from a list as it is gone through keep its order. */
  lemma OrderGrows(sub: seq<StepId>, whole: seq<StepId>, id: StepId)
    requires KeepsOrder(sub, whole) && forall x :: x in sub ==> x in whole
    ensures KeepsOrder(sub, whole + [id]) && KeepsOrder(sub + [id], whole + [id])
    ensures forall x :: x in sub + [id] ==> x in whole + [id]
  {
    var more := whole + [id];
    forall x, y | ListedBefore(whole, x, y)
      ensures ListedBefore(more, x, y)
    {
      var p, q :| 0 <= p < q < |whole| && whole[p] == x && whole[q] == y;
      assert more[p] == x && more[q] == y;
    }
    forall x | x in whole
      ensures ListedBefore(more, x, id)
    {
      var p :| 0 <= p < |whole| && whole[p] == x;
      assert more[p] == x && more[|whole|] == id;
    }
  }

  lemma TargetsCounted(m: StepTable, dependents: map<StepId, seq<StepId>>, d: StepId)
    requires TableOk(m) && DependentsOf(m, dependents)
    ensures forall x :: Count(Targets(dependents, d), x) <= USIZE_MAX
  {
    forall x
      ensures Count(Targets(dependents, d), x) <= USIZE_MAX
    {
      CountBounds(Targets(dependents, d), x);
      if x in m {
        CountBounds(m[x].dependsOn, d);
      }
    }
  }

  lemma UnlocksOneMore(targets: seq<StepId>, d: StepId, inDegree: map<StepId, nat>, inDegree': map<StepId, nat>,
      newly: seq<StepId>)
    requires Unlocks(targets, inDegree, inDegree', newly)
    requires Count(targets + [d], d) <= USIZE_MAX
    ensures d !in inDegree ==> Unlocks(targets + [d], inDegree, inDegree', newly)
    ensures d in inDegree && inDegree'[d] <= 1 ==>
      Unlocks(targets + [d], inDegree, inDegree'[d := USIZE_MAX], newly + [d])
    ensures d in inDegree && inDegree'[d] > 1 ==>
      Unlocks(targets + [d], inDegree, inDegree'[d := inDegree'[d] - 1], newly)
  {
    CountSnoc(targets, d);
    if d in inDegree && inDegree'[d] <= 1 {
      assert d !in newly;
      assert forall x :: x in newly + [d] <==> x in newly || x == d;
    }
  }

  /** The decrements can always be carried out. */
  lemma {:induction false} UnlocksExists(targets: seq<StepId>, inDegree: map<StepId, nat>)
    returns (inDegree': map<StepId, nat>, newly: seq<StepId>)
    requires forall x :: Count(targets, x) <= USIZE_MAX
    ensures Unlocks(targets, inDegree, inDegree', newly)
  {
    inDegree', newly := inDegree, [];
    if targets != [] {
      var n := |targets| - 1;
      var d := targets[n];
      assert targets == targets[..n] + [d];
      forall x
        ensures Count(targets[..n], x) <= USIZE_MAX
      {
        CountPrefix(targets, n, x);
      }
      inDegree', newly := UnlocksExists(targets[..n], inDegree);
      UnlocksOneMore(targets[..n], d, inDegree, inDegree', newly);
      if d in inDegree && inDegree'[d] <= 1 {
        inDegree', newly := inDegree'[d := USIZE_MAX], newly + [d];
      } else if d in inDegree {
        inDegree' := inDegree'[d := inDegree'[d] - 1];
      }
    }
  }

  // ---------- The invariant ----------

  function ResolvedIds(results: seq<StepResult>): set<StepId> {
    set r | r in results :: r.stepId
  }

  /** A result that makes dependents fail: a failure, or a skip caused by one. */
  predicate Blocks(r: StepResult) {
    r.status == Failed || r == SkippedResult(r.stepId, "dependency failed")
  }

  predicate DependencyFailed(step: StepDef, failed: set<StepId>) {
    exists d :: d in step.dependsOn && d in failed
  }

  /** Ids agree with the table, and no dependency list is as long as a machine word counts. */
  ghost predicate TableOk(m: StepTable) {
    forall id :: id in m ==> m[id].id == id && |m[id].dependsOn| < USIZE_MAX
  }

  /** The counter of a step `met` of whose dependency entries are resolved. */
  function DegreeAt(step: StepDef, met: nat): int {
    if met < InitialDegree(step) then InitialDegree(step) - met
    else if InitialDegree(step) == 0 then 0
    else USIZE_MAX - (met - InitialDegree(step))
  }

  function Met(m: StepTable, results: seq<StepResult>, id: StepId): nat
    requires id in m
  {
    CountIn(m[id].dependsOn, ResolvedIds(results))
  }

  /** The step has left the waiting state; `held` is an id popped from the queue and not yet decided. */
  predicate Entered(s: Sched, held: set<StepId>, id: StepId) {
    id in s.ready || id in held || id in s.inFlight || id in ResolvedIds(s.results)
  }

  /** Every queue position, hold, flight and result is of a known step, and of one only. */
  ghost predicate Exclusive(m: StepTable, s: Sched, held: set<StepId>) {
    && NoDuplicates(s.ready) && NoDuplicates(ResultIds(s.results))
    && (forall id :: Entered(s, held, id) ==> id in m)
    && (forall id :: id in s.ready ==> id !in held && id !in s.inFlight && id !in ResolvedIds(s.results))
    && (forall id :: id in held ==> id !in s.inFlight && id !in ResolvedIds(s.results))
    && (forall id :: id in s.inFlight ==> id !in ResolvedIds(s.results))
  }

  /** Counters read what the results so far leave to be met, and a step has entered the queue
      exactly when its trigger has fired. */
  ghost predicate Counted(m: StepTable, s: Sched, held: set<StepId>) {
    && s.inDegree.Keys == m.Keys
    && (forall id :: id in m ==> s.inDegree[id] == DegreeAt(m[id], Met(m, s.results, id)))
    && (forall id :: id in m ==> (Entered(s, held, id) <==> Triggered(m[id], ResolvedIds(s.results))))
  }

  /** Every result comes after the results its step's trigger waits for. */
  ghost predicate Ordered(m: StepTable, results: seq<StepResult>) {
    forall i :: 0 <= i < |results| && results[i].stepId in m ==>
      Triggered(m[results[i].stepId], ResolvedIds(results[..i]))
  }

  /** `failed` is what the results say, and an All step was started only with no dependency failed. */
  ghost predicate Guarded(m: StepTable, s: Sched) {
    && (forall id :: id in s.failed <==> exists r :: r in s.results && r.stepId == id && Blocks(r))
    && (forall id :: id in s.inFlight && id in m && m[id].triggerMode == All ==> !DependencyFailed(m[id], s.failed))
    && (forall r :: r in s.results && r.stepId in m && m[r.stepId].triggerMode == All && r.status != Skipped ==>
          !DependencyFailed(m[r.stepId], s.failed))
  }

  ghost predicate Inv(m: StepTable, s: Sched, held: set<StepId>) {
    Exclusive(m, s, held) && Counted(m, s, held) && Ordered(m, s.results) && Guarded(m, s)
  }

  /** `dependents` is the reversed edge relation, repetitions counted. */
  ghost predicate DependentsOf(m: StepTable, dependents: map<StepId, seq<StepId>>) {
    && (forall d, x :: x in m ==> Count(Targets(dependents, d), x) == Count(m[x].dependsOn, d))
    && (forall d, x :: x in Targets(dependents, d) ==> x in m)
  }

  // ---------- What each action keeps ----------

  lemma StartInv(m: StepTable, inDegree: map<StepId, nat>, ready: seq<StepId>)
    requires TableOk(m) && inDegree.Keys == m.Keys
    requires forall id :: id in m ==> inDegree[id] == InitialDegree(m[id])
    requires NoDuplicates(ready)
    requires forall id :: id in ready <==> id in m && m[id].dependsOn == []
    ensures Inv(m, Sched(inDegree, ready, {}, {}, []), {})
  {
    forall id | id in m
      ensures Met(m, [], id) == 0
      ensures id in ready <==> Triggered(m[id], ResolvedIds([]))
    {
      CountInBounds(m[id].dependsOn, ResolvedIds([]));
      TriggeredMeaning(m[id], ResolvedIds([]));
    }
  }

  function Pop(s: Sched): Sched
    requires s.ready != []
  {
    s.(ready := s.ready[1..])
  }

  lemma PopInv(m: StepTable, s: Sched)
    requires Inv(m, s, {}) && s.ready != []
    ensures Inv(m, Pop(s), {s.ready[0]})
  {
    var s' := Pop(s);
    forall id
      ensures Entered(s', {s.ready[0]}, id) <==> Entered(s, {}, id)
    {
      assert s.ready == [s.ready[0]] + s.ready[1..];
    }
  }

  lemma LaunchInv(m: StepTable, s: Sched, id: StepId)
    requires Inv(m, s, {id}) && id in m && !DependencyFailed(m[id], s.failed)
    ensures Inv(m, s.(inFlight := s.inFlight + {id}), {})
  {
    var s' := s.(inFlight := s.inFlight + {id});
    forall x
      ensures Entered(s', {}, x) <==> Entered(s, {id}, x)
    {
    }
  }

  lemma LandInv(m: StepTable, s: Sched, id: StepId)
    requires Inv(m, s, {}) && id in s.inFlight
    ensures Inv(m, s.(inFlight := s.inFlight - {id}), {id})
  {
    var s' := s.(inFlight := s.inFlight - {id});
    forall x
      ensures Entered(s', {id}, x) <==> Entered(s, {}, x)
    {
    }
  }

  /** The state after the held step's result is recorded and its dependents are unlocked. */
  function Record(s: Sched, r: StepResult, inDegree: map<StepId, nat>, newly: seq<StepId>): Sched {
    Sched(inDegree, s.ready + newly, s.inFlight, if Blocks(r) then s.failed + {r.stepId} else s.failed,
          s.results + [r])
  }

  lemma ResolvedAppend(results: seq<StepResult>, r: StepResult)
    ensures ResolvedIds(results + [r]) == ResolvedIds(results) + {r.stepId}
  {
    assert forall x :: x in results + [r] <==> x in results || x == r;
    forall id
      ensures id in ResolvedIds(results + [r]) <==> id in ResolvedIds(results) + {r.stepId}
    {
      if id == r.stepId {
        assert r in results + [r];
      }
    }
  }

  lemma CounterMoves(step: StepDef, met: nat, k: nat)
    requires met + k <= |step.dependsOn| < USIZE_MAX
    ensures DegreeAt(step, met) >= 0
    ensures Decremented(DegreeAt(step, met), k) == DegreeAt(step, met + k)
    ensures k >= ZeroAfter(DegreeAt(step, met)) <==> met < InitialDegree(step) <= met + k
  {
  }

  /** Everything recording a result needs to know about its context. */
  ghost predicate CanRecord(m: StepTable, dependents: map<StepId, seq<StepId>>, s: Sched, r: StepResult,
      inDegree: map<StepId, nat>, newly: seq<StepId>)
  {
    && TableOk(m) && DependentsOf(m, dependents) && r.stepId in m
    && Inv(m, s, {r.stepId})
    && Unlocks(Targets(dependents, r.stepId), s.inDegree, inDegree, newly)
    && (r.status != Skipped && m[r.stepId].triggerMode == All ==> !DependencyFailed(m[r.stepId], s.failed))
  }

  lemma RecordCounts(m: StepTable, dependents: map<StepId, seq<StepId>>, s: Sched, r: StepResult,
      inDegree: map<StepId, nat>, newly: seq<StepId>, id: StepId)
    requires CanRecord(m, dependents, s, r, inDegree, newly) && id in m
    ensures inDegree[id] == DegreeAt(m[id], Met(m, s.results + [r], id))
    ensures id in newly <==> !Triggered(m[id], ResolvedIds(s.results)) && Triggered(m[id], ResolvedIds(s.results + [r]))
    ensures Triggered(m[id], ResolvedIds(s.results)) ==> Triggered(m[id], ResolvedIds(s.results + [r]))
  {
    ResolvedAppend(s.results, r);
    CountInAdd(m[id].dependsOn, ResolvedIds(s.results), r.stepId);
    CountInBounds(m[id].dependsOn, ResolvedIds(s.results + [r]));
    assert Count(Targets(dependents, r.stepId), id) == Count(m[id].dependsOn, r.stepId);
    CounterMoves(m[id], Met(m, s.results, id), Count(m[id].dependsOn, r.stepId));
  }

  lemma RecordEnters(m: StepTable, dependents: map<StepId, seq<StepId>>, s: Sched, r: StepResult,
      inDegree: map<StepId, nat>, newly: seq<StepId>)
    requires CanRecord(m, dependents, s, r, inDegree, newly)
    ensures forall id :: Entered(Record(s, r, inDegree, newly), {}, id) <==> Entered(s, {r.stepId}, id) || id in newly
    ensures forall id :: id in newly ==> id in m && !Entered(s, {r.stepId}, id)
  {
    var s' := Record(s, r, inDegree, newly);
    ResolvedAppend(s.results, r);
    assert forall x :: x in s'.ready <==> x in s.ready || x in newly;
    forall id | id in newly
      ensures id in m && !Entered(s, {r.stepId}, id)
    {
      RecordCounts(m, dependents, s, r, inDegree, newly, id);
    }
  }

  lemma RecordCounted(m: StepTable, dependents: map<StepId, seq<StepId>>, s: Sched, r: StepResult,
      inDegree: map<StepId, nat>, newly: seq<StepId>)
    requires CanRecord(m, dependents, s, r, inDegree, newly)
    ensures Counted(m, Record(s, r, inDegree, newly), {})
  {
    var s' := Record(s, r, inDegree, newly);
    RecordEnters(m, dependents, s, r, inDegree, newly);
    forall id | id in m
      ensures s'.inDegree[id] == DegreeAt(m[id], Met(m, s'.results, id))
      ensures Entered(s', {}, id) <==> Triggered(m[id], ResolvedIds(s'.results))
    {
      RecordCounts(m, dependents, s, r, inDegree, newly, id);
    }
  }

  lemma RecordExclusive(m: StepTable, dependents: map<StepId, seq<StepId>>, s: Sched, r: StepResult,
      inDegree: map<StepId, nat>, newly: seq<StepId>)
    requires CanRecord(m, dependents, s, r, inDegree, newly)
    ensures Exclusive(m, Record(s, r, inDegree, newly), {})
  {
    RecordEnters(m, dependents, s, r, inDegree, newly);
    ResolvedAppend(s.results, r);
    NoDuplicatesConcat(s.ready, newly);
    NoDuplicatesAppend(s.results, r);
    assert Entered(s, {r.stepId}, r.stepId);
    assert forall x :: x in s.ready + newly <==> x in s.ready || x in newly;
  }

  lemma NoDuplicatesConcat(a: seq<StepId>, b: seq<StepId>)
    requires NoDuplicates(a) && NoDuplicates(b) && forall x :: x in b ==> x !in a
    ensures NoDuplicates(a + b)
  {
    forall i, j | 0 <= i < j < |a + b|
      ensures (a + b)[i] != (a + b)[j]
    {
      if i < |a| <= j {
        assert (a + b)[j] == b[j - |a|] && a[i] in a;
      } else if |a| <= i {
        assert (a + b)[i] == b[i - |a|] && (a + b)[j] == b[j - |a|];
      }
    }
  }

  lemma NoDuplicatesAppend(results: seq<StepResult>, r: StepResult)
    requires NoDuplicates(ResultIds(results)) && r.stepId !in ResolvedIds(results)
    ensures NoDuplicates(ResultIds(results + [r]))
  {
    var ids := ResultIds(results + [r]);
    forall i, j | 0 <= i < j < |ids|
      ensures ids[i] != ids[j]
    {
      if j < |results| {
        assert ids[i] == ResultIds(results)[i] && ids[j] == ResultIds(results)[j];
      } else {
        assert results[i] in results;
      }
    }
  }

  /** A step is never its own dependency once entered, nor does an entered All step still wait. */
  lemma EnteredIsComplete(m: StepTable, s: Sched, d: StepId, id: StepId)
    requires Counted(m, s, {d}) && Exclusive(m, s, {d}) && id in m
    requires m[id].triggerMode == All && Entered(s, {d}, id)
    ensures d !in m[id].dependsOn
  {
    TriggeredMeaning(m[id], ResolvedIds(s.results));
  }

  lemma RecordGuarded(m: StepTable, dependents: map<StepId, seq<StepId>>, s: Sched, r: StepResult,
      inDegree: map<StepId, nat>, newly: seq<StepId>)
    requires CanRecord(m, dependents, s, r, inDegree, newly)
    ensures Guarded(m, Record(s, r, inDegree, newly))
  {
    var s' := Record(s, r, inDegree, newly);
    assert forall x :: x in s'.results <==> x in s.results || x == r;
    forall id | id in s.inFlight && id in m && m[id].triggerMode == All
      ensures !DependencyFailed(m[id], s'.failed)
    {
      EnteredIsComplete(m, s, r.stepId, id);
    }
    forall q | q in s'.results && q.stepId in m && m[q.stepId].triggerMode == All && q.status != Skipped
      ensures !DependencyFailed(m[q.stepId], s'.failed)
    {
      EnteredIsComplete(m, s, r.stepId, q.stepId);
    }
  }

  lemma RecordOrdered(m: StepTable, results: seq<StepResult>, r: StepResult)
    requires Ordered(m, results) && (r.stepId in m ==> Triggered(m[r.stepId], ResolvedIds(results)))
    ensures Ordered(m, results + [r])
  {
    var results' := results + [r];
    forall i | 0 <= i < |results'| && results'[i].stepId in m
      ensures Triggered(m[results'[i].stepId], ResolvedIds(results'[..i]))
    {
      assert results'[..i] == if i < |results| then results[..i] else results;
    }
  }

  /** Recording a result and unlocking its dependents keeps the invariant. */
  lemma RecordInv(m: StepTable, dependents: map<StepId, seq<StepId>>, s: Sched, r: StepResult,
      inDegree: map<StepId, nat>, newly: seq<StepId>)
    requires CanRecord(m, dependents, s, r, inDegree, newly)
    ensures Inv(m, Record(s, r, inDegree, newly), {})
  {
    RecordCounted(m, dependents, s, r, inDegree, newly);
    RecordExclusive(m, dependents, s, r, inDegree, newly);
    RecordGuarded(m, dependents, s, r, inDegree, newly);
    assert Entered(s, {r.stepId}, r.stepId);
    RecordOrdered(m, s.results, r);
  }

  // ---------- Nothing is left behind ----------

  ghost predicate ClosedTable(m: StepTable) {
    forall id, d :: id in m && d in m[id].dependsOn ==> d in m
  }

  /** The dependencies of the steps of `w` are in `w`. */
  ghost predicate DependencyClosed(m: StepTable, w: set<StepId>) {
    forall id, d :: id in w && id in m && d in m[id].dependsOn ==> d in w
  }

  /** With an acyclic table nothing of a dependency-closed set is left waiting once none of it is in flight. */
  lemma ClosedIsResolved(m: StepTable, s: Sched, w: set<StepId>)
    requires Inv(m, s, {}) && s.ready == [] && s.inFlight !! w && !HasCycle(GraphOf(m))
    requires DependencyClosed(m, w) && w <= m.Keys
    ensures w <= ResolvedIds(s.results)
  {
    var g, r := GraphOf(m), ResolvedIds(s.results);
    var u := w - r;
    forall x | x in u
      ensures HasSuccessorIn(g, x, u)
    {
      assert !Entered(s, {}, x);
      CountInBounds(m[x].dependsOn, r);
      TriggeredMeaning(m[x], r);
      var d :| d in m[x].dependsOn && d !in r;
      assert Edge(g, x, d);
    }
    if u != {} {
      EndlessSetHasCycle(g, u);
    }
  }

  /** With an acyclic, closed table the scheduler cannot run dry before every step has a result. */
  lemma DrainedIsComplete(m: StepTable, s: Sched)
    requires Inv(m, s, {}) && s.ready == [] && s.inFlight == {}
    requires ClosedTable(m) && !HasCycle(GraphOf(m))
    ensures ResolvedIds(s.results) == m.Keys
  {
    ClosedIsResolved(m, s, m.Keys);
    forall id | id in ResolvedIds(s.results)
      ensures id in m
    {
      assert Entered(s, {}, id);
    }
  }

  // ---------- Why each result is what it is ----------

  ghost predicate Blocked(results: seq<StepResult>, d: StepId) {
    exists r :: r in results && r.stepId == d && Blocks(r)
  }

  ghost predicate DependencyBlocked(step: StepDef, results: seq<StepResult>) {
    exists d :: d in step.dependsOn && Blocked(results, d)
  }

  predicate ConditionAllows(step: StepDef, env: Env, results: seq<StepResult>) {
    step.condition == None || env.verdict(step, results) != DoesNotHold
  }

  /** With these results on record the step's handler may be started. */
  ghost predicate MayLaunch(m: StepTable, env: Env, results: seq<StepResult>, id: StepId) {
    && id in m
    && Triggered(m[id], ResolvedIds(results))
    && !DependencyBlocked(m[id], results)
    && ConditionAllows(m[id], env, results)
  }

  ghost predicate Launched(m: StepTable, env: Env, results: seq<StepResult>, id: StepId) {
    exists k :: 0 <= k <= |results| && MayLaunch(m, env, results[..k], id)
  }

  const REJECTED := "no fleet node available"

  /** What result a step may be given when `before` is on record: its handler's outcome if it was
      launched, a skip if a dependency failed or else if its condition is false, or the
      fleet's refusal. */
  ghost predicate Justified(m: StepTable, env: Env, before: seq<StepResult>, r: StepResult) {
    var id := r.stepId;
    && id in m
    && (|| (r == ExecutedResult(id, env.exec(id)) && Launched(m, env, before, id))
        || (r == SkippedResult(id, "dependency failed") && DependencyBlocked(m[id], before))
        || (r == SkippedResult(id, "condition not met") && !DependencyBlocked(m[id], before)
            && !ConditionAllows(m[id], env, before))
        || (env.mayReject && r == StepResult(id, Failed, 0, Some(REJECTED)) && MayLaunch(m, env, before, id)))
  }

  ghost predicate Explained(m: StepTable, env: Env, results: seq<StepResult>) {
    forall i :: 0 <= i < |results| ==> Justified(m, env, results[..i], results[i])
  }

  ghost predicate Sound(m: StepTable, env: Env, s: Sched) {
    && Explained(m, env, s.results)
    && forall id :: id in s.inFlight ==> Launched(m, env, s.results, id)
  }

  lemma FailedIsBlocked(m: StepTable, s: Sched, step: StepDef)
    requires Guarded(m, s)
    ensures DependencyFailed(step, s.failed) <==> DependencyBlocked(step, s.results)
  {
    forall d
      ensures d in s.failed <==> Blocked(s.results, d)
    {
    }
  }

  lemma ExplainedAppend(m: StepTable, env: Env, results: seq<StepResult>, r: StepResult)
    requires Explained(m, env, results) && Justified(m, env, results, r)
    ensures Explained(m, env, results + [r])
  {
    var results' := results + [r];
    forall i | 0 <= i < |results'|
      ensures Justified(m, env, results'[..i], results'[i])
    {
      assert results'[..i] == if i < |results| then results[..i] else results;
    }
  }

  lemma LaunchedLater(m: StepTable, env: Env, results: seq<StepResult>, more: seq<StepResult>, id: StepId)
    requires Launched(m, env, results, id)
    ensures Launched(m, env, results + more, id)
  {
    var k :| 0 <= k <= |results| && MayLaunch(m, env, results[..k], id);
    assert (results + more)[..k] == results[..k];
  }

  lemma RecordSound(m: StepTable, env: Env, s: Sched, r: StepResult, inDegree: map<StepId, nat>, newly: seq<StepId>)
    requires Sound(m, env, s) && Justified(m, env, s.results, r)
    ensures Sound(m, env, Record(s, r, inDegree, newly))
  {
    ExplainedAppend(m, env, s.results, r);
    forall id | id in s.inFlight
      ensures Launched(m, env, s.results + [r], id)
    {
      LaunchedLater(m, env, s.results, [r], id);
    }
  }

  lemma LaunchSound(m: StepTable, env: Env, s: Sched, id: StepId)
    requires Sound(m, env, s) && MayLaunch(m, env, s.results, id)
    ensures Sound(m, env, s.(inFlight := s.inFlight + {id}))
  {
    assert s.results[..|s.results|] == s.results;
  }

  /** An entry just popped from the queue has had its trigger fire. */
  lemma HeldIsTriggered(m: StepTable, s: Sched, id: StepId)
    requires Inv(m, s, {id})
    ensures id in m && Triggered(m[id], ResolvedIds(s.results))
  {
    assert Entered(s, {id}, id);
  }

  // ---------- The declarative answer ----------

  /** Some transitive dependency's handler fails. */
  ghost predicate Doomed(m: StepTable, exec: StepId -> Outcome, id: StepId) {
    exists t :: Reaches(GraphOf(m), id, t) && !exec(t).Succeeded?
  }

  ghost function Expected(m: StepTable, exec: StepId -> Outcome, id: StepId): StepResult {
    if Doomed(m, exec, id) then SkippedResult(id, "dependency failed") else ExecutedResult(id, exec(id))
  }

  ghost predicate AllBlock(m: StepTable, exec: StepId -> Outcome, deps: seq<StepId>) {
    forall d :: d in deps ==> Blocks(Expected(m, exec, d))
  }

  ghost predicate NoneBlocks(m: StepTable, exec: StepId -> Outcome, deps: seq<StepId>) {
    forall d :: d in deps ==> !Blocks(Expected(m, exec, d))
  }

  /** Unconditioned steps, the Any steps among them with dependencies that agree: all fail, or are
      skipped for a failure, or none. */
  ghost predicate Uniform(m: StepTable, exec: StepId -> Outcome) {
    forall id :: id in m ==>
      && m[id].condition == None
      && (m[id].triggerMode == Any ==> AllBlock(m, exec, m[id].dependsOn) || NoneBlocks(m, exec, m[id].dependsOn))
  }

  lemma BlockedDependencyDooms(m: StepTable, exec: StepId -> Outcome, id: StepId, d: StepId)
    requires id in m && d in m[id].dependsOn && Blocks(Expected(m, exec, d))
    ensures Doomed(m, exec, id)
  {
    var g := GraphOf(m);
    assert Edge(g, id, d);
    EdgeReaches(g, id, d);
    if Doomed(m, exec, d) {
      var t :| Reaches(g, d, t) && !exec(t).Succeeded?;
      ReachesTransitive(g, id, d, t);
    }
  }

  lemma PassingDependenciesSpare(m: StepTable, exec: StepId -> Outcome, id: StepId)
    requires id in m && forall d :: d in m[id].dependsOn ==> !Blocks(Expected(m, exec, d))
    ensures !Doomed(m, exec, id)
  {
    var g := GraphOf(m);
    if Doomed(m, exec, id) {
      var t :| Reaches(g, id, t) && !exec(t).Succeeded?;
      var d := ReachesFirst(g, id, t);
    }
  }

  /** Results that are explained, in whatever order they came, are the declarative answer. */
  lemma {:induction false} ExplainedIsExpected(m: StepTable, env: Env, results: seq<StepResult>, i: nat)
    requires Explained(m, env, results) && Uniform(m, env.exec) && !env.mayReject && i < |results|
    ensures results[i] == Expected(m, env.exec, results[i].stepId)
    decreases i
  {
    var r := results[i];
    var id := r.stepId;
    assert Justified(m, env, results[..i], r);
    forall j | 0 <= j < i
      ensures results[j] == Expected(m, env.exec, results[j].stepId)
    {
      ExplainedIsExpected(m, env, results, j);
    }
    hide Explained, Expected, Doomed;
    if DependencyBlocked(m[id], results[..i]) && r == SkippedResult(id, "dependency failed") {
      var d :| d in m[id].dependsOn && Blocked(results[..i], d);
      BlockedDependencyDooms(m, env.exec, id, d);
      DoomedIsSkipped(m, env.exec, id);
    } else {
      assert Launched(m, env, results[..i], id);
      var k :| 0 <= k <= i && MayLaunch(m, env, results[..i][..k], id);
      assert results[..i][..k] == results[..k];
      LaunchedPasses(m, env, results[..k], id);
      PassingDependenciesSpare(m, env.exec, id);
      SparedIsExecuted(m, env.exec, id);
    }
  }

  lemma DoomedIsSkipped(m: StepTable, exec: StepId -> Outcome, id: StepId)
    requires Doomed(m, exec, id)
    ensures Expected(m, exec, id) == SkippedResult(id, "dependency failed")
  {
  }

  lemma SparedIsExecuted(m: StepTable, exec: StepId -> Outcome, id: StepId)
    requires !Doomed(m, exec, id)
    ensures Expected(m, exec, id) == ExecutedResult(id, exec(id))
  {
  }

  /** A step is only started when the declarative answer lets all of its dependencies pass. */
  lemma LaunchedPasses(m: StepTable, env: Env, before: seq<StepResult>, id: StepId)
    requires MayLaunch(m, env, before, id) && Uniform(m, env.exec)
    requires forall r :: r in before && !Blocks(r) ==> !Blocks(Expected(m, env.exec, r.stepId))
    ensures NoneBlocks(m, env.exec, m[id].dependsOn)
  {
    hide Expected;
    TriggeredMeaning(m[id], ResolvedIds(before));
    forall d | d in m[id].dependsOn && d in ResolvedIds(before)
      ensures !Blocks(Expected(m, env.exec, d))
    {
      var q :| q in before && q.stepId == d;
      assert !Blocked(before, d);
    }
  }

  /** A result that lets dependents go on is of a step whose declarative answer does, refusals or not. */
  lemma {:induction false} PassingIsExpected(m: StepTable, env: Env, results: seq<StepResult>, i: nat)
    requires Explained(m, env, results) && Uniform(m, env.exec) && i < |results| && !Blocks(results[i])
    ensures !Blocks(Expected(m, env.exec, results[i].stepId))
    decreases i
  {
    var id := results[i].stepId;
    assert Justified(m, env, results[..i], results[i]);
    forall j | 0 <= j < i && !Blocks(results[j])
      ensures !Blocks(Expected(m, env.exec, results[j].stepId))
    {
      PassingIsExpected(m, env, results, j);
    }
    hide Explained, Expected, Doomed, Launched;
    LaunchedIsSpared(m, env, results[..i], id);
    SparedIsExecuted(m, env.exec, id);
  }

  lemma LaunchedIsSpared(m: StepTable, env: Env, results: seq<StepResult>, id: StepId)
    requires Launched(m, env, results, id) && Uniform(m, env.exec)
    requires forall r :: r in results && !Blocks(r) ==> !Blocks(Expected(m, env.exec, r.stepId))
    ensures !Doomed(m, env.exec, id)
  {
    hide Expected, Doomed, Uniform;
    var k :| 0 <= k <= |results| && MayLaunch(m, env, results[..k], id);
    LaunchedPasses(m, env, results[..k], id);
    PassingDependenciesSpare(m, env.exec, id);
  }

  lemma AllExpected(m: StepTable, env: Env, results: seq<StepResult>)
    requires Explained(m, env, results) && Uniform(m, env.exec) && !env.mayReject
    ensures forall r :: r in results ==> r == Expected(m, env.exec, r.stepId)
  {
    hide Explained, Uniform, Expected;
    forall r | r in results
      ensures r == Expected(m, env.exec, r.stepId)
    {
      var i :| 0 <= i < |results| && results[i] == r;
      ExplainedIsExpected(m, env, results, i);
    }
  }

  // ---------- Whole-run statements ----------

  ghost predicate Good(m: StepTable, env: Env, s: Sched, held: set<StepId>) {
    Inv(m, s, held) && Sound(m, env, s)
  }

  /** Recording a justified result for the held step keeps everything. */
  lemma RecordGood(m: StepTable, dependents: map<StepId, seq<StepId>>, env: Env, s: Sched, r: StepResult,
      inDegree: map<StepId, nat>, newly: seq<StepId>)
    requires TableOk(m) && DependentsOf(m, dependents) && r.stepId in m
    requires Good(m, env, s, {r.stepId}) && Justified(m, env, s.results, r)
    requires r.status != Skipped && m[r.stepId].triggerMode == All ==> !DependencyFailed(m[r.stepId], s.failed)
    requires Unlocks(Targets(dependents, r.stepId), s.inDegree, inDegree, newly)
    ensures Good(m, env, Record(s, r, inDegree, newly), {})
  {
    RecordInv(m, dependents, s, r, inDegree, newly);
    RecordSound(m, env, s, r, inDegree, newly);
  }

  lemma PopGood(m: StepTable, env: Env, s: Sched)
    requires Good(m, env, s, {}) && s.ready != []
    ensures Good(m, env, Pop(s), {s.ready[0]})
    ensures var id := s.ready[0]; id in m && Triggered(m[id], ResolvedIds(s.results))
    ensures DependencyFailed(m[s.ready[0]], s.failed) <==> DependencyBlocked(m[s.ready[0]], s.results)
  {
    PopInv(m, s);
    HeldIsTriggered(m, Pop(s), s.ready[0]);
    FailedIsBlocked(m, s, m[s.ready[0]]);
  }

  lemma LaunchGood(m: StepTable, env: Env, s: Sched, id: StepId)
    requires Good(m, env, s, {id}) && MayLaunch(m, env, s.results, id)
    ensures Good(m, env, s.(inFlight := s.inFlight + {id}), {}) && id !in s.inFlight
  {
    FailedIsBlocked(m, s, m[id]);
    LaunchInv(m, s, id);
    LaunchSound(m, env, s, id);
  }

  lemma LandGood(m: StepTable, env: Env, s: Sched, id: StepId)
    requires Good(m, env, s, {}) && id in s.inFlight
    ensures Good(m, env, s.(inFlight := s.inFlight - {id}), {id})
    ensures id in m && Launched(m, env, s.results, id)
    ensures m[id].triggerMode == All ==> !DependencyFailed(m[id], s.failed)
  {
    LandInv(m, s, id);
    assert Entered(s, {}, id);
  }

  lemma {:induction false} DistinctResults(results: seq<StepResult>)
    requires NoDuplicates(ResultIds(results))
    ensures |ResolvedIds(results)| == |results|
  {
    if results != [] {
      var n := |results| - 1;
      assert results == results[..n] + [results[n]];
      assert forall i :: 0 <= i < n ==> ResultIds(results[..n])[i] == ResultIds(results)[i];
      ResolvedAppend(results[..n], results[n]);
      DistinctResults(results[..n]);
      forall i | 0 <= i < n
        ensures results[i].stepId != results[n].stepId
      {
        assert ResultIds(results)[i] != ResultIds(results)[n];
      }
    }
  }

  lemma FewerResultsThanSteps(m: StepTable, s: Sched, held: set<StepId>)
    requires Exclusive(m, s, held)
    ensures ResolvedIds(s.results) <= m.Keys && |s.results| <= |m.Keys|
    ensures |s.results| == |m.Keys| ==> ResolvedIds(s.results) == m.Keys
  {
    DistinctResults(s.results);
    forall id | id in ResolvedIds(s.results)
      ensures id in m
    {
      assert Entered(s, held, id);
    }
    SubsetCardinality(ResolvedIds(s.results), m.Keys);
  }

  lemma SubsetCardinality(a: set<StepId>, b: set<StepId>)
    requires a <= b
    ensures |a| <= |b| && (|a| == |b| ==> a == b)
  {
    assert b == a + (b - a);
    assert |b| == |a| + |b - a|;
  }

  /** Each step has exactly one result. */
  ghost predicate ExactlyOnce(m: StepTable, results: seq<StepResult>) {
    NoDuplicates(ResultIds(results)) && ResolvedIds(results) == m.Keys
  }
}
