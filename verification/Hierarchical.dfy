/** Hierarchical execution of a forest of steps (rust-old/src/engine/hierarchical.rs). */
module HierarchicalRunner {
  import opened Wrappers
  import opened Steps
  import opened Sequential

  /** Skip records for a list of steps. */
  function Skips(steps: seq<StepDef>, reason: string): seq<StepResult> {
    seq(|steps|, i requires 0 <= i < |steps| => SkippedResult(steps[i].id, reason))
  }

  lemma SkipsConcat(a: seq<StepDef>, b: seq<StepDef>, reason: string)
    ensures Skips(a + b, reason) == Skips(a, reason) + Skips(b, reason)
  {
  }

  /** Why a step of a level is not started, if so; `failed` is the level's failure flag. */
  function SkipReason(step: StepDef, failed: bool, done: seq<StepResult>, env: RunEnv): Option<string> {
    if env.cancelled(|done|) then Some("cancelled")
    else if failed then Some("prior step failed")
    else if env.timedOut(|done|) then Some("flow timeout exceeded")
    else if !ConditionAllows(step, env, done) then Some("condition not met")
    else None
  }

  /** The record after a forest is executed with `done` already on record. */
  function Tree(steps: seq<StepDef>, failed: bool, done: seq<StepResult>, env: RunEnv): seq<StepResult>
    decreases steps
  {
    if steps == [] then done
    else
      var (failed', done') := Branch(steps[0], failed, done, env);
      Tree(steps[1..], failed', done', env)
  }

  /** The failure flag and the record after one step of a level and its sub-steps. */
  function Branch(step: StepDef, failed: bool, done: seq<StepResult>, env: RunEnv): (bool, seq<StepResult>)
    decreases step
  {
    match SkipReason(step, failed, done, env)
    case Some(reason) => (failed, done + SkipTree(step, reason))
    case None =>
      var result := ExecutedResult(step.id, env.exec(|done|, step));
      if result.status == Completed then (false, Tree(step.subSteps, false, done + [result], env))
      else (true, done + [result] + Skips(Preorder(step.subSteps), "parent step failed"))
  }

  function SkipTree(step: StepDef, reason: string): seq<StepResult> {
    [SkippedResult(step.id, reason)] + Skips(Preorder(step.subSteps), reason)
  }

  method SkipStepAndChildren(step: StepDef, reason: string, results: seq<StepResult>) returns (results': seq<StepResult>)
    ensures results' == results + SkipTree(step, reason)
    decreases step, 1
  {
    results' := results + [SkippedResult(step.id, reason)];
    results' := SkipChildren(step, reason, results');
  }

  method SkipChildren(step: StepDef, reason: string, results: seq<StepResult>) returns (results': seq<StepResult>)
    ensures results' == results + Skips(Preorder(step.subSteps), reason)
    decreases step, 0
  {
    results' := results;
    var subs := step.subSteps;
    for i := 0 to |subs|
      invariant results' + Skips(Preorder(subs[i..]), reason) == results + Skips(Preorder(subs), reason)
    {
      var sub := subs[i];
      ghost var before := results';
      results' := SkipStepAndChildren(sub, reason, results');
      assert subs[i..][0] == sub && subs[i..][1..] == subs[i + 1..];
      PreorderSkips(subs[i..], reason);
    }
    assert subs[|subs|..] == [];
  }

  lemma PreorderSkips(steps: seq<StepDef>, reason: string)
    requires steps != []
    ensures Skips(Preorder(steps), reason) == SkipTree(steps[0], reason) + Skips(Preorder(steps[1..]), reason)
  {
    var below, after := Preorder(steps[0].subSteps), Preorder(steps[1..]);
    PreorderUnfolds(steps);
    assert Skips([steps[0]], reason) == [SkippedResult(steps[0].id, reason)];
    SkipsConcat([steps[0]] + below, after, reason);
    SkipsConcat([steps[0]], below, reason);
    hide Preorder, Skips;
  }

  lemma PreorderUnfolds(steps: seq<StepDef>)
    requires steps != []
    ensures Preorder(steps) == [steps[0]] + Preorder(steps[0].subSteps) + Preorder(steps[1..])
  {
  }

  method ExecuteTree(steps: seq<StepDef>, env: RunEnv, results: seq<StepResult>) returns (results': seq<StepResult>)
    ensures results' == Tree(steps, false, results, env)
    decreases steps
  {
    results' := results;
    var failed := false;
    for i := 0 to |steps|
      invariant Tree(steps[i..], failed, results', env) == Tree(steps, false, results, env)
    {
      var step := steps[i];
      assert steps[i..][0] == step && steps[i..][1..] == steps[i + 1..];
      var n := |results'|;
      if env.cancelled(n) || failed {
        var reason := if env.cancelled(n) then "cancelled" else "prior step failed";
        results' := SkipStepAndChildren(step, reason, results');
      } else if env.timedOut(n) {
        results' := SkipStepAndChildren(step, "flow timeout exceeded", results');
      } else if step.condition.Some? && env.verdict(step, results') == DoesNotHold {
        results' := SkipStepAndChildren(step, "condition not met", results');
      } else {
        var result := ExecutedResult(step.id, env.exec(n, step));
        results' := results' + [result];
        if result.status == Completed {
          results' := ExecuteTree(step.subSteps, env, results');
        } else {
          results' := SkipChildren(step, "parent step failed", results');
          failed := true;
        }
      }
    }
    assert steps[|steps|..] == [];
  }

  // ---------- Addresses of steps in the forest ----------

  // A path of child indices from the top level down.
  type Address = seq<nat>

  predicate IsAddress(steps: seq<StepDef>, a: Address) {
    a != [] && a[0] < |steps| && (|a| > 1 ==> IsAddress(steps[a[0]].subSteps, a[1..]))
  }

  function StepAt(steps: seq<StepDef>, a: Address): StepDef
    requires IsAddress(steps, a)
  {
    if |a| == 1 then steps[a[0]] else StepAt(steps[a[0]].subSteps, a[1..])
  }

  /** How many steps the pre-order traversal visits before the k-th tree. */
  function Start(steps: seq<StepDef>, k: nat): nat
    requires k <= |steps|
  {
    |Preorder(steps[..k])|
  }

  /** Where the step stands in the pre-order traversal. */
  function Position(steps: seq<StepDef>, a: Address): nat
    requires IsAddress(steps, a)
  {
    Start(steps, a[0]) + if |a| == 1 then 0 else 1 + Position(steps[a[0]].subSteps, a[1..])
  }

  lemma {:induction false} PositionIsPreorder(steps: seq<StepDef>, a: Address)
    requires IsAddress(steps, a)
    ensures Position(steps, a) < |Preorder(steps)| && Preorder(steps)[Position(steps, a)] == StepAt(steps, a)
    decreases |a|
  {
    var k := a[0];
    assert steps == steps[..k] + steps[k..] && steps[k..][0] == steps[k];
    PreorderConcat(steps[..k], steps[k..]);
    if |a| > 1 {
      PositionIsPreorder(steps[k].subSteps, a[1..]);
    }
  }

  // ---------- The ids are the pre-order traversal ----------

  lemma {:induction false} TreeIds(steps: seq<StepDef>, failed: bool, done: seq<StepResult>, env: RunEnv)
    ensures Extends(done, Preorder(steps), Tree(steps, failed, done, env))
    decreases steps
  {
    if steps != [] {
      BranchIds(steps[0], failed, done, env);
      var (failed', done') := Branch(steps[0], failed, done, env);
      TreeIds(steps[1..], failed', done', env);
      ExtendsTwice(done, [steps[0]] + Preorder(steps[0].subSteps), done', Preorder(steps[1..]),
                   Tree(steps, failed, done, env));
    } else {
      assert Ids([]) == [];
    }
  }

  lemma {:induction false} BranchIds(step: StepDef, failed: bool, done: seq<StepResult>, env: RunEnv)
    ensures Extends(done, [step] + Preorder(step.subSteps), Branch(step, failed, done, env).1)
    decreases step
  {
    if SkipReason(step, failed, done, env) == None {
      var result := ExecutedResult(step.id, env.exec(|done|, step));
      if result.status == Completed {
        TreeIds(step.subSteps, false, done + [result], env);
        ExtendsTwice(done, [step], done + [result], Preorder(step.subSteps), Branch(step, failed, done, env).1);
      }
    }
  }

  /** `after` is `before` with one more result for each of `steps`, in order. */
  ghost predicate Extends(before: seq<StepResult>, steps: seq<StepDef>, after: seq<StepResult>) {
    && |after| == |before| + |steps|
    && after[..|before|] == before
    && forall i :: 0 <= i < |steps| ==> after[|before| + i].stepId == steps[i].id
  }

  lemma ExtendsTwice(a: seq<StepResult>, s: seq<StepDef>, b: seq<StepResult>, t: seq<StepDef>, c: seq<StepResult>)
    requires Extends(a, s, b) && Extends(b, t, c)
    ensures Extends(a, s + t, c)
  {
    assert c[..|a|] == c[..|b|][..|a|];
    forall i | 0 <= i < |s + t|
      ensures c[|a| + i].stepId == (s + t)[i].id
    {
      if i < |s| {
        assert c[|a| + i] == c[..|b|][|a| + i];
      } else {
        assert c[|b| + (i - |s|)].stepId == t[i - |s|].id;
      }
    }
  }

  /** Whatever fails, is cancelled, times out or is skipped, the result ids of a run are the
      pre-order traversal of the forest. */
  lemma ResultsFollowPreorder(steps: seq<StepDef>, env: RunEnv)
    ensures ResultIds(Tree(steps, false, [], env)) == Ids(Preorder(steps))
  {
    TreeIds(steps, false, [], env);
  }

  // ---------- Which handlers run ----------

  // Where a step's surroundings leave it: free to be looked at, after a failed sibling, or below a step that
  // did not complete, which gives the reason.
  datatype Standing = Clear | AfterFailure | Below(reason: string)

  predicate FailedAt(steps: seq<StepDef>, base: nat, res: seq<StepResult>, j: nat)
    requires j <= |steps|
  {
    base + Start(steps, j) < |res| && res[base + Start(steps, j)].status == Failed
  }

  /** One of the first k steps of the level failed. */
  ghost predicate FailedBefore(steps: seq<StepDef>, base: nat, res: seq<StepResult>, k: nat)
    requires k <= |steps|
  {
    exists j :: 0 <= j < k && FailedAt(steps, base, res, j)
  }

  /** What the record shows of the ancestors of the step and its earlier siblings. `base` is where the forest's
      results start. */
  ghost function StandingOf(steps: seq<StepDef>, base: nat, res: seq<StepResult>, a: Address): Standing
    requires IsAddress(steps, a) && base + |Preorder(steps)| <= |res|
    decreases |a|
  {
    StartBound(steps, a[0]);
    if |a| == 1 then
      if FailedBefore(steps, base, res, a[0]) then AfterFailure else Clear
    else
      var r := res[base + Start(steps, a[0])];
      if r.status == Completed then StandingOf(steps[a[0]].subSteps, base + Start(steps, a[0]) + 1, res, a[1..])
      else Below(BelowReason(r))
  }

  function ReasonOf(r: StepResult): string {
    match r.error
    case Some(reason) => reason
    case None => ""
  }

  /** A level that has failed already leaves its own steps after a failure. */
  function Flagged(standing: Standing, failed: bool): Standing {
    if failed && standing.Clear? then AfterFailure else standing
  }

  lemma StartBound(steps: seq<StepDef>, k: nat)
    requires k < |steps|
    ensures Start(steps, k) + 1 + |Preorder(steps[k].subSteps)| <= |Preorder(steps)|
  {
    assert steps == steps[..k] + steps[k..] && steps[k..][0] == steps[k];
    PreorderConcat(steps[..k], steps[k..]);
  }

  /** The step at `a` has the result its surroundings, the token, the clock and its condition leave it. */
  ghost predicate Decided(steps: seq<StepDef>, failed: bool, base: nat, env: RunEnv, res: seq<StepResult>, a: Address)
    requires IsAddress(steps, a) && base + |Preorder(steps)| <= |res|
  {
    PositionIsPreorder(steps, a);
    var i, step := base + Position(steps, a), StepAt(steps, a);
    DecidedAt(i, step, Flagged(StandingOf(steps, base, res, a), |a| == 1 && failed), env, res)
  }

  /** Position i holds what the step's handler gave if nothing kept it from running, else a skip that names
      what did: of a step below one that did not complete, that one's reason or failure. */
  ghost predicate DecidedAt(i: nat, step: StepDef, standing: Standing, env: RunEnv, res: seq<StepResult>)
    requires i < |res|
  {
    var r := res[i];
    && r.stepId == step.id
    && match standing {
         case Below(reason) => RecordsSkip(r, reason)
         case _ =>
           if env.cancelled(i) then RecordsSkip(r, "cancelled")
           else if standing.AfterFailure? then RecordsSkip(r, "prior step failed")
           else if env.timedOut(i) then RecordsSkip(r, "flow timeout exceeded")
           else if step.condition.Some? && env.verdict(step, res[..i]) == DoesNotHold then RecordsSkip(r, "condition not met")
           else RecordsOutcome(r, env.exec(i, step))
       }
  }

  /** In every hierarchical run a handler runs exactly when all ancestors of its step completed, no
      earlier sibling failed, and neither cancellation, timeout nor its condition stops it. */
  lemma HandlersRunExactlyWhenClear(steps: seq<StepDef>, env: RunEnv, a: Address)
    requires IsAddress(steps, a)
    ensures |Tree(steps, false, [], env)| == |Preorder(steps)|
    ensures Decided(steps, false, 0, env, Tree(steps, false, [], env), a)
  {
    TreeIds(steps, false, [], env);
    TreeDecides(steps, false, [], env, a);
  }

  lemma {:induction false} StandingIsStable(steps: seq<StepDef>, base: nat, res: seq<StepResult>, more: seq<StepResult>, a: Address)
    requires IsAddress(steps, a) && base + |Preorder(steps)| <= |res| && res <= more
    ensures StandingOf(steps, base, res, a) == StandingOf(steps, base, more, a)
    decreases |a|
  {
    StartBound(steps, a[0]);
    if |a| == 1 {
      forall j | 0 <= j < a[0]
        ensures FailedAt(steps, base, res, j) == FailedAt(steps, base, more, j)
      {
        StartBound(steps, j);
      }
      assert FailedBefore(steps, base, res, a[0]) == FailedBefore(steps, base, more, a[0]);
    } else {
      StandingIsStable(steps[a[0]].subSteps, base + Start(steps, a[0]) + 1, res, more, a[1..]);
    }
  }

  lemma DecidedIsStable(steps: seq<StepDef>, failed: bool, base: nat, env: RunEnv, res: seq<StepResult>,
      more: seq<StepResult>, a: Address)
    requires IsAddress(steps, a) && base + |Preorder(steps)| <= |res| && res <= more
    requires Decided(steps, failed, base, env, res, a)
    ensures Decided(steps, failed, base, env, more, a)
  {
    PositionIsPreorder(steps, a);
    StandingIsStable(steps, base, res, more, a);
    var i := base + Position(steps, a);
    assert res[..i] == more[..i];
  }

  lemma {:induction false} TreeDecides(steps: seq<StepDef>, failed: bool, done: seq<StepResult>, env: RunEnv, a: Address)
    requires IsAddress(steps, a)
    ensures |done| + |Preorder(steps)| <= |Tree(steps, failed, done, env)|
    ensures Decided(steps, failed, |done|, env, Tree(steps, failed, done, env), a)
    decreases steps, 1
  {
    TreeIds(steps, failed, done, env);
    if a[0] == 0 {
      HeadDecides(steps, failed, done, env, a);
    } else {
      var (failed', done') := Branch(steps[0], failed, done, env);
      var a' := [a[0] - 1] + a[1..];
      assert a'[1..] == a[1..];
      TreeDecides(steps[1..], failed', done', env, a');
      ShiftDecided(steps, failed, done, env, a, a');
    }
  }

  lemma BranchIsPrefix(steps: seq<StepDef>, failed: bool, done: seq<StepResult>, env: RunEnv)
    requires steps != []
    ensures var record := Branch(steps[0], failed, done, env).1;
      record <= Tree(steps, failed, done, env) && |record| == |done| + 1 + |Preorder(steps[0].subSteps)|
      && done <= record
  {
    BranchIds(steps[0], failed, done, env);
    var (failed', done') := Branch(steps[0], failed, done, env);
    TreeIds(steps[1..], failed', done', env);
  }

  lemma FirstStart(steps: seq<StepDef>)
    ensures Start(steps, 0) == 0
  {
  }

  lemma {:induction false} HeadDecides(steps: seq<StepDef>, failed: bool, done: seq<StepResult>, env: RunEnv, a: Address)
    requires IsAddress(steps, a) && a[0] == 0
    requires |done| + |Preorder(steps)| <= |Tree(steps, failed, done, env)|
    ensures Decided(steps, failed, |done|, env, Tree(steps, failed, done, env), a)
    decreases steps, 0
  {
    var res, sub := Tree(steps, failed, done, env), steps[0].subSteps;
    var record := Branch(steps[0], failed, done, env).1;
    BranchIsPrefix(steps, failed, done, env);
    BranchHead(steps[0], failed, done, env);
    if |a| == 1 {
      assert a == [0];
      LeafDecides(steps, failed, done, env, res);
    } else if SkipReason(steps[0], failed, done, env) == None
              && HeadResult(steps[0], failed, done, env).status == Completed {
      hide Tree, Preorder, Decided;
      TreeDecides(sub, false, done + [HeadResult(steps[0], failed, done, env)], env, a[1..]);
      DecidedIsStable(sub, false, |done| + 1, env, record, res, a[1..]);
      InnerDecided(steps, failed, done, env, res, a);
    } else {
      SkippedBelow(steps, failed, done, env, res, a);
    }
  }

  /** Below a step that did not complete every address is skipped. */
  lemma SkippedBelow(steps: seq<StepDef>, failed: bool, done: seq<StepResult>, env: RunEnv, res: seq<StepResult>, a: Address)
    requires IsAddress(steps, a) && a[0] == 0 && |a| > 1 && |done| + |Preorder(steps)| <= |res|
    requires Branch(steps[0], failed, done, env).1 <= res
    requires SkipReason(steps[0], failed, done, env).Some? || HeadResult(steps[0], failed, done, env).status != Completed
    ensures Decided(steps, failed, |done|, env, res, a)
  {
    hide *;
    BelowFacts(steps, failed, done, env, res, a);
    StandingBelow(steps, |done|, res, a);
    SkippedIsDecided(|done| + Position(steps, a), StepAt(steps, a), BelowReason(res[|done|]), env, res);
    DecidedParts(steps, failed, |done|, env, res, a);
  }

  lemma BelowFacts(steps: seq<StepDef>, failed: bool, done: seq<StepResult>, env: RunEnv, res: seq<StepResult>, a: Address)
    requires IsAddress(steps, a) && a[0] == 0 && |a| > 1 && |done| + |Preorder(steps)| <= |res|
    requires Branch(steps[0], failed, done, env).1 <= res
    requires SkipReason(steps[0], failed, done, env).Some? || HeadResult(steps[0], failed, done, env).status != Completed
    ensures var i := |done| + Position(steps, a);
      |done| < i < |res| && RecordsSkip(res[i], BelowReason(res[|done|])) && res[i].stepId == StepAt(steps, a).id
    ensures res[|done|].status != Completed
    ensures Flagged(Below(BelowReason(res[|done|])), |a| == 1 && failed) == Below(BelowReason(res[|done|]))
  {
    var sub, record := steps[0].subSteps, Branch(steps[0], failed, done, env).1;
    var p := Position(sub, a[1..]);
    FirstStart(steps);
    PositionIsPreorder(sub, a[1..]);
    hide Tree, Preorder, Branch, SkipReason, HeadResult;
    BranchSkips(steps[0], failed, done, env, p);
    assert Position(steps, a) == 1 + p && StepAt(steps, a) == StepAt(sub, a[1..]);
    assert res[|done|] == record[|done|] && res[|done| + 1 + p] == record[|done| + 1 + p];
  }

  /** Why the steps below one that did not complete are skipped. */
  function BelowReason(r: StepResult): string {
    if r.status == Failed then "parent step failed" else ReasonOf(r)
  }

  lemma StandingBelow(steps: seq<StepDef>, base: nat, res: seq<StepResult>, a: Address)
    requires IsAddress(steps, a) && |a| > 1 && a[0] == 0 && base + |Preorder(steps)| <= |res|
    ensures base < |res|
    ensures res[base].status != Completed ==> StandingOf(steps, base, res, a) == Below(BelowReason(res[base]))
  {
    hide Start, Preorder, IsAddress, FailedBefore, BelowReason;
    AddressHead(steps, a);
    StartBound(steps, 0);
    FirstStart(steps);
  }

  lemma AddressHead(steps: seq<StepDef>, a: Address)
    requires IsAddress(steps, a)
    ensures a != [] && a[0] < |steps| && (|a| > 1 ==> IsAddress(steps[a[0]].subSteps, a[1..]))
  {
  }

  lemma SkippedIsDecided(i: nat, step: StepDef, reason: string, env: RunEnv, res: seq<StepResult>)
    requires i < |res| && RecordsSkip(res[i], reason) && res[i].stepId == step.id
    ensures DecidedAt(i, step, Below(reason), env, res)
  {
  }

  /** A step that did not complete leaves every step below it skipped. */
  lemma BranchSkips(step: StepDef, failed: bool, done: seq<StepResult>, env: RunEnv, p: nat)
    requires SkipReason(step, failed, done, env).Some? || HeadResult(step, failed, done, env).status != Completed
    requires p < |Preorder(step.subSteps)|
    ensures var record := Branch(step, failed, done, env).1;
      && |record| == |done| + 1 + |Preorder(step.subSteps)| && record[|done|].status != Completed
      && RecordsSkip(record[|done| + 1 + p], BelowReason(record[|done|]))
      && record[|done| + 1 + p].stepId == Preorder(step.subSteps)[p].id
  {
    hide Tree, Preorder;
  }

  lemma InnerDecided(steps: seq<StepDef>, failed: bool, done: seq<StepResult>, env: RunEnv, res: seq<StepResult>, a: Address)
    requires IsAddress(steps, a) && a[0] == 0 && |a| > 1
    requires |done| + |Preorder(steps)| <= |res| && |done| + 1 + |Preorder(steps[0].subSteps)| <= |res|
    requires res[|done|].status == Completed
    requires Decided(steps[0].subSteps, false, |done| + 1, env, res, a[1..])
    ensures Decided(steps, failed, |done|, env, res, a)
  {
    hide Preorder;
    FirstStart(steps);
    PositionIsPreorder(steps, a);
  }

  /** The first step's own result. */
  function HeadResult(step: StepDef, failed: bool, done: seq<StepResult>, env: RunEnv): StepResult {
    match SkipReason(step, failed, done, env)
    case Some(reason) => SkippedResult(step.id, reason)
    case None => ExecutedResult(step.id, env.exec(|done|, step))
  }

  lemma BranchHead(step: StepDef, failed: bool, done: seq<StepResult>, env: RunEnv)
    ensures done + [HeadResult(step, failed, done, env)] <= Branch(step, failed, done, env).1
  {
    if SkipReason(step, failed, done, env) == None
       && ExecutedResult(step.id, env.exec(|done|, step)).status == Completed {
      TreeIds(step.subSteps, false, done + [ExecutedResult(step.id, env.exec(|done|, step))], env);
    }
  }

  lemma LeafDecides(steps: seq<StepDef>, failed: bool, done: seq<StepResult>, env: RunEnv, res: seq<StepResult>)
    requires steps != [] && |done| + |Preorder(steps)| <= |res|
    requires done + [HeadResult(steps[0], failed, done, env)] <= res
    ensures Decided(steps, failed, |done|, env, res, [0])
  {
    hide Preorder;
    FirstStart(steps);
    PositionIsPreorder(steps, [0]);
    assert res[|done|] == HeadResult(steps[0], failed, done, env) && res[..|done|] == done;
  }

  lemma StartShifts(steps: seq<StepDef>, k: nat)
    requires 0 < k <= |steps|
    ensures Start(steps, k) == 1 + |Preorder(steps[0].subSteps)| + Start(steps[1..], k - 1)
  {
    assert steps[..k][0] == steps[0] && steps[..k][1..] == steps[1..][..k - 1];
  }

  lemma BranchFlag(step: StepDef, failed: bool, done: seq<StepResult>, env: RunEnv)
    ensures var (failed', done') := Branch(step, failed, done, env);
      |done'| > |done| && (failed' <==> failed || done'[|done|].status == Failed)
  {
    BranchHead(step, failed, done, env);
  }

  /** The same step's address once the first step of the forest is dropped. */
  predicate Shifted(steps: seq<StepDef>, a: Address, a': Address) {
    IsAddress(steps, a) && a[0] > 0 && a' == [a[0] - 1] + a[1..] && IsAddress(steps[1..], a')
  }

  lemma ShiftDecided(steps: seq<StepDef>, failed: bool, done: seq<StepResult>, env: RunEnv, a: Address, a': Address)
    requires Shifted(steps, a, a')
    requires |done| + |Preorder(steps)| <= |Tree(steps, failed, done, env)|
    requires var (failed', done') := Branch(steps[0], failed, done, env);
      && |done'| + |Preorder(steps[1..])| <= |Tree(steps, failed, done, env)|
      && Decided(steps[1..], failed', |done'|, env, Tree(steps, failed, done, env), a')
    ensures Decided(steps, failed, |done|, env, Tree(steps, failed, done, env), a)
  {
    var res := Tree(steps, failed, done, env);
    var (failed', done') := Branch(steps[0], failed, done, env);
    BranchIsPrefix(steps, failed, done, env);
    BranchFlag(steps[0], failed, done, env);
    hide Tree, Branch;
    assert res[|done|] == done'[|done|];
    DecidedShifts(steps, failed, failed', |done|, |done'|, env, res, a, a');
  }

  lemma PositionShifts(steps: seq<StepDef>, a: Address, a': Address)
    requires Shifted(steps, a, a')
    ensures StepAt(steps[1..], a') == StepAt(steps, a)
    ensures Position(steps, a) == 1 + |Preorder(steps[0].subSteps)| + Position(steps[1..], a')
    ensures |a| == |a'|
  {
    hide Preorder;
    assert a'[1..] == a[1..];
    StartShifts(steps, a[0]);
  }

  lemma ShiftedAddresses(steps: seq<StepDef>, a: Address, a': Address)
    requires Shifted(steps, a, a')
    ensures steps != [] && IsAddress(steps, a) && IsAddress(steps[1..], a') && |a'| == |a|
  {
  }

  lemma DecidedShifts(steps: seq<StepDef>, failed: bool, failed': bool, base: nat, base': nat, env: RunEnv,
      res: seq<StepResult>, a: Address, a': Address)
    requires Shifted(steps, a, a')
    requires base + |Preorder(steps)| <= |res| && base' + |Preorder(steps[1..])| <= |res|
    requires base' == base + 1 + |Preorder(steps[0].subSteps)|
    requires failed' <==> failed || res[base].status == Failed
    requires Decided(steps[1..], failed', base', env, res, a')
    ensures Decided(steps, failed, base, env, res, a)
  {
    hide *;
    ShiftedAddresses(steps, a, a');
    PositionShifts(steps, a, a');
    PathShifts(steps, failed, failed', base, base', res, a, a');
    DecidedParts(steps[1..], failed', base', env, res, a');
    DecidedParts(steps, failed, base, env, res, a);
  }

  lemma DecidedParts(steps: seq<StepDef>, failed: bool, base: nat, env: RunEnv, res: seq<StepResult>, a: Address)
    requires IsAddress(steps, a) && base + |Preorder(steps)| <= |res|
    ensures base + Position(steps, a) < |res|
    ensures Decided(steps, failed, base, env, res, a) <==>
      DecidedAt(base + Position(steps, a), StepAt(steps, a), Flagged(StandingOf(steps, base, res, a), |a| == 1 && failed), env, res)
  {
    PositionIsPreorder(steps, a);
    hide Preorder, StandingOf, DecidedAt, Position, StepAt, Start;
  }

  lemma PathShifts(steps: seq<StepDef>, failed: bool, failed': bool, base: nat, base': nat, res: seq<StepResult>,
      a: Address, a': Address)
    requires Shifted(steps, a, a')
    requires base + |Preorder(steps)| <= |res| && base' + |Preorder(steps[1..])| <= |res|
    requires base' == base + 1 + |Preorder(steps[0].subSteps)|
    requires failed' <==> failed || res[base].status == Failed
    ensures Flagged(StandingOf(steps, base, res, a), |a| == 1 && failed)
         == Flagged(StandingOf(steps[1..], base', res, a'), |a'| == 1 && failed')
  {
    hide Preorder;
    if |a| == 1 {
      assert a == [a[0]] && a' == [a[0] - 1];
      hide FailedBefore;
      ClearShifts(steps, base, base', res, a[0]);
    } else {
      assert a'[1..] == a[1..];
      StartShifts(steps, a[0]);
    }
  }

  lemma ClearShifts(steps: seq<StepDef>, base: nat, base': nat, res: seq<StepResult>, k: nat)
    requires 0 < k < |steps| && base + |Preorder(steps)| <= |res|
    requires base' == base + 1 + |Preorder(steps[0].subSteps)| && base' + |Preorder(steps[1..])| <= |res|
    ensures base < |res| && (FailedBefore(steps, base, res, k) <==>
      res[base].status == Failed || FailedBefore(steps[1..], base', res, k - 1))
  {
    FirstFailure(steps, base, res);
    forall j | 0 < j < k
      ensures FailedAt(steps, base, res, j) <==> FailedAt(steps[1..], base', res, j - 1)
    {
      ShiftedFailure(steps, base, base', res, j);
    }
    hide Start, Preorder, FailedAt;
    if j :| 0 <= j < k - 1 && FailedAt(steps[1..], base', res, j) {
      assert FailedAt(steps, base, res, j + 1);
    }
  }

  lemma FirstFailure(steps: seq<StepDef>, base: nat, res: seq<StepResult>)
    requires steps != [] && base + |Preorder(steps)| <= |res|
    ensures base < |res| && (FailedAt(steps, base, res, 0) <==> res[base].status == Failed)
  {
    StartBound(steps, 0);
    FirstStart(steps);
  }

  lemma ShiftedFailure(steps: seq<StepDef>, base: nat, base': nat, res: seq<StepResult>, j: nat)
    requires 0 < j < |steps| && base' == base + 1 + |Preorder(steps[0].subSteps)|
    ensures FailedAt(steps, base, res, j) <==> FailedAt(steps[1..], base', res, j - 1)
  {
    StartShifts(steps, j);
    hide Start, Preorder;
  }

  // ---------- A forest of leaves ----------

  lemma LeafBranch(step: StepDef, failed: bool, done: seq<StepResult>, env: RunEnv)
    requires step.subSteps == [] && (failed <==> HasFailures(done))
    ensures var r := Decide(step, done, env);
      Branch(step, failed, done, env) == (failed || r.status == Failed, done + [r])
  {
    var reason := SkipReason(step, failed, done, env);
    var result := ExecutedResult(step.id, env.exec(|done|, step));
    if reason.Some? {
      assert SkipTree(step, reason.value) == [SkippedResult(step.id, reason.value)];
    } else if result.status != Completed {
      assert Skips(Preorder(step.subSteps), "parent step failed") == [];
      assert done + [result] + [] == done + [result];
    }
  }

  lemma {:induction false} LeavesStep(steps: seq<StepDef>, failed: bool, done: seq<StepResult>, env: RunEnv, before: seq<StepDef>)
    requires SequentialOutcome(before, env, done) && (failed <==> HasFailures(done))
    requires forall s :: s in steps ==> s.subSteps == []
    ensures SequentialOutcome(before + steps, env, Tree(steps, failed, done, env))
    decreases |steps|
  {
    if steps == [] {
      assert before + steps == before;
    } else {
      var step := steps[0];
      var (failed', done') := Branch(step, failed, done, env);
      assert step in steps;
      LeafBranch(step, failed, done, env);
      OutcomeAppend(before, step, env, done);
      assert before + steps == before + [step] + steps[1..];
      LeavesStep(steps[1..], failed', done', env, before + [step]);
    }
  }

  /** On a forest of leaves hierarchical execution is sequential execution. */
  method AgreesWithSequential(steps: seq<StepDef>, env: RunEnv)
    returns (tree: seq<StepResult>, line: seq<StepResult>)
    requires forall s :: s in steps ==> s.subSteps == []
    ensures tree == line && SequentialOutcome(steps, env, tree)
  {
    tree := ExecuteTree(steps, env, []);
    line := RunSequential(steps, env);
    LeavesStep(steps, false, [], env, []);
    assert [] + steps == steps;
    OutcomeIsUnique(steps, env, tree, line, |steps|);
    assert tree[..|steps|] == tree && line[..|steps|] == line;
  }

  /** A whole hierarchical run. */
  method RunHierarchical(steps: seq<StepDef>, env: RunEnv) returns (results: seq<StepResult>)
    ensures |results| == |Preorder(steps)| && ResultIds(results) == Ids(Preorder(steps))
    ensures forall a :: IsAddress(steps, a) ==> Decided(steps, false, 0, env, results, a)
  {
    results := ExecuteTree(steps, env, []);
    ResultsFollowPreorder(steps, env);
    TreeIds(steps, false, [], env);
    forall a | IsAddress(steps, a)
      ensures Decided(steps, false, 0, env, results, a)
    {
      HandlersRunExactlyWhenClear(steps, env, a);
    }
  }
}
