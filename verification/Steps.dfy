/** Workflow steps and their results (rust-old/src/step.rs). */
module Steps {
  import opened Wrappers

  // The source's UUIDs: opaque values of which only equality matters.
  type StepId = nat

  datatype TriggerMode = All | Any

  datatype BackoffStrategy = Fixed | Linear | Exponential

  datatype StepStatus = Pending | Running | Completed | Failed | Skipped | RolledBack

  datatype StepDef = StepDef(
    id: StepId,
    name: string,
    timeoutMs: nat,
    maxRetries: nat,
    retryDelayMs: nat,
    backoff: BackoffStrategy,
    rollbackable: bool,
    condition: Option<string>,
    dependsOn: seq<StepId>,
    triggerMode: TriggerMode,
    subSteps: seq<StepDef>)

  datatype StepResult = StepResult(
    stepId: StepId,
    status: StepStatus,
    attempts: nat,
    error: Option<string>)

  // What running a step's handler (with its retries) comes to.
  datatype Outcome = Succeeded(attempts: nat) | Errored(attempts: nat, error: string) | Panicked(payload: string)

  // What evaluating a step's condition comes to.
  datatype Verdict = Holds | DoesNotHold | Malformed(error: string)

  function SkippedResult(id: StepId, reason: string): StepResult {
    StepResult(id, Skipped, 0, Some(reason))
  }

  /** The record made of a handler's outcome; a panicking task is recorded as failed. */
  function ExecutedResult(id: StepId, outcome: Outcome): StepResult {
    match outcome
    case Succeeded(attempts) => StepResult(id, Completed, attempts, None)
    case Errored(attempts, error) => StepResult(id, Failed, attempts, Some(error))
    case Panicked(payload) => StepResult(id, Failed, 0, Some("task panicked: " + payload))
  }

  /** The record of what the handler came to. */
  ghost predicate RecordsOutcome(r: StepResult, outcome: Outcome) {
    match outcome
    case Succeeded(n) => r.status == Completed && r.attempts == n && r.error == None
    case Errored(n, e) => r.status == Failed && r.attempts == n && r.error == Some(e)
    case Panicked(p) => r.status == Failed && r.attempts == 0 && r.error == Some("task panicked: " + p)
  }

  ghost predicate RecordsSkip(r: StepResult, reason: string) {
    r.status == Skipped && r.attempts == 0 && r.error == Some(reason)
  }

  ghost predicate HasFailures(results: seq<StepResult>) {
    exists r :: r in results && r.status == Failed
  }

  function Ids(steps: seq<StepDef>): seq<StepId> {
    seq(|steps|, i requires 0 <= i < |steps| => steps[i].id)
  }

  function ResultIds(results: seq<StepResult>): seq<StepId> {
    seq(|results|, i requires 0 <= i < |results| => results[i].stepId)
  }

  ghost predicate NoDuplicates<T>(s: seq<T>) {
    forall i, j :: 0 <= i < j < |s| ==> s[i] != s[j]
  }

  ghost predicate ListedBefore(whole: seq<StepId>, x: StepId, y: StepId) {
    exists p, q :: 0 <= p < q < |whole| && whole[p] == x && whole[q] == y
  }

  /** The ids of `sub` come in the order they have in `whole`. */
  ghost predicate KeepsOrder(sub: seq<StepId>, whole: seq<StepId>) {
    forall i, j :: 0 <= i < j < |sub| ==> ListedBefore(whole, sub[i], sub[j])
  }

  /** Step ids are pairwise distinct, as freshly generated UUIDs are. */
  ghost predicate DistinctIds(steps: seq<StepDef>) {
    NoDuplicates(Ids(steps))
  }

  /** The steps of a forest, each parent before its sub-steps, siblings in order. */
  function Preorder(steps: seq<StepDef>): seq<StepDef> {
    if steps == [] then [] else [steps[0]] + Preorder(steps[0].subSteps) + Preorder(steps[1..])
  }

  lemma {:induction false} PreorderConcat(a: seq<StepDef>, b: seq<StepDef>)
    ensures Preorder(a + b) == Preorder(a) + Preorder(b)
  {
    if a == [] {
      assert a + b == b;
    } else {
      assert (a + b)[1..] == a[1..] + b;
      PreorderConcat(a[1..], b);
    }
  }

  // Steps by id, as collected into a hash map: of two steps sharing an id the later one counts.
  type StepTable = map<StepId, StepDef>

  function TableOf(steps: seq<StepDef>): StepTable {
    if steps == [] then map[]
    else TableOf(steps[..|steps| - 1])[steps[|steps| - 1].id := steps[|steps| - 1]]
  }

  /** Each step with the ids it depends on. */
  function GraphOf(m: StepTable): map<StepId, seq<StepId>> {
    map x | x in m :: m[x].dependsOn
  }

  function IdSet(steps: seq<StepDef>): set<StepId> {
    set s | s in steps :: s.id
  }

  lemma {:induction false} TableCoversSteps(steps: seq<StepDef>)
    ensures TableOf(steps).Keys == IdSet(steps)
    ensures forall x :: x in TableOf(steps) ==> TableOf(steps)[x] in steps && TableOf(steps)[x].id == x
  {
    if steps != [] {
      var front := steps[..|steps| - 1];
      TableCoversSteps(front);
      assert steps == front + [steps[|steps| - 1]];
    }
  }

  lemma {:induction false} TableOfDistinct(steps: seq<StepDef>, i: nat)
    requires DistinctIds(steps) && i < |steps|
    ensures steps[i].id in TableOf(steps) && TableOf(steps)[steps[i].id] == steps[i]
  {
    var n := |steps| - 1;
    if i < n {
      assert forall k :: 0 <= k < n ==> Ids(steps[..n])[k] == Ids(steps)[k];
      TableOfDistinct(steps[..n], i);
      assert Ids(steps)[i] != Ids(steps)[n];
    }
  }
}
