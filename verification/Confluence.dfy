/** Distributed runs of uniform flows give each step the result the local runner gives it
    (rust-old/src/engine/distributed.rs, rust-old/src/engine/dag.rs). */
module Confluence {
  import opened Wrappers
  import opened Steps
  import opened Scheduler
  import opened Distributed
  import DagRunner

  lemma NextKeepsResults(c: Config, s: State, s': State)
    requires Next(c, s, s')
    ensures s.sched.results <= s'.sched.results
  {
    hide Unlocks, MaySubmit, DependencyFailed, ConditionAllows, Idle;
  }

  /** What is on record stays on record. */
  lemma {:induction false} ResultsGrow(c: Config, run: seq<State>, i: nat, j: nat)
    requires IsRun(c, run) && i <= j < |run|
    ensures run[i].sched.results <= run[j].sched.results
  {
    hide Next, Init;
    if i < j {
      ResultsGrow(c, run, i, j - 1);
      assert Next(c, run[j - 1], run[j - 1 + 1]);
      NextKeepsResults(c, run[j - 1], run[j]);
    }
  }

  // ---------- Confluence ----------

  /** Every distributed run of a uniform flow that empties its queue and its fleet gives the declarative
      answer. */
  lemma DistributedIsExpected(c: Config, run: seq<State>, reason: string)
    requires ConfigOk(c) && IsRun(c, run) && run[|run| - 1].pc == Exited(Drained) && !c.env.mayReject
    requires Validated(c.steps) && Uniform(TableOf(c.steps), c.env.exec)
    ensures var final := FinalResults(c, run[|run| - 1], reason);
      && ExactlyOnce(TableOf(c.steps), final)
      && forall r :: r in final ==> r == Expected(TableOf(c.steps), c.env.exec, r.stepId)
  {
    hide ConfigOk, Next, Init, Uniform, Validated, Expected, Ordered, Explained;
    LoopIsCompleteIffDrained(c, run);
    AllExpected(TableOf(c.steps), c.env, run[|run| - 1].sched.results);
  }

  ghost predicate SameResults(a: seq<StepResult>, b: seq<StepResult>) {
    forall r, q :: r in a && q in b && r.stepId == q.stepId ==> r == q
  }

  /** The local runner and any distributed run of the same flow record the same result for every
      step, each of them exactly once. */
  method AgreesWithLocal(c: Config, ghost run: seq<State>) returns (local: seq<StepResult>)
    requires ConfigOk(c) && IsRun(c, run) && run[|run| - 1].pc == Exited(Drained) && !c.env.mayReject
    requires Validated(c.steps) && Uniform(TableOf(c.steps), c.env.exec)
    ensures ExactlyOnce(TableOf(c.steps), local)
    ensures ExactlyOnce(TableOf(c.steps), FinalResults(c, run[|run| - 1], "not scheduled"))
    ensures SameResults(local, FinalResults(c, run[|run| - 1], "not scheduled"))
    ensures forall r :: r in local ==> r == Expected(TableOf(c.steps), c.env.exec, r.stepId)
  {
    hide IsRun, Uniform, Expected, Ordered, Explained;
    ghost var executed;
    local, executed := DagRunner.RunDag(c.steps, c.env, wave => None);
    assert local[..executed] == local;
    AllExpected(TableOf(c.steps), c.env, local);
    DistributedIsExpected(c, run, "not scheduled");
  }
}
