/** Which distributed runs wait forever: a worker that died takes its step with it, and the coordinator
    waits for the report as long as another worker lives (rust-old/src/engine/distributed.rs). */
module Hanging {
  import opened Wrappers
  import opened Steps
  import opened Graph
  import opened Scheduler
  import opened Distributed
  import opened Termination
  import DagRunner

  ghost predicate CanHang(c: Config) {
    exists run :: IsRun(c, run) && Hung(c, run[|run| - 1])
  }

  /** A step whose handler panics, and which no failing dependency keeps from being started. */
  ghost predicate Killer(c: Config, p: StepId) {
    p in TableOf(c.steps) && c.env.exec(p).Panicked? && !Doomed(TableOf(c.steps), c.env.exec, p)
  }

  // ---------- Panics leave no result ----------

  ghost predicate PanicOnRecord(c: Config, r: StepResult) {
    c.env.exec(r.stepId).Panicked? && r == ExecutedResult(r.stepId, c.env.exec(r.stepId))
  }

  lemma NextRecordsNoPanic(c: Config, s: State, s': State)
    requires Honest(c, s) && Next(c, s, s') && forall r :: r in s.sched.results ==> !PanicOnRecord(c, r)
    ensures forall r :: r in s'.sched.results ==> !PanicOnRecord(c, r)
  {
    hide Unlocks, MaySubmit, DependencyFailed, ConditionAllows, Idle, PanicOnRecord, AtHead, Honest;
    if SkipFailed(c, s, s') || SkipCondition(c, s, s') || Refuse(c, s, s') {
      var id := s.sched.ready[0];
      SkipsAreNoPanics(c, id, "dependency failed");
      SkipsAreNoPanics(c, id, "condition not met");
    } else if Receive(c, s, s') {
      ReportsAreNoPanics(c, s, s.channel[0]);
    }
  }

  lemma SkipsAreNoPanics(c: Config, id: StepId, reason: string)
    ensures !PanicOnRecord(c, SkippedResult(id, reason))
    ensures !PanicOnRecord(c, StepResult(id, Failed, 0, Some(REJECTED)))
  {
    assert REJECTED[0] != "task panicked: "[0];
  }

  lemma ReportsAreNoPanics(c: Config, s: State, r: StepResult)
    requires Honest(c, s) && r in s.channel
    ensures !PanicOnRecord(c, r)
  {
  }

  lemma {:induction false} PanicsAreNotRecorded(c: Config, run: seq<State>, i: nat)
    requires ConfigOk(c) && IsRun(c, run) && i < |run|
    ensures forall r :: r in run[i].sched.results ==> !PanicOnRecord(c, r)
  {
    hide Next, ConfigOk, Good, Honest;
    if i > 0 {
      PanicsAreNotRecorded(c, run, i - 1);
      RunOk(c, run, i - 1);
      assert Next(c, run[i - 1], run[i - 1 + 1]);
      NextRecordsNoPanic(c, run[i - 1], run[i]);
    }
  }

  /** With a panicking step to start, no token and no refusals, the only way out is that all workers die. */
  lemma KillersBlockTheExit(c: Config, run: seq<State>, p: StepId)
    requires ConfigOk(c) && IsRun(c, run) && run[|run| - 1].pc.Exited?
    requires Validated(c.steps) && Uniform(TableOf(c.steps), c.env.exec) && Killer(c, p)
    requires !c.mayStop && !c.env.mayReject
    ensures run[|run| - 1].alive == {}
  {
    hide ConfigOk, Next, Init, Uniform, Validated, Expected, Ordered, Explained, Doomed, Good;
    var s := run[|run| - 1];
    RunOk(c, run, |run| - 1);
    if s.pc == Exited(Drained) {
      LoopIsCompleteIffDrained(c, run);
      AllExpected(TableOf(c.steps), c.env, s.sched.results);
      var r :| r in s.sched.results && r.stepId == p;
      SparedIsExecuted(TableOf(c.steps), c.env.exec, p);
      PanicsAreNotRecorded(c, run, |run| - 1);
    }
  }

  /** A run that sends every step to one node, and so leaves the other workers waiting. */
  lemma KillerCanHang(c: Config, p: StepId)
    requires ConfigOk(c) && Validated(c.steps) && Uniform(TableOf(c.steps), c.env.exec) && Killer(c, p)
    requires !c.mayStop && !c.env.mayReject && |c.nodes| >= 2
    ensures CanHang(c)
  {
    hide ConfigOk, Validated, Uniform, Killer, Next, Hung;
    var home :| home in c.nodes;
    var other := Another(c.nodes, home);
    var s := InitExists(c);
    var run := [s];
    assert AtHome(c, s, home);
    assert IsRun(c, run);
    run := RunGoesOnAt(c, run, home);
    RunIsNonEmpty(c, run);
    assert other in run[|run| - 1].alive;
    hide IsRun, AtHome;
    if run[|run| - 1].pc.Exited? {
      KillersBlockTheExit(c, run, p);
    }
  }

  lemma Another(nodes: set<NodeId>, n: NodeId) returns (other: NodeId)
    requires |nodes| >= 2
    ensures other in nodes && other != n
  {
    if nodes - {n} == {} {
      SubsetCardinality(nodes, {n});
    }
    other :| other in nodes - {n};
  }

  // ---------- Surroundings that allow more ----------

  /** Whatever may happen in `c'` may happen in `c`. A handler of `c'` may panic where a worker of `c` may
      crash. */
  ghost predicate Allows(c: Config, c': Config) {
    && c'.steps == c.steps && c'.dependents == c.dependents && c'.nodes == c.nodes && c'.mayStop == c.mayStop
    && c'.env.verdict == c.env.verdict && (c'.env.mayReject ==> c.env.mayReject) && (c'.mayCrash ==> c.mayCrash)
    && forall id :: c'.env.exec(id) == c.env.exec(id) || (c'.env.exec(id).Panicked? && c.mayCrash)
  }

  lemma NextAllowed(c: Config, c': Config, s: State, s': State)
    requires Allows(c, c') && Next(c', s, s')
    ensures Next(c, s, s')
  {
    hide Records, Rebalance, Receive, StopWaiting, DependencyFailed;
    if WorkerStep(c', s, s') {
      WorkerAllowed(c, c', s, s');
    } else {
      CoordinatorAllowed(c, c', s, s');
    }
  }

  lemma WorkerAllowed(c: Config, c': Config, s: State, s': State)
    requires Allows(c, c') && WorkerStep(c', s, s')
    ensures WorkerStep(c, s, s')
  {
    hide Idle;
    if id :| Dequeue(c', s, id, s') {
      assert Dequeue(c, s, id, s');
    } else if id :| Finish(c', s, id, s') {
      assert Finish(c, s, id, s');
    } else if id :| CrashBusy(c', s, id, s') {
      assert CrashBusy(c, s, id, s');
    } else {
      var node :| CrashIdle(c', s, node, s');
      assert CrashIdle(c, s, node, s');
    }
  }

  lemma CoordinatorAllowed(c: Config, c': Config, s: State, s': State)
    requires Allows(c, c') && CoordinatorStep(c', s, s')
    ensures CoordinatorStep(c, s, s')
  {
    hide Unlocks, DependencyFailed;
    if node :| Submit(c', s, node, s') {
      assert Submit(c, s, node, s');
    }
  }

  lemma HangAllowed(c: Config, c': Config)
    requires Allows(c, c') && CanHang(c')
    ensures CanHang(c)
  {
    hide Next;
    var run :| IsRun(c', run) && Hung(c', run[|run| - 1]);
    forall i | 0 <= i < |run| - 1
      ensures Next(c, run[i], run[i + 1])
    {
      NextAllowed(c, c', run[i], run[i + 1]);
    }
    assert IsRun(c, run);
  }

  // ---------- The exact condition ----------

  lemma StarterExists(c: Config) returns (p: StepId)
    requires ConfigOk(c) && Validated(c.steps) && c.steps != []
    ensures p in TableOf(c.steps) && TableOf(c.steps)[p].dependsOn == []
  {
    var s := InitExists(c);
    InitOk(c, s);
    DagRunner.StartQueueIs(c.steps);
    if s.sched.ready == [] {
      hide Good;
      GoodDrained(TableOf(c.steps), c.env, s.sched);
      StepCount(c.steps);
    }
    p := s.sched.ready[0];
  }

  lemma StarterIsSpared(m: StepTable, exec: StepId -> Outcome, p: StepId)
    requires p in m && m[p].dependsOn == []
    ensures !Doomed(m, exec, p)
  {
    if Doomed(m, exec, p) {
      var t :| Reaches(GraphOf(m), p, t) && !exec(t).Succeeded?;
      var n := ReachesFirst(GraphOf(m), p, t);
    }
  }

  lemma AllPanickingIsUniform(m: StepTable, exec: StepId -> Outcome, exec': StepId -> Outcome)
    requires Uniform(m, exec) && forall id :: exec'(id).Panicked?
    ensures Uniform(m, exec')
  {
  }

  /** Crashes can do what panics of all handlers would. */
  lemma CrashCanHang(c: Config)
    requires ConfigOk(c) && Validated(c.steps) && Uniform(TableOf(c.steps), c.env.exec)
    requires c.mayCrash && c.steps != [] && !c.mayStop && |c.nodes| >= 2
    ensures CanHang(c)
  {
    hide Validated, Uniform, Doomed;
    var p := StarterExists(c);
    var exec := (id: StepId) => Panicked("");
    var c' := c.(env := c.env.(exec := exec, mayReject := false));
    AllPanickingIsUniform(TableOf(c.steps), c.env.exec, exec);
    StarterIsSpared(TableOf(c.steps), exec, p);
    KillerCanHang(c', p);
    HangAllowed(c, c');
  }

  lemma LostIsKiller(c: Config, s: State, id: StepId)
    requires StateOk(c, s) && LostToPanic(c, s, id) && Uniform(TableOf(c.steps), c.env.exec)
    ensures Killer(c, id)
  {
    FleetIsKnown(c, s, id);
    hide Uniform, Doomed, Expected, Launched, Inv, BooksOk;
    var results := s.sched.results;
    forall r | r in results && !Blocks(r)
      ensures !Blocks(Expected(TableOf(c.steps), c.env.exec, r.stepId))
    {
      var i :| 0 <= i < |results| && results[i] == r;
      PassingIsExpected(TableOf(c.steps), c.env, results, i);
    }
    LaunchedIsSpared(TableOf(c.steps), c.env, results, id);
  }

  lemma HungNeeds(c: Config, run: seq<State>)
    requires ConfigOk(c) && IsRun(c, run) && Uniform(TableOf(c.steps), c.env.exec) && Hung(c, run[|run| - 1])
    ensures !c.mayStop && |c.nodes| >= 2 && c.steps != [] && (c.mayCrash || exists p :: Killer(c, p))
  {
    hide ConfigOk, Uniform, Killer, StateOk, Next, Hung;
    var s := run[|run| - 1];
    RunOk(c, run, |run| - 1);
    HungMeansLoss(c, s);
    if !c.mayCrash {
      var id :| LostToPanic(c, s, id);
      LostIsKiller(c, s, id);
    }
  }

  /** A uniform flow can leave the coordinator waiting forever exactly if no token or timeout ends the wait,
      there are two nodes or more, and either workers may crash or a step that gets started panics. */
  lemma CanHangIff(c: Config)
    requires ConfigOk(c) && Validated(c.steps) && Uniform(TableOf(c.steps), c.env.exec)
    ensures CanHang(c) <==>
      && !c.mayStop && |c.nodes| >= 2
      && ((c.mayCrash && c.steps != []) || exists p :: Killer(c, p))
  {
    if CanHang(c) {
      var run :| IsRun(c, run) && Hung(c, run[|run| - 1]);
      HungNeeds(c, run);
    }
    hide *;
    if !c.mayStop && |c.nodes| >= 2 {
      if p :| Killer(c, p) {
        PanicCanHang(c, p);
      } else if c.mayCrash && c.steps != [] {
        CrashCanHang(c);
      }
    }
  }

  lemma PanicCanHang(c: Config, p: StepId)
    requires ConfigOk(c) && Validated(c.steps) && Uniform(TableOf(c.steps), c.env.exec) && Killer(c, p)
    requires !c.mayStop && |c.nodes| >= 2
    ensures CanHang(c)
  {
    hide Validated, Uniform, Doomed;
    var c' := c.(env := c.env.(mayReject := false));
    KillerCanHang(c', p);
    HangAllowed(c, c');
  }

  // ---------- Flows that always hang ----------

  ghost function LostIds(s: State): set<StepId> {
    set id | id in s.fleet && s.fleet[id] == Lost
  }

  ghost function Killers(c: Config): set<StepId> {
    set p | p in TableOf(c.steps) && Killer(c, p)
  }

  lemma SameLost(s: State, s': State)
    requires forall id :: id in s.fleet && s.fleet[id] == Lost <==> id in s'.fleet && s'.fleet[id] == Lost
    ensures LostIds(s') == LostIds(s)
  {
  }

  lemma CoordinatorLosesNone(c: Config, s: State, s': State)
    requires StateOk(c, s) && CoordinatorStep(c, s, s')
    ensures s'.alive == s.alive && LostIds(s') == LostIds(s)
  {
    hide Good, BooksOk, Submit, Receive, Rebalance, LostIds, Unlocks, MaySubmit, AtHead;
    if node :| Submit(c, s, node, s') {
      SubmitLosesNone(c, s, node, s');
    } else if Receive(c, s, s') {
      ReceiveLosesNone(c, s, s');
    } else if Rebalance(c, s, s') {
      RebalanceLosesNone(c, s, s');
    } else {
      SameLost(s, s');
    }
  }

  lemma SubmitLosesNone(c: Config, s: State, node: NodeId, s': State)
    requires StateOk(c, s) && Submit(c, s, node, s')
    ensures s'.alive == s.alive && LostIds(s') == LostIds(s)
  {
    hide Good;
    SubmitGood(c, s, node, s');
    assert s.sched.ready[0] !in s.fleet;
    SameLost(s, s');
  }

  lemma ReceiveLosesNone(c: Config, s: State, s': State)
    requires StateOk(c, s) && Receive(c, s, s')
    ensures s'.alive == s.alive && LostIds(s') == LostIds(s)
  {
    hide Good, Unlocks;
    assert s.channel[0].stepId in ResolvedIds(s.channel);
    SameLost(s, s');
  }

  lemma RebalanceLosesNone(c: Config, s: State, s': State)
    requires Rebalance(c, s, s')
    ensures s'.alive == s.alive && LostIds(s') == LostIds(s)
  {
    SameLost(s, s');
  }

  lemma WorkerLosesItem(c: Config, s: State, s': State)
    requires WorkerStep(c, s, s') && !c.mayCrash
    ensures |s.alive| + |LostIds(s)| <= |s'.alive| + |LostIds(s')|
    ensures forall id :: id in LostIds(s') - LostIds(s) ==> c.env.exec(id).Panicked?
  {
    hide LostIds, Idle, CrashBusy;
    if id :| CrashBusy(c, s, id, s') {
      CrashLosesItem(c, s, id, s');
    } else {
      SameLost(s, s');
    }
  }

  lemma CrashLosesItem(c: Config, s: State, id: StepId, s': State)
    requires CrashBusy(c, s, id, s') && !c.mayCrash
    ensures |s.alive| + |LostIds(s)| <= |s'.alive| + |LostIds(s')|
    ensures forall x :: x in LostIds(s') - LostIds(s) ==> c.env.exec(x).Panicked?
  {
    assert LostIds(s') == LostIds(s) + {id};
  }

  /** Unless workers crash otherwise, every dead worker has lost a step of its own, whose handler panics. */
  lemma {:induction false} DeadWorkersLostSteps(c: Config, run: seq<State>, i: nat)
    requires ConfigOk(c) && IsRun(c, run) && i < |run| && !c.mayCrash
    ensures |c.nodes| <= |run[i].alive| + |LostIds(run[i])|
    ensures forall id :: id in LostIds(run[i]) ==> c.env.exec(id).Panicked?
  {
    hide Next, ConfigOk, StateOk;
    if i > 0 {
      var s, s' := run[i - 1], run[i - 1 + 1];
      DeadWorkersLostSteps(c, run, i - 1);
      RunOk(c, run, i - 1);
      assert Next(c, s, s');
      NextLoses(c, s, s');
    }
  }

  lemma NextLoses(c: Config, s: State, s': State)
    requires StateOk(c, s) && Next(c, s, s') && !c.mayCrash
    ensures |s.alive| + |LostIds(s)| <= |s'.alive| + |LostIds(s')|
    ensures forall id :: id in LostIds(s') - LostIds(s) ==> c.env.exec(id).Panicked?
  {
    hide StateOk, CoordinatorStep, WorkerStep;
    if WorkerStep(c, s, s') {
      WorkerLosesItem(c, s, s');
    } else {
      CoordinatorLosesNone(c, s, s');
    }
  }

  lemma SomeWorkerLives(c: Config, run: seq<State>)
    requires ConfigOk(c) && IsRun(c, run) && Uniform(TableOf(c.steps), c.env.exec)
    requires !c.mayCrash && |Killers(c)| < |c.nodes|
    ensures run[|run| - 1].alive != {}
  {
    hide Next, ConfigOk, StateOk, Uniform, Killer;
    var s := run[|run| - 1];
    RunOk(c, run, |run| - 1);
    DeadWorkersLostSteps(c, run, |run| - 1);
    forall id | id in LostIds(s)
      ensures id in Killers(c)
    {
      FleetIsKnown(c, s, id);
      assert LostToPanic(c, s, id);
      LostIsKiller(c, s, id);
    }
    SubsetCardinality(LostIds(s), Killers(c));
  }

  /** With panicking steps to start, but fewer of them than nodes, no run ever returns: it goes on to where
      the coordinator waits forever. */
  lemma EveryRunHangs(c: Config, run: seq<State>, p: StepId) returns (run': seq<State>)
    requires ConfigOk(c) && IsRun(c, run)
    requires Validated(c.steps) && Uniform(TableOf(c.steps), c.env.exec)
    requires Killer(c, p) && |Killers(c)| < |c.nodes|
    requires !c.mayStop && !c.mayCrash && !c.env.mayReject
    ensures IsRun(c, run') && run <= run' && Hung(c, run'[|run'| - 1])
    ensures !run[|run| - 1].pc.Exited?
  {
    hide *;
    run' := RunGoesOn(c, run);
    RunIsNonEmpty(c, run);
    RunIsNonEmpty(c, run');
    SomeWorkerLives(c, run');
    SomeWorkerLives(c, run);
    if run'[|run'| - 1].pc.Exited? {
      KillersBlockTheExit(c, run', p);
    } else if run[|run| - 1].pc.Exited? {
      KillersBlockTheExit(c, run, p);
    }
  }

  /** One step, whose handler panics, with neither token nor timeout. */
  ghost function OnePanic(a: StepDef, nodes: set<NodeId>): Config {
    Config([a], map[], Env((id: StepId) => Panicked("out of range"), (step: StepDef, before: seq<StepResult>) => Holds, false),
           nodes, false, false)
  }

  /** On two nodes or more no run of that step returns. */
  lemma OnePanicHangs(a: StepDef, nodes: set<NodeId>, run: seq<State>) returns (run': seq<State>)
    requires a.dependsOn == [] && a.condition == None && |nodes| >= 2 && IsRun(OnePanic(a, nodes), run)
    ensures IsRun(OnePanic(a, nodes), run') && run <= run' && Hung(OnePanic(a, nodes), run'[|run'| - 1])
    ensures run != [] && !run[|run| - 1].pc.Exited?
  {
    var c := OnePanic(a, nodes);
    OnePanicIsFlow(a, nodes);
    StarterIsSpared(TableOf(c.steps), c.env.exec, a.id);
    hide IsRun, ConfigOk, Validated, Uniform, Doomed;
    RunIsNonEmpty(c, run);
    assert Killers(c) == {a.id};
    run' := EveryRunHangs(c, run, a.id);
  }

  lemma OnePanicIsFlow(a: StepDef, nodes: set<NodeId>)
    requires a.dependsOn == [] && a.condition == None && nodes != {}
    ensures var c := OnePanic(a, nodes);
      && ConfigOk(c) && Validated(c.steps) && Uniform(TableOf(c.steps), c.env.exec)
      && TableOf(c.steps) == map[a.id := a]
  {
    var c := OnePanic(a, nodes);
    assert c.steps[..0] == [];
    var g := GraphOf(TableOf(c.steps));
    if x :| Reaches(g, x, x) {
      var n := ReachesFirst(g, x, x);
    }
  }
}
