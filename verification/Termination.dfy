/** Every distributed run is over after a bounded number of steps, and goes on until it exits or hangs;
    which runs can hang (rust-old/src/engine/distributed.rs). */
module Termination {
  import opened Wrappers
  import opened Steps
  import opened Scheduler
  import opened Distributed
  import DagRunner

  // ---------- Termination ----------

  ghost function QueuedIds(s: State): set<StepId> {
    set id | id in s.fleet && s.fleet[id].Queued?
  }

  ghost function ExecutingIds(s: State): set<StepId> {
    set id | id in s.fleet && s.fleet[id].Executing?
  }

  function PcWeight(pc: Pc): nat {
    match pc
    case Exited(_) => 0
    case Waiting => 1
    case Submitting => 2
    case Rebalancing => 3
  }

  /** What is left to do: six units for a step not yet taken, fewer the nearer its result is. */
  ghost function Remaining(c: Config, s: State): int {
    6 * (|c.steps| - |s.sched.results| - |s.fleet|) + 5 * |QueuedIds(s)| + 4 * |ExecutingIds(s)| + 3 * |s.channel|
    + |s.alive| + PcWeight(s.pc)
  }

  lemma TakenAreFew(m: StepTable, s: Sched)
    requires Exclusive(m, s, {})
    ensures |s.results| + |s.inFlight| <= |m.Keys|
  {
    DistinctResults(s.results);
    var taken := ResolvedIds(s.results) + s.inFlight;
    forall id | id in taken
      ensures id in m
    {
      assert Entered(s, {}, id);
    }
    assert |taken| == |ResolvedIds(s.results)| + |s.inFlight|;
    SubsetCardinality(taken, m.Keys);
  }

  lemma RoomForAll(c: Config, s: State)
    requires ConfigOk(c) && StateOk(c, s)
    ensures |s.sched.results| + |s.fleet| <= |c.steps|
    ensures Remaining(c, s) >= 0
  {
    hide Sound, Counted, Ordered, Guarded, Exclusive, Placed, Honest, PcOk;
    StepCount(c.steps);
    TakenAreFew(TableOf(c.steps), s.sched);
    assert |s.fleet| == |s.fleet.Keys|;
  }

  lemma FleetCounts(s: State, s': State)
    ensures s'.fleet == s.fleet ==> QueuedIds(s') == QueuedIds(s) && ExecutingIds(s') == ExecutingIds(s)
  {
  }

  lemma RecordingShrinks(c: Config, s: State, s': State)
    requires SkipFailed(c, s, s') || SkipCondition(c, s, s') || Refuse(c, s, s')
    ensures Remaining(c, s') < Remaining(c, s)
  {
    FleetCounts(s, s');
  }

  lemma SubmitShrinks(c: Config, s: State, node: NodeId, s': State)
    requires Submit(c, s, node, s') && s.sched.ready[0] !in s.fleet
    ensures Remaining(c, s') < Remaining(c, s)
  {
    var id := s.sched.ready[0];
    assert QueuedIds(s') == QueuedIds(s) + {id};
    assert ExecutingIds(s') == ExecutingIds(s);
  }

  lemma ReceiveShrinks(c: Config, s: State, s': State)
    requires Receive(c, s, s') && s.channel[0].stepId in s.fleet && s.fleet[s.channel[0].stepId] == Reported
    ensures Remaining(c, s') < Remaining(c, s)
  {
    assert QueuedIds(s') == QueuedIds(s);
    assert ExecutingIds(s') == ExecutingIds(s);
    assert |s'.fleet.Keys| == |s.fleet.Keys| - 1;
  }

  lemma OtherCoordinatorShrinks(c: Config, s: State, s': State)
    requires !s.pc.Exited? && (Check(c, s, s') || StopWaiting(c, s, s') || Rebalance(c, s, s'))
    ensures Remaining(c, s') < Remaining(c, s)
  {
    assert QueuedIds(s') == QueuedIds(s);
    assert ExecutingIds(s') == ExecutingIds(s);
    assert |s'.fleet.Keys| == |s.fleet.Keys|;
  }

  lemma DequeueShrinks(c: Config, s: State, id: StepId, s': State)
    requires Dequeue(c, s, id, s')
    ensures Remaining(c, s') < Remaining(c, s)
  {
    assert QueuedIds(s') == QueuedIds(s) - {id};
    assert ExecutingIds(s') == ExecutingIds(s) + {id};
    assert s'.fleet.Keys == s.fleet.Keys;
  }

  lemma FinishShrinks(c: Config, s: State, id: StepId, s': State)
    requires Finish(c, s, id, s')
    ensures Remaining(c, s') < Remaining(c, s)
  {
    assert QueuedIds(s') == QueuedIds(s);
    assert ExecutingIds(s') == ExecutingIds(s) - {id};
    assert s'.fleet.Keys == s.fleet.Keys;
  }

  lemma CrashBusyShrinks(c: Config, s: State, id: StepId, s': State)
    requires CrashBusy(c, s, id, s')
    ensures Remaining(c, s') < Remaining(c, s)
  {
    assert QueuedIds(s') == QueuedIds(s);
    assert ExecutingIds(s') == ExecutingIds(s) - {id};
    assert s'.fleet.Keys == s.fleet.Keys;
    SubsetCardinality(s'.alive, s.alive);
  }

  lemma WorkerShrinks(c: Config, s: State, s': State)
    requires WorkerStep(c, s, s')
    ensures Remaining(c, s') < Remaining(c, s)
  {
    hide Remaining, Dequeue, Finish, CrashBusy;
    if id :| Dequeue(c, s, id, s') {
      DequeueShrinks(c, s, id, s');
    } else if id :| Finish(c, s, id, s') {
      FinishShrinks(c, s, id, s');
    } else if id :| CrashBusy(c, s, id, s') {
      CrashBusyShrinks(c, s, id, s');
    } else {
      var node :| CrashIdle(c, s, node, s');
      CrashIdleShrinks(c, s, node, s');
    }
  }

  lemma CrashIdleShrinks(c: Config, s: State, node: NodeId, s': State)
    requires CrashIdle(c, s, node, s')
    ensures Remaining(c, s') < Remaining(c, s)
  {
    FleetCounts(s, s');
  }

  lemma NextShrinks(c: Config, s: State, s': State)
    requires ConfigOk(c) && StateOk(c, s) && Next(c, s, s')
    ensures Remaining(c, s') < Remaining(c, s)
  {
    hide Remaining, ConfigOk, Good, Check, StopWaiting, Rebalance, SkipFailed, SkipCondition, Refuse, Submit, WorkerStep;
    if WorkerStep(c, s, s') {
      WorkerShrinks(c, s, s');
    } else if SkipFailed(c, s, s') || SkipCondition(c, s, s') || Refuse(c, s, s') {
      RecordingShrinks(c, s, s');
    } else if node :| Submit(c, s, node, s') {
      SubmitGood(c, s, node, s');
      SubmitShrinks(c, s, node, s');
    } else if Receive(c, s, s') {
      assert s.channel[0].stepId in ResolvedIds(s.channel);
      ReceiveShrinks(c, s, s');
    } else {
      OtherCoordinatorShrinks(c, s, s');
    }
  }

  /** Every run, however its workers and queues interleave, is over after a bounded number of steps. */
  lemma {:induction false} RunsAreBounded(c: Config, run: seq<State>, i: nat)
    requires ConfigOk(c) && IsRun(c, run) && i < |run|
    ensures i + Remaining(c, run[i]) <= 6 * |c.steps| + |c.nodes| + 2
    ensures i <= 6 * |c.steps| + |c.nodes| + 2
  {
    hide StateOk, Next, ConfigOk;
    RunOk(c, run, i);
    if i == 0 {
      assert QueuedIds(run[0]) == {} && ExecutingIds(run[0]) == {};
    } else {
      hide Remaining, Init;
      RunsAreBounded(c, run, i - 1);
      assert Next(c, run[i - 1], run[i - 1 + 1]);
      RunOk(c, run, i - 1);
      NextShrinks(c, run[i - 1], run[i]);
    }
    RoomForAll(c, run[i]);
  }

  // ---------- Progress ----------

  /** The worker dies of the handler it is running. */
  ghost predicate Panics(c: Config, s: State, id: StepId, s': State) {
    c.env.exec(id).Panicked? && CrashBusy(c, s, id, s')
  }

  /** What the system does by itself: the coordinator acts, being told to stop included, or a worker takes an
      item, finishes it or dies of it. Only crashes for other reasons are left out. */
  ghost predicate Progress(c: Config, s: State, s': State) {
    !s.pc.Exited? &&
    (|| CoordinatorStep(c, s, s') || (exists id :: Dequeue(c, s, id, s'))
     || (exists id :: Finish(c, s, id, s')) || (exists id :: Panics(c, s, id, s')))
  }

  lemma ProgressIsNext(c: Config, s: State, s': State)
    requires Progress(c, s, s')
    ensures Next(c, s, s')
  {
    hide Dequeue, Finish, CrashBusy, CoordinatorStep;
    if id :| Panics(c, s, id, s') {
      assert CrashBusy(c, s, id, s');
    }
  }

  /** The item will never be reported: it is lost, or waits for a worker that is gone. */
  predicate Stranded(s: State, id: StepId) {
    id in s.fleet && (s.fleet[id] == Lost || (s.fleet[id].Queued? && s.fleet[id].node !in s.alive))
  }

  /** The coordinator waits for reports that never come. Some worker lives, so its channel stays open;
      nothing rebalances until a report arrives; and there is no token or timeout to end the wait. */
  ghost predicate Hung(c: Config, s: State) {
    && s.pc == Waiting && s.channel == [] && !c.mayStop && s.alive != {}
    && forall id :: id in s.fleet ==> Stranded(s, id)
  }

  /** Everything submitted went to one node, and no other node's worker has died. */
  ghost predicate AtHome(c: Config, s: State, home: NodeId) {
    && home in c.nodes
    && (forall id :: id in s.fleet && (s.fleet[id].Queued? || s.fleet[id].Executing?) ==> s.fleet[id].node == home)
    && c.nodes - {home} <= s.alive
  }

  lemma HungIsFinal(c: Config, s: State, s': State)
    requires Hung(c, s)
    ensures !Progress(c, s, s')
  {
    hide Unlocks, ConditionAllows, DependencyFailed;
  }

  /** Before the exit, a state that does not hang can go on, if wanted on one node alone. */
  lemma GoOn(c: Config, s: State, home: NodeId) returns (s': State)
    requires ConfigOk(c) && StateOk(c, s) && !s.pc.Exited? && !Hung(c, s) && (home in c.nodes || c.nodes == {})
    ensures Progress(c, s, s') && (AtHome(c, s, home) ==> AtHome(c, s', home))
  {
    hide Good, Unlocks, BooksOk, DependentsOf, DistinctIds, TableOk;
    match s.pc {
      case Submitting =>
        if s.sched.ready == [] {
          s' := s.(pc := if |s.sched.results| >= |c.steps| || s.counter == 0 then Exited(Drained) else Waiting);
          assert Check(c, s, s');
        } else {
          s' := HeadCanMove(c, s, home);
        }
      case Rebalancing =>
        s' := s.(pc := Submitting);
        NothingMoves(c, s, s');
      case Waiting =>
        if s.channel != [] {
          s' := ReportCanBeTaken(c, s);
        } else if c.mayStop || s.alive == {} {
          s' := s.(pc := Exited(if c.mayStop then GaveUp else WorkersGone));
          assert StopWaiting(c, s, s');
        } else {
          s' := WorkerCanMove(c, s, home);
        }
    }
  }

  lemma NothingMoves(c: Config, s: State, s': State)
    requires BooksOk(c, s) && s.pc == Rebalancing && s' == s.(pc := Submitting)
    ensures Rebalance(c, s, s')
  {
  }

  lemma HeadCanMove(c: Config, s: State, home: NodeId) returns (s': State)
    requires ConfigOk(c) && StateOk(c, s) && s.pc == Submitting && s.sched.ready != [] && (home in c.nodes || c.nodes == {})
    ensures SkipFailed(c, s, s') || SkipCondition(c, s, s') || Refuse(c, s, s') || Submit(c, s, home, s')
    ensures AtHome(c, s, home) ==> AtHome(c, s', home)
  {
    hide Good, Unlocks, DependentsOf, BooksOk, DistinctIds;
    var m, id := TableOf(c.steps), s.sched.ready[0];
    PopGood(m, c.env, s.sched);
    TargetsCounted(m, c.dependents, id);
    var inDegree, newly := UnlocksExists(Targets(c.dependents, id), s.sched.inDegree);
    if DependencyFailed(m[id], s.sched.failed) {
      s' := s.(sched := Record(Pop(s.sched), SkippedResult(id, "dependency failed"), inDegree, newly));
      assert SkipFailed(c, s, s');
    } else if !ConditionAllows(m[id], c.env, s.sched.results) {
      s' := s.(sched := Record(Pop(s.sched), SkippedResult(id, "condition not met"), inDegree, newly));
      assert SkipCondition(c, s, s');
    } else if c.nodes == {} {
      s' := s.(sched := Record(Pop(s.sched), StepResult(id, Failed, 0, Some(REJECTED)), inDegree, newly));
      assert Refuse(c, s, s');
    } else {
      s' := s.(sched := Pop(s.sched).(inFlight := s.sched.inFlight + {id}), counter := s.counter + 1,
               fleet := s.fleet[id := Queued(home)], submissions := s.submissions + 1);
      assert Submit(c, s, home, s');
    }
  }

  lemma ReportCanBeTaken(c: Config, s: State) returns (s': State)
    requires ConfigOk(c) && s.pc == Waiting && s.channel != []
    ensures Receive(c, s, s') && forall home :: AtHome(c, s, home) ==> AtHome(c, s', home)
  {
    hide Unlocks;
    var r := s.channel[0];
    TargetsCounted(TableOf(c.steps), c.dependents, r.stepId);
    var inDegree, newly := UnlocksExists(Targets(c.dependents, r.stepId), s.sched.inDegree);
    s' := s.(sched := Record(s.sched.(inFlight := s.sched.inFlight - {r.stepId}), r, inDegree, newly),
             counter := s.counter - 1, fleet := s.fleet - {r.stepId}, channel := s.channel[1..],
             receipts := s.receipts + 1, pc := Rebalancing);
  }

  lemma WorkerCanMove(c: Config, s: State, home: NodeId) returns (s': State)
    requires BooksOk(c, s) && s.pc == Waiting && s.channel == [] && !c.mayStop && s.alive != {} && !Hung(c, s)
    ensures Progress(c, s, s') && (AtHome(c, s, home) ==> AtHome(c, s', home))
  {
    var id :| id in s.fleet && !Stranded(s, id);
    assert id !in ResolvedIds(s.channel);
    if s.fleet[id].Queued? && !Idle(s, s.fleet[id].node) {
      var node := s.fleet[id].node;
      id :| id in s.fleet && s.fleet[id] == Executing(node);
    }
    if s.fleet[id].Queued? {
      s' := s.(fleet := s.fleet[id := Executing(s.fleet[id].node)]);
      assert Dequeue(c, s, id, s');
    } else if c.env.exec(id).Panicked? {
      s' := s.(fleet := s.fleet[id := Lost], alive := s.alive - {s.fleet[id].node});
      assert Panics(c, s, id, s');
    } else {
      s' := s.(fleet := s.fleet[id := Reported], channel := s.channel + [ExecutedResult(id, c.env.exec(id))]);
      assert Finish(c, s, id, s');
    }
  }

  /** Before the exit the system can go on by itself exactly if it does not hang. */
  lemma GoesOnIffNotHung(c: Config, s: State)
    requires ConfigOk(c) && StateOk(c, s) && !s.pc.Exited?
    ensures (exists s' :: Progress(c, s, s')) <==> !Hung(c, s)
  {
    hide Progress, Hung, ConfigOk, StateOk;
    if Hung(c, s) {
      forall s'
        ensures !Progress(c, s, s')
      {
        HungIsFinal(c, s, s');
      }
    } else {
      var home: NodeId := if c.nodes == {} then 0 else var n :| n in c.nodes; n;
      var s' := GoOn(c, s, home);
    }
  }

  lemma InitExists(c: Config) returns (s: State)
    ensures Init(c, s)
  {
    var sched := Sched(map id | id in TableOf(c.steps) :: InitialDegree(TableOf(c.steps)[id]),
                       DagRunner.StartQueue(c.steps), {}, {}, []);
    s := State(sched, 0, map[], [], c.nodes, 0, 0, Submitting);
  }

  /** From position `from` on the system acts by itself. */
  ghost predicate ByItself(c: Config, run: seq<State>, from: nat) {
    forall i :: from <= i < |run| - 1 ==> Progress(c, run[i], run[i + 1])
  }

  lemma {:induction false} RunGoesOnAt(c: Config, run: seq<State>, home: NodeId) returns (run': seq<State>)
    requires ConfigOk(c) && IsRun(c, run) && (home in c.nodes || c.nodes == {})
    ensures IsRun(c, run') && run <= run' && (run'[|run'| - 1].pc.Exited? || Hung(c, run'[|run'| - 1]))
    ensures ByItself(c, run', |run| - 1)
    ensures AtHome(c, run[|run| - 1], home) ==> AtHome(c, run'[|run'| - 1], home)
    decreases 6 * |c.steps| + |c.nodes| + 3 - |run|
  {
    hide ConfigOk, StateOk, Next, Init, Progress, Hung, AtHome;
    var s := run[|run| - 1];
    if s.pc.Exited? || Hung(c, s) {
      run' := run;
    } else {
      RunOk(c, run, |run| - 1);
      var s' := GoOn(c, s, home);
      ProgressIsNext(c, s, s');
      RunsAreBounded(c, run + [s'], |run|);
      run' := RunGoesOnAt(c, run + [s'], home);
      assert run'[|run| - 1] == s && run'[|run|] == s';
    }
  }

  /** Every run goes on by itself to its exit or to where it hangs. */
  lemma RunGoesOn(c: Config, run: seq<State>) returns (run': seq<State>)
    requires ConfigOk(c) && IsRun(c, run)
    ensures IsRun(c, run') && run <= run' && (run'[|run'| - 1].pc.Exited? || Hung(c, run'[|run'| - 1]))
    ensures ByItself(c, run', |run| - 1)
  {
    hide *;
    var home: NodeId := if c.nodes == {} then 0 else var n :| n in c.nodes; n;
    run' := RunGoesOnAt(c, run, home);
  }

  // ---------- Which runs hang ----------

  /** A hanging run has lost one worker and kept another. */
  lemma HungMeansLoss(c: Config, s: State)
    requires StateOk(c, s) && Hung(c, s)
    ensures |c.nodes| >= 2 && !c.mayStop && c.steps != []
    ensures c.mayCrash || exists id :: LostToPanic(c, s, id)
  {
    hide Sound, Counted, Ordered, Guarded;
    var id :| id in s.fleet;
    assert Stranded(s, id) && s.alive != c.nodes;
    var n :| n in s.alive;
    var d :| d in c.nodes && d !in s.alive;
    SubsetCardinality({n, d}, c.nodes);
    assert id in s.sched.inFlight && Entered(s.sched, {}, id);
  }

  /** No run hangs with a token or timeout that ends the wait, with at most one node, or without crashes and
      panicking handlers. */
  lemma NeverHangs(c: Config, run: seq<State>)
    requires ConfigOk(c) && IsRun(c, run)
    requires c.mayStop || |c.nodes| <= 1
      || (!c.mayCrash && forall id :: id in TableOf(c.steps) ==> !c.env.exec(id).Panicked?)
    ensures !Hung(c, run[|run| - 1])
  {
    hide ConfigOk, StateOk, IsRun, Hung;
    RunIsNonEmpty(c, run);
    var s := run[|run| - 1];
    RunOk(c, run, |run| - 1);
    if Hung(c, s) {
      HungMeansLoss(c, s);
      var id :| LostToPanic(c, s, id);
      FleetIsKnown(c, s, id);
    }
  }

  lemma RunIsNonEmpty(c: Config, run: seq<State>)
    requires IsRun(c, run)
    ensures run != []
  {
  }

  lemma FleetIsKnown(c: Config, s: State, id: StepId)
    requires StateOk(c, s) && id in s.fleet
    ensures id in TableOf(c.steps) && Launched(TableOf(c.steps), c.env, s.sched.results, id)
  {
    assert Entered(s.sched, {}, id);
  }
}
