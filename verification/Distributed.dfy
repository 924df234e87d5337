/** The distributed coordinator as a step system: it submits ready steps to fleet nodes, whose
    workers report results over a channel (rust-old/src/engine/distributed.rs). */
module Distributed {
  import opened Wrappers
  import opened Steps
  import opened Graph
  import opened Scheduler
  import opened Causes
  import DagRunner

  type NodeId = nat

  // Where a submitted step is until the coordinator receives its result.
  datatype Place = Queued(node: NodeId) | Executing(node: NodeId) | Reported | Lost

  datatype ExitReason = Drained | GaveUp | WorkersGone

  // Where the coordinator's loop is: emptying the ready queue, awaiting a report,
  // about to rebalance, or out of the loop.
  datatype Pc = Submitting | Waiting | Rebalancing | Exited(why: ExitReason)

  datatype State = State(
    sched: Sched,
    counter: int,                   // the coordinator's `in_flight`
    fleet: map<StepId, Place>,      // every submitted, not yet received step
    channel: seq<StepResult>,
    alive: set<NodeId>,             // nodes whose worker still runs
    submissions: nat,
    receipts: nat,
    pc: Pc)

  // One run's fixed surroundings. The flags bound what the environment may do.
  datatype Config = Config(
    steps: seq<StepDef>,
    dependents: map<StepId, seq<StepId>>,
    env: Env,
    nodes: set<NodeId>,
    mayStop: bool,    // cancellation or the flow timeout
    mayCrash: bool)   // a worker task ends abnormally for another reason than a panicking handler

  ghost predicate ConfigOk(c: Config) {
    && DistinctIds(c.steps) && TableOk(TableOf(c.steps))
    && DependentsOf(TableOf(c.steps), c.dependents)
    && (c.nodes == {} ==> c.env.mayReject)  // a fleet without nodes has none to accept a step
  }

  // ---------- The steps ----------

  ghost predicate Init(c: Config, s: State) {
    && s.sched == Sched(map id | id in TableOf(c.steps) :: InitialDegree(TableOf(c.steps)[id]),
                        DagRunner.StartQueue(c.steps), {}, {}, [])
    && s == State(s.sched, 0, map[], [], c.nodes, 0, 0, Submitting)
  }

  /** The result `r` of the step just taken off the queue is recorded without a submission. */
  ghost predicate Records(c: Config, s: State, r: StepResult, s': State) {
    s.sched.ready != [] && exists inDegree, newly ::
      && Unlocks(Targets(c.dependents, r.stepId), s.sched.inDegree, inDegree, newly)
      && s' == s.(sched := Record(Pop(s.sched), r, inDegree, newly))
  }

  ghost predicate AtHead(c: Config, s: State) {
    s.pc == Submitting && s.sched.ready != [] && s.sched.ready[0] in TableOf(c.steps)
  }

  ghost function Head(c: Config, s: State): StepDef
    requires AtHead(c, s)
  {
    TableOf(c.steps)[s.sched.ready[0]]
  }

  ghost predicate SkipFailed(c: Config, s: State, s': State) {
    && AtHead(c, s) && DependencyFailed(Head(c, s), s.sched.failed)
    && Records(c, s, SkippedResult(s.sched.ready[0], "dependency failed"), s')
  }

  ghost predicate SkipCondition(c: Config, s: State, s': State) {
    && AtHead(c, s) && !DependencyFailed(Head(c, s), s.sched.failed)
    && !ConditionAllows(Head(c, s), c.env, s.sched.results)
    && Records(c, s, SkippedResult(s.sched.ready[0], "condition not met"), s')
  }

  ghost predicate MaySubmit(c: Config, s: State) {
    && AtHead(c, s) && !DependencyFailed(Head(c, s), s.sched.failed)
    && ConditionAllows(Head(c, s), c.env, s.sched.results)
  }

  ghost predicate Submit(c: Config, s: State, node: NodeId, s': State) {
    && MaySubmit(c, s) && node in c.nodes
    && var id := s.sched.ready[0];
       s' == s.(sched := Pop(s.sched).(inFlight := s.sched.inFlight + {id}), counter := s.counter + 1,
                fleet := s.fleet[id := Queued(node)], submissions := s.submissions + 1)
  }

  ghost predicate Refuse(c: Config, s: State, s': State) {
    && MaySubmit(c, s) && c.env.mayReject
    && Records(c, s, StepResult(s.sched.ready[0], Failed, 0, Some(REJECTED)), s')
  }

  /** The loop's exit test once nothing is ready, and the check for cancellation or timeout. */
  ghost predicate Check(c: Config, s: State, s': State) {
    && s.pc == Submitting && s.sched.ready == []
    && if |s.sched.results| >= |c.steps| || s.counter == 0 then s' == s.(pc := Exited(Drained))
       else s' == s.(pc := Waiting) || (c.mayStop && s' == s.(pc := Exited(GaveUp)))
  }

  ghost predicate Receive(c: Config, s: State, s': State) {
    && s.pc == Waiting && s.channel != []
    && var r := s.channel[0];
       exists inDegree, newly ::
         && Unlocks(Targets(c.dependents, r.stepId), s.sched.inDegree, inDegree, newly)
         && s' == s.(sched := Record(s.sched.(inFlight := s.sched.inFlight - {r.stepId}), r, inDegree, newly),
                     counter := s.counter - 1,
                     fleet := s.fleet - {r.stepId}, channel := s.channel[1..], receipts := s.receipts + 1, pc := Rebalancing)
  }

  /** The wait ends without a report. Reports are polled first, so the channel is empty. */
  ghost predicate StopWaiting(c: Config, s: State, s': State) {
    && s.pc == Waiting && s.channel == []
    && ((c.mayStop && s' == s.(pc := Exited(GaveUp))) || (s.alive == {} && s' == s.(pc := Exited(WorkersGone))))
  }

  /** Idle nodes steal: queued items move between nodes in any way, none lost. */
  ghost predicate Rebalance(c: Config, s: State, s': State) {
    && s.pc == Rebalancing
    && s' == s.(fleet := s'.fleet, pc := Submitting)
    && s'.fleet.Keys == s.fleet.Keys
    && forall id :: id in s.fleet ==>
         if s.fleet[id].Queued? then s'.fleet[id].Queued? && s'.fleet[id].node in c.nodes
         else s'.fleet[id] == s.fleet[id]
  }

  ghost predicate Idle(s: State, node: NodeId) {
    forall id :: id in s.fleet ==> s.fleet[id] != Executing(node)
  }

  ghost predicate Dequeue(c: Config, s: State, id: StepId, s': State) {
    && id in s.fleet && s.fleet[id].Queued? && s.fleet[id].node in s.alive && Idle(s, s.fleet[id].node)
    && s' == s.(fleet := s.fleet[id := Executing(s.fleet[id].node)])
  }

  ghost predicate Finish(c: Config, s: State, id: StepId, s': State) {
    && id in s.fleet && s.fleet[id].Executing? && !c.env.exec(id).Panicked?
    && s' == s.(fleet := s.fleet[id := Reported], channel := s.channel + [ExecutedResult(id, c.env.exec(id))])
  }

  /** A worker dies while executing an item, as it does when the handler panics; the item is never
      reported. */
  ghost predicate CrashBusy(c: Config, s: State, id: StepId, s': State) {
    && (c.mayCrash || c.env.exec(id).Panicked?) && id in s.fleet && s.fleet[id].Executing?
    && s' == s.(fleet := s.fleet[id := Lost], alive := s.alive - {s.fleet[id].node})
  }

  ghost predicate CrashIdle(c: Config, s: State, node: NodeId, s': State) {
    c.mayCrash && node in s.alive && Idle(s, node) && s' == s.(alive := s.alive - {node})
  }

  ghost predicate CoordinatorStep(c: Config, s: State, s': State) {
    || SkipFailed(c, s, s') || SkipCondition(c, s, s') || Refuse(c, s, s')
    || (exists node :: Submit(c, s, node, s'))
    || Check(c, s, s') || Receive(c, s, s') || StopWaiting(c, s, s') || Rebalance(c, s, s')
  }

  ghost predicate WorkerStep(c: Config, s: State, s': State) {
    || (exists id :: Dequeue(c, s, id, s')) || (exists id :: Finish(c, s, id, s'))
    || (exists id :: CrashBusy(c, s, id, s')) || (exists node :: CrashIdle(c, s, node, s'))
  }

  ghost predicate Next(c: Config, s: State, s': State) {
    !s.pc.Exited? && (CoordinatorStep(c, s, s') || WorkerStep(c, s, s'))
  }

  ghost predicate IsRun(c: Config, run: seq<State>) {
    && run != [] && Init(c, run[0])
    && forall i :: 0 <= i < |run| - 1 ==> Next(c, run[i], run[i + 1])
  }

  // ---------- What every reachable state satisfies ----------

  /** The counter is submissions minus receipts, the number of submitted steps still out, each
      of which is in one place; the channel holds exactly the reported ones. */
  ghost predicate Accounted(s: State) {
    && s.counter == s.submissions - s.receipts
    && s.counter == |s.fleet|
    && s.fleet.Keys == s.sched.inFlight
    && NoDuplicates(ResultIds(s.channel))
    && forall id :: id in ResolvedIds(s.channel) <==> id in s.fleet && s.fleet[id] == Reported
  }

  ghost predicate Honest(c: Config, s: State) {
    forall r :: r in s.channel ==>
      r == ExecutedResult(r.stepId, c.env.exec(r.stepId)) && !c.env.exec(r.stepId).Panicked?
  }

  ghost predicate Placed(c: Config, s: State) {
    && (forall id :: id in s.fleet && s.fleet[id].Queued? ==> s.fleet[id].node in c.nodes)
    && (forall id :: id in s.fleet && s.fleet[id].Executing? ==> s.fleet[id].node in s.alive)
    && (forall x, y :: x in s.fleet && y in s.fleet && s.fleet[x].Executing? && s.fleet[x] == s.fleet[y] ==> x == y)
    && s.alive <= c.nodes
  }

  ghost predicate LostToPanic(c: Config, s: State, id: StepId) {
    id in s.fleet && s.fleet[id] == Lost && c.env.exec(id).Panicked?
  }

  /** No item is lost while every worker lives, and unless workers may crash otherwise one only dies of a
      panicking handler, whose item stays lost. */
  ghost predicate LossesExplained(c: Config, s: State) {
    && (s.alive == c.nodes ==> forall id :: id in s.fleet ==> s.fleet[id] != Lost)
    && (!c.mayCrash && s.alive != c.nodes ==> exists id :: LostToPanic(c, s, id))
  }

  ghost predicate PcOk(c: Config, s: State) {
    match s.pc
    case Submitting => true
    case Rebalancing => true
    case Waiting => s.sched.ready == [] && s.counter > 0
    case Exited(Drained) => s.sched.ready == [] && (|s.sched.results| >= |c.steps| || s.counter == 0)
    case Exited(GaveUp) => c.mayStop && s.counter > 0
    case Exited(WorkersGone) => s.alive == {} && s.counter > 0 && s.channel == []
  }

  ghost predicate BooksOk(c: Config, s: State) {
    Accounted(s) && Honest(c, s) && Placed(c, s) && LossesExplained(c, s) && PcOk(c, s)
  }

  ghost predicate StateOk(c: Config, s: State) {
    Good(TableOf(c.steps), c.env, s.sched, {}) && BooksOk(c, s)
  }

  lemma InitOk(c: Config, s: State)
    requires ConfigOk(c) && Init(c, s)
    ensures StateOk(c, s)
  {
    DagRunner.StartQueueIs(c.steps);
    DagRunner.StartGood(TableOf(c.steps), c.env, s.sched.inDegree, s.sched.ready);
  }

  lemma RecordsGood(c: Config, s: State, r: StepResult, s': State)
    requires ConfigOk(c) && Good(TableOf(c.steps), c.env, s.sched, {}) && AtHead(c, s)
    requires r.stepId == s.sched.ready[0] && Records(c, s, r, s')
    requires Justified(TableOf(c.steps), c.env, s.sched.results, r)
    requires r.status == Skipped || !DependencyFailed(Head(c, s), s.sched.failed)
    ensures Good(TableOf(c.steps), c.env, s'.sched, {})
  {
    hide Good;
    var inDegree, newly :| Unlocks(Targets(c.dependents, r.stepId), s.sched.inDegree, inDegree, newly)
      && s' == s.(sched := Record(Pop(s.sched), r, inDegree, newly));
    PopGood(TableOf(c.steps), c.env, s.sched);
    RecordGood(TableOf(c.steps), c.dependents, c.env, Pop(s.sched), r, inDegree, newly);
  }

  lemma RecordsBooks(c: Config, s: State, r: StepResult, s': State)
    requires BooksOk(c, s) && s.pc == Submitting && Records(c, s, r, s')
    ensures BooksOk(c, s')
  {
    LossesStay(c, s, s');
  }

  lemma HeadActionOk(c: Config, s: State, s': State)
    requires ConfigOk(c) && StateOk(c, s)
    requires SkipFailed(c, s, s') || SkipCondition(c, s, s') || Refuse(c, s, s')
    ensures StateOk(c, s')
  {
    hide Good, BooksOk, Records;
    var id := s.sched.ready[0];
    HeadFacts(c, s);
    var r := if SkipFailed(c, s, s') then SkippedResult(id, "dependency failed")
      else if SkipCondition(c, s, s') then SkippedResult(id, "condition not met")
      else StepResult(id, Failed, 0, Some(REJECTED));
    RecordsGood(c, s, r, s');
    RecordsBooks(c, s, r, s');
  }

  lemma HeadFacts(c: Config, s: State)
    requires Good(TableOf(c.steps), c.env, s.sched, {}) && AtHead(c, s)
    ensures var m, id := TableOf(c.steps), s.sched.ready[0];
      && (DependencyFailed(m[id], s.sched.failed) <==> DependencyBlocked(m[id], s.sched.results))
      && (MaySubmit(c, s) ==> MayLaunch(m, c.env, s.sched.results, id))
  {
    PopGood(TableOf(c.steps), c.env, s.sched);
  }

  lemma SubmitGood(c: Config, s: State, node: NodeId, s': State)
    requires Good(TableOf(c.steps), c.env, s.sched, {}) && Submit(c, s, node, s')
    ensures Good(TableOf(c.steps), c.env, s'.sched, {}) && s.sched.ready[0] !in s.sched.inFlight
  {
    hide Good;
    HeadFacts(c, s);
    PopGood(TableOf(c.steps), c.env, s.sched);
    LaunchGood(TableOf(c.steps), c.env, Pop(s.sched), s.sched.ready[0]);
  }

  lemma SubmitAccounted(c: Config, s: State, node: NodeId, s': State)
    requires Accounted(s) && Submit(c, s, node, s') && s.sched.ready[0] !in s.sched.inFlight
    ensures Accounted(s')
  {
    hide MayLaunch, ConditionAllows;
    assert s'.fleet.Keys == s.fleet.Keys + {s.sched.ready[0]};
  }

  lemma SubmitPlaced(c: Config, s: State, node: NodeId, s': State)
    requires Honest(c, s) && Placed(c, s) && LossesExplained(c, s)
    requires Submit(c, s, node, s') && s.sched.ready[0] !in s.fleet
    ensures Honest(c, s') && Placed(c, s') && LossesExplained(c, s') && PcOk(c, s')
  {
    LossesStay(c, s, s');
  }

  /** Lost items stay lost. */
  lemma LossesStay(c: Config, s: State, s': State)
    requires LossesExplained(c, s) && s'.alive == s.alive
    requires forall id :: id in s.fleet && s.fleet[id] == Lost ==> id in s'.fleet && s'.fleet[id] == Lost
    requires forall id :: id in s'.fleet && s'.fleet[id] == Lost ==> id in s.fleet && s.fleet[id] == Lost
    ensures LossesExplained(c, s')
  {
    if !c.mayCrash && s.alive != c.nodes {
      var id :| LostToPanic(c, s, id);
      assert LostToPanic(c, s', id);
    }
  }

  lemma SubmitBooks(c: Config, s: State, node: NodeId, s': State)
    requires BooksOk(c, s) && Submit(c, s, node, s') && s.sched.ready[0] !in s.sched.inFlight
    ensures BooksOk(c, s')
  {
    assert s.sched.ready[0] !in s.fleet;
    hide Accounted, Placed, Honest, PcOk, LossesExplained;
    SubmitAccounted(c, s, node, s');
    SubmitPlaced(c, s, node, s');
  }

  lemma CheckBooks(c: Config, s: State, s': State)
    requires BooksOk(c, s) && (Check(c, s, s') || StopWaiting(c, s, s'))
    ensures BooksOk(c, s') && s'.sched == s.sched
  {
    assert s' == s.(pc := s'.pc);
    LossesStay(c, s, s');
    assert Accounted(s') && Honest(c, s') && Placed(c, s');
  }

  lemma ReportsAfterFirst(channel: seq<StepResult>)
    requires channel != [] && NoDuplicates(ResultIds(channel))
    ensures NoDuplicates(ResultIds(channel[1..]))
    ensures ResolvedIds(channel[1..]) == ResolvedIds(channel) - {channel[0].stepId}
  {
    assert channel == [channel[0]] + channel[1..];
    assert forall i :: 0 <= i < |channel| - 1 ==> ResultIds(channel[1..])[i] == ResultIds(channel)[i + 1];
    forall q | q in channel[1..]
      ensures q.stepId != channel[0].stepId
    {
      var i :| 0 <= i < |channel| - 1 && channel[1..][i] == q;
      assert ResultIds(channel)[0] != ResultIds(channel)[i + 1];
    }
  }

  lemma ReceiveBooks(c: Config, s: State, s': State)
    requires BooksOk(c, s) && Receive(c, s, s')
    ensures BooksOk(c, s') && s.channel[0].stepId in s.sched.inFlight && s.counter > 0 && Honest(c, s)
  {
    ReportsAfterFirst(s.channel);
    assert s.channel[0].stepId in ResolvedIds(s.channel);
    LossesStay(c, s, s');
    assert s'.sched.inFlight == s.sched.inFlight - {s.channel[0].stepId};
  }

  lemma ReceiveGood(c: Config, s: State, s': State)
    requires ConfigOk(c) && Good(TableOf(c.steps), c.env, s.sched, {}) && Honest(c, s)
    requires Receive(c, s, s') && s.channel[0].stepId in s.sched.inFlight
    ensures Good(TableOf(c.steps), c.env, s'.sched, {})
  {
    hide Good;
    var r := s.channel[0];
    var inDegree, newly :| Unlocks(Targets(c.dependents, r.stepId), s.sched.inDegree, inDegree, newly)
      && s'.sched == Record(s.sched.(inFlight := s.sched.inFlight - {r.stepId}), r, inDegree, newly);
    LandGood(TableOf(c.steps), c.env, s.sched, r.stepId);
    RecordGood(TableOf(c.steps), c.dependents, c.env, s.sched.(inFlight := s.sched.inFlight - {r.stepId}), r, inDegree, newly);
  }

  lemma RebalanceBooks(c: Config, s: State, s': State)
    requires BooksOk(c, s) && Rebalance(c, s, s')
    ensures BooksOk(c, s') && s'.sched == s.sched
  {
    assert |s'.fleet| == |s'.fleet.Keys|;
    LossesStay(c, s, s');
  }

  lemma FinishAccounted(c: Config, s: State, id: StepId, s': State)
    requires Accounted(s) && Finish(c, s, id, s')
    ensures Accounted(s')
  {
    var r := ExecutedResult(id, c.env.exec(id));
    ResolvedAppend(s.channel, r);
    NoDuplicatesAppend(s.channel, r);
    assert s'.fleet.Keys == s.fleet.Keys;
  }

  lemma FinishPlaced(c: Config, s: State, id: StepId, s': State)
    requires Honest(c, s) && Placed(c, s) && LossesExplained(c, s) && PcOk(c, s) && Finish(c, s, id, s')
    ensures Honest(c, s') && Placed(c, s') && LossesExplained(c, s')
    ensures s.pc != Exited(WorkersGone) ==> PcOk(c, s')
  {
    LossesStay(c, s, s');
  }

  lemma FinishBooks(c: Config, s: State, id: StepId, s': State)
    requires BooksOk(c, s) && Finish(c, s, id, s')
    ensures BooksOk(c, s')
  {
    FinishAccounted(c, s, id, s');
    hide Accounted, Honest;
    FinishPlaced(c, s, id, s');
  }

  lemma DequeueBooks(c: Config, s: State, id: StepId, s': State)
    requires BooksOk(c, s) && Dequeue(c, s, id, s')
    ensures BooksOk(c, s')
  {
    LossesStay(c, s, s');
  }

  lemma CrashBooks(c: Config, s: State, x: nat, s': State)
    requires BooksOk(c, s) && (CrashBusy(c, s, x, s') || CrashIdle(c, s, x, s'))
    ensures BooksOk(c, s')
  {
    if !c.mayCrash {
      assert LostToPanic(c, s', x);
    }
  }

  lemma WorkerBooks(c: Config, s: State, s': State)
    requires BooksOk(c, s) && WorkerStep(c, s, s')
    ensures BooksOk(c, s') && s'.sched == s.sched
  {
    hide BooksOk;
    if id :| Finish(c, s, id, s') {
      FinishBooks(c, s, id, s');
    } else if id :| Dequeue(c, s, id, s') {
      DequeueBooks(c, s, id, s');
    } else if id :| CrashBusy(c, s, id, s') {
      CrashBooks(c, s, id, s');
    } else {
      var node :| CrashIdle(c, s, node, s');
      CrashBooks(c, s, node, s');
    }
  }

  lemma NextOk(c: Config, s: State, s': State)
    requires ConfigOk(c) && StateOk(c, s) && Next(c, s, s')
    ensures StateOk(c, s')
  {
    hide Good, BooksOk, ConfigOk, Submit, Check, Receive, StopWaiting, Rebalance, SkipFailed, SkipCondition, Refuse;
    if WorkerStep(c, s, s') {
      WorkerBooks(c, s, s');
    } else if SkipFailed(c, s, s') || SkipCondition(c, s, s') || Refuse(c, s, s') {
      HeadActionOk(c, s, s');
    } else if node :| Submit(c, s, node, s') {
      SubmitGood(c, s, node, s');
      SubmitBooks(c, s, node, s');
    } else if Receive(c, s, s') {
      ReceiveBooks(c, s, s');
      ReceiveGood(c, s, s');
    } else if Rebalance(c, s, s') {
      RebalanceBooks(c, s, s');
    } else {
      CheckBooks(c, s, s');
    }
  }

  /** The invariant holds in every state of every run. */
  lemma {:induction false} RunOk(c: Config, run: seq<State>, i: nat)
    requires ConfigOk(c) && IsRun(c, run) && i < |run|
    ensures StateOk(c, run[i])
  {
    hide StateOk, Next, Init, ConfigOk;
    if i == 0 {
      InitOk(c, run[0]);
    } else {
      RunOk(c, run, i - 1);
      assert Next(c, run[i - 1], run[i - 1 + 1]);
      NextOk(c, run[i - 1], run[i]);
    }
  }

  // ---------- Theorems about whole runs ----------

  /** The entries the coordinator adds at the end for steps without a result, in flow order. */
  function Unseen(steps: seq<StepDef>, results: seq<StepResult>, reason: string): seq<StepResult> {
    if steps == [] then []
    else
      var last := steps[|steps| - 1];
      Unseen(steps[..|steps| - 1], results, reason) +
      if last.id in ResolvedIds(results) then [] else [SkippedResult(last.id, reason)]
  }

  /** What the coordinator returns after leaving its loop in state `s`. */
  function FinalResults(c: Config, s: State, reason: string): seq<StepResult> {
    if |s.sched.results| < |c.steps| then s.sched.results + Unseen(c.steps, s.sched.results, reason)
    else s.sched.results
  }

  lemma {:induction false} UnseenFillsUp(steps: seq<StepDef>, results: seq<StepResult>, reason: string)
    requires DistinctIds(steps)
    requires NoDuplicates(ResultIds(results))
    ensures NoDuplicates(ResultIds(results + Unseen(steps, results, reason)))
    ensures ResolvedIds(results + Unseen(steps, results, reason)) == ResolvedIds(results) + IdSet(steps)
  {
    if steps == [] {
      assert results + Unseen(steps, results, reason) == results;
    } else {
      var n := |steps| - 1;
      var all := results + Unseen(steps[..n], results, reason);
      DistinctFront(steps);
      UnseenFillsUp(steps[..n], results, reason);
      if steps[n].id in ResolvedIds(results) {
        assert results + Unseen(steps, results, reason) == all;
      } else {
        var r := SkippedResult(steps[n].id, reason);
        assert results + Unseen(steps, results, reason) == all + [r];
        NoDuplicatesAppend(all, r);
        ResolvedAppend(all, r);
      }
    }
  }

  lemma DistinctFront(steps: seq<StepDef>)
    requires DistinctIds(steps) && steps != []
    ensures var n := |steps| - 1;
      && DistinctIds(steps[..n]) && steps[n].id !in IdSet(steps[..n])
      && IdSet(steps) == IdSet(steps[..n]) + {steps[n].id}
  {
    var n := |steps| - 1;
    assert forall k :: 0 <= k < n ==> Ids(steps[..n])[k] == Ids(steps)[k];
    assert steps == steps[..n] + [steps[n]];
    DagRunner.FreshId(steps, n);
    TableCoversSteps(steps[..n]);
  }

  lemma LoopResults(c: Config, s: State)
    requires ConfigOk(c) && StateOk(c, s)
    ensures var m, results := TableOf(c.steps), s.sched.results;
      && NoDuplicates(ResultIds(results)) && ResolvedIds(results) <= m.Keys && |results| <= |c.steps|
      && (|results| == |c.steps| ==> ResolvedIds(results) == m.Keys)
      && Explained(m, c.env, results) && Ordered(m, results)
  {
    FewerResultsThanSteps(TableOf(c.steps), s.sched, {});
    StepCount(c.steps);
  }

  /** `at` says where in the flow the entries added at the end belong. */
  ghost predicate EntriesAt(steps: seq<StepDef>, results: seq<StepResult>, added: seq<StepResult>, at: seq<nat>, reason: string) {
    && |at| == |added|
    && (forall k :: 0 <= k < |at| ==> at[k] < |steps| && added[k] == StepResult(steps[at[k]].id, Skipped, 0, Some(reason)))
    && (forall k, l :: 0 <= k < l < |at| ==> at[k] < at[l])
    && (forall p :: 0 <= p < |steps| ==> (p in at <==> steps[p].id !in ResolvedIds(results)))
  }

  lemma OneMoreEntry(steps: seq<StepDef>, results: seq<StepResult>, added: seq<StepResult>, at: seq<nat>, reason: string)
    requires steps != [] && EntriesAt(steps[..|steps| - 1], results, added, at, reason)
    ensures var n := |steps| - 1;
      if steps[n].id in ResolvedIds(results) then EntriesAt(steps, results, added, at, reason)
      else EntriesAt(steps, results, added + [StepResult(steps[n].id, Skipped, 0, Some(reason))], at + [n], reason)
  {
    var n := |steps| - 1;
    hide ResolvedIds;
    assert forall p :: p in at + [n] <==> p in at || p == n;
    forall k | 0 <= k < |at|
      ensures at[k] < n
    {
      assert at[k] < |steps[..n]|;
    }
    assert n !in at;
  }

  lemma {:induction false} UnseenEntries(steps: seq<StepDef>, results: seq<StepResult>, reason: string)
    returns (at: seq<nat>)
    ensures EntriesAt(steps, results, Unseen(steps, results, reason), at, reason)
  {
    at := [];
    if steps != [] {
      var n := |steps| - 1;
      hide EntriesAt, ResolvedIds;
      at := UnseenEntries(steps[..n], results, reason);
      OneMoreEntry(steps, results, Unseen(steps[..n], results, reason), at, reason);
      if steps[n].id !in ResolvedIds(results) {
        at := at + [n];
      } else {
        assert Unseen(steps[..n], results, reason) + [] == Unseen(steps[..n], results, reason);
      }
    }
  }

  /** The loop's own results, then one entry for each step without a result, in flow order, that says it was
      skipped and why. `at` holds these steps' positions in the flow. */
  ghost predicate FilledUp(steps: seq<StepDef>, own: seq<StepResult>, all: seq<StepResult>, at: seq<nat>, reason: string) {
    && own <= all && |all| == |own| + |at|
    && (forall k :: 0 <= k < |at| ==>
          && at[k] < |steps| && all[|own| + k].stepId == steps[at[k]].id
          && all[|own| + k].status == Skipped && all[|own| + k].attempts == 0 && all[|own| + k].error == Some(reason))
    && (forall k, l :: 0 <= k < l < |at| ==> at[k] < at[l])
    && (forall p :: 0 <= p < |steps| ==> (p in at <==> forall r :: r in own ==> r.stepId != steps[p].id))
  }

  /** In every run, whatever was cancelled, refused, crashed or timed out, the returned results hold each step
      exactly once, those without a result of the loop's own as skipped for the given reason. */
  lemma ExitedRunReportsAll(c: Config, run: seq<State>, reason: string) returns (at: seq<nat>)
    requires ConfigOk(c) && IsRun(c, run) && run[|run| - 1].pc.Exited?
    ensures ExactlyOnce(TableOf(c.steps), FinalResults(c, run[|run| - 1], reason))
    ensures FilledUp(c.steps, run[|run| - 1].sched.results, FinalResults(c, run[|run| - 1], reason), at, reason)
  {
    hide Next, Init, ConfigOk, StateOk, FinalResults, ExactlyOnce, FilledUp;
    RunOk(c, run, |run| - 1);
    ReportsOnce(c, run[|run| - 1], reason);
    at := FinalEntries(c, run[|run| - 1], reason);
  }

  lemma ReportsOnce(c: Config, s: State, reason: string)
    requires ConfigOk(c) && StateOk(c, s)
    ensures ExactlyOnce(TableOf(c.steps), FinalResults(c, s, reason))
  {
    LoopResults(c, s);
    ConfigParts(c);
    hide StateOk, ConfigOk, Explained, Ordered, Unseen;
    FinalIsAppended(c, s, reason);
    UnseenFillsUp(c.steps, s.sched.results, reason);
    TableCoversSteps(c.steps);
  }

  lemma FinalEntries(c: Config, s: State, reason: string) returns (at: seq<nat>)
    requires ConfigOk(c) && StateOk(c, s)
    ensures FilledUp(c.steps, s.sched.results, FinalResults(c, s, reason), at, reason)
  {
    hide Unseen, FinalResults, ResolvedIds, ConfigOk, StateOk;
    var own, all := s.sched.results, FinalResults(c, s, reason);
    at := UnseenEntries(c.steps, own, reason);
    FinalIsAppended(c, s, reason);
    assert all[..|own|] == own && forall k :: 0 <= k < |at| ==> all[|own| + k] == Unseen(c.steps, own, reason)[k];
    forall p | 0 <= p < |c.steps|
      ensures c.steps[p].id !in ResolvedIds(own) <==> forall r :: r in own ==> r.stepId != c.steps[p].id
    {
      NotSeen(own, c.steps[p].id);
    }
  }

  lemma NotSeen(results: seq<StepResult>, id: StepId)
    ensures id !in ResolvedIds(results) <==> forall r :: r in results ==> r.stepId != id
  {
  }

  lemma {:induction false} NoneUnseen(steps: seq<StepDef>, results: seq<StepResult>, reason: string)
    requires IdSet(steps) <= ResolvedIds(results)
    ensures Unseen(steps, results, reason) == []
  {
    if steps != [] {
      assert steps == steps[..|steps| - 1] + [steps[|steps| - 1]];
      NoneUnseen(steps[..|steps| - 1], results, reason);
    }
  }

  /** The fill-in is appended; when the loop has as many results as there are steps, there is none. */
  lemma FinalIsAppended(c: Config, s: State, reason: string)
    requires ConfigOk(c) && StateOk(c, s)
    ensures FinalResults(c, s, reason) == s.sched.results + Unseen(c.steps, s.sched.results, reason)
  {
    LoopResults(c, s);
    TableCoversSteps(c.steps);
    hide StateOk, ConfigOk, Explained, Ordered, NoDuplicates, Unseen;
    if |s.sched.results| == |c.steps| {
      NoneUnseen(c.steps, s.sched.results, reason);
    }
  }

  /** In every state of every run each result on record has the cause it names: failures spread to the steps
      that wait for them, and only failures do. */
  lemma RecordsAreTraced(c: Config, run: seq<State>, i: nat)
    requires ConfigOk(c) && IsRun(c, run) && i < |run|
    ensures Traced(TableOf(c.steps), c.env, run[i].sched.results)
    ensures (forall r :: r in run[i].sched.results ==> r.status != Failed) ==>
      forall r :: r in run[i].sched.results && r.status == Skipped ==> r.error != Some("dependency failed")
  {
    hide Next, Init, StateOk, Explained, Ordered, AllCaused, FailuresSpread, SkipsComeFromFailures, ConfigOk;
    RunOk(c, run, i);
    LoopRecord(c, run[i]);
    RecordIsTraced(TableOf(c.steps), c.env, run[i].sched.results);
    if forall r :: r in run[i].sched.results ==> r.status != Failed {
      NoFailureNoSkip(TableOf(c.steps), run[i].sched.results);
    }
  }

  lemma LoopRecord(c: Config, s: State)
    requires StateOk(c, s)
    ensures Explained(TableOf(c.steps), c.env, s.sched.results) && Ordered(TableOf(c.steps), s.sched.results)
    ensures NoDuplicates(ResultIds(s.sched.results))
  {
  }

  lemma {:induction false} StepCount(steps: seq<StepDef>)
    requires DistinctIds(steps)
    ensures |TableOf(steps)| == |steps|
  {
    if steps != [] {
      var n := |steps| - 1;
      assert forall k :: 0 <= k < n ==> Ids(steps[..n])[k] == Ids(steps)[k];
      StepCount(steps[..n]);
      DagRunner.FreshId(steps, n);
    }
  }

  /** In every state of every run `in_flight` is submissions minus receipts and never negative. */
  lemma CounterNeverUnderflows(c: Config, run: seq<State>, i: nat)
    requires ConfigOk(c) && IsRun(c, run) && i < |run|
    ensures run[i].counter == run[i].submissions - run[i].receipts == |run[i].sched.inFlight|
    ensures run[i].counter >= 0
    ensures i + 1 < |run| && Receive(c, run[i], run[i + 1]) ==> run[i].counter > 0
  {
    hide Next, Init, Good;
    RunOk(c, run, i);
    assert |run[i].fleet| == |run[i].fleet.Keys|;
    if i + 1 < |run| && Receive(c, run[i], run[i + 1]) {
      ReceiveBooks(c, run[i], run[i + 1]);
    }
  }

  /** The flow passed validation in Dag mode. */
  ghost predicate Validated(steps: seq<StepDef>) {
    !HasCycle(GraphOf(TableOf(steps))) && ClosedTable(TableOf(steps))
  }

  /** A run of a validated flow has every result from the loop itself, so that none is reported as not
      scheduled, exactly if the loop was left because nothing was ready or in flight any more. */
  lemma LoopIsCompleteIffDrained(c: Config, run: seq<State>)
    requires ConfigOk(c) && IsRun(c, run) && run[|run| - 1].pc.Exited? && Validated(c.steps)
    ensures |run[|run| - 1].sched.results| == |c.steps| <==> run[|run| - 1].pc == Exited(Drained)
    ensures ExactlyOnce(TableOf(c.steps), run[|run| - 1].sched.results) <==> run[|run| - 1].pc == Exited(Drained)
    ensures Explained(TableOf(c.steps), c.env, run[|run| - 1].sched.results)
    ensures Ordered(TableOf(c.steps), run[|run| - 1].sched.results)
  {
    hide Next, Init, StateOk, Explained, Ordered, Validated, ConfigOk;
    var s := run[|run| - 1];
    RunOk(c, run, |run| - 1);
    ConfigParts(c);
    LoopResults(c, s);
    StepCount(c.steps);
    DistinctResults(s.sched.results);
    if s.pc == Exited(Drained) {
      DrainedExit(c, s);
    } else {
      EarlyExit(c, s);
    }
  }

  lemma ConfigParts(c: Config)
    requires ConfigOk(c)
    ensures DistinctIds(c.steps)
  {
  }

  lemma GoodDrained(m: StepTable, env: Env, s: Sched)
    requires Good(m, env, s, {}) && s.ready == [] && s.inFlight == {}
    requires ClosedTable(m) && !HasCycle(GraphOf(m))
    ensures ResolvedIds(s.results) == m.Keys
  {
    hide Sound;
    DrainedIsComplete(m, s);
  }

  lemma DrainedExit(c: Config, s: State)
    requires StateOk(c, s) && s.pc == Exited(Drained) && Validated(c.steps)
    ensures |s.sched.results| >= |c.steps| || ResolvedIds(s.sched.results) == TableOf(c.steps).Keys
  {
    hide Good;
    if s.counter == 0 {
      assert s.fleet == map[];
      GoodDrained(TableOf(c.steps), c.env, s.sched);
    }
  }

  /** A loop left early leaves a submitted step without its result. */
  lemma EarlyExit(c: Config, s: State)
    requires StateOk(c, s) && s.pc.Exited? && s.pc != Exited(Drained)
    ensures !(TableOf(c.steps).Keys <= ResolvedIds(s.sched.results))
  {
    hide Sound, Counted, Ordered, Guarded;
    var id :| id in s.fleet;
    assert id in s.sched.inFlight && Entered(s.sched, {}, id);
  }

  /** Without cancellation and timeout, a run that loses no worker is not left early. */
  lemma UndisturbedRunDrains(c: Config, run: seq<State>)
    requires ConfigOk(c) && IsRun(c, run) && run[|run| - 1].pc.Exited?
    requires !c.mayStop && run[|run| - 1].alive == c.nodes
    ensures run[|run| - 1].pc == Exited(Drained)
  {
    hide Next, Init, Good;
    var s := run[|run| - 1];
    RunOk(c, run, |run| - 1);
    if s.counter > 0 {
      var id :| id in s.fleet;
      if s.fleet[id].Reported? {
        assert id in ResolvedIds(s.channel);
      }
    }
  }
}
