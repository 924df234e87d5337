/** Flow definitions and their validation (rust-old/src/flow.rs). */
module Flow {
  import opened Wrappers
  import opened Steps
  import opened Graph

  datatype FlowMode = Sequential | Parallel | Dag | Hierarchical

  datatype FlowDef = FlowDef(
    name: string,
    mode: FlowMode,
    steps: seq<StepDef>,
    rollbackOnFailure: bool,
    version: nat)

  datatype FlowError =
    | CycleDetected(flow: string)
    | MissingDependency(step: string)
    | DependencyOutsideDag(mode: FlowMode)
    | DependencyInHierarchy(step: string)
    | AnyWithoutDependencies(step: string)

  function DependencyGraph(steps: seq<StepDef>): Graph {
    GraphOf(TableOf(steps))
  }

  ghost predicate AllDependenciesPresent(steps: seq<StepDef>) {
    forall s, d :: s in steps && d in s.dependsOn ==> d in IdSet(steps)
  }

  /** The recursive search: `visited` holds every node seen, `inStack` those on the current
      branch. Finding a branch node again is a cycle; otherwise all nodes added are settled
      and `inStack` is given back as it was. */
  method Dfs(node: StepId, deps: Graph, visited: set<StepId>, inStack: set<StepId>)
    returns (found: bool, visited': set<StepId>, inStack': set<StepId>)
    requires node in Universe(deps) && node !in visited
    requires inStack <= visited
    requires Settled(deps, visited - inStack)
    requires forall x :: x in inStack ==> Reaches(deps, x, node)
    ensures found ==> HasCycle(deps)
    ensures !found ==> inStack' == inStack && visited + {node} <= visited'
    ensures !found ==> Settled(deps, visited' - inStack')
    decreases Universe(deps) - visited
  {
    visited' := visited + {node};
    inStack' := inStack + {node};
    assert visited' - inStack' == visited - inStack;
    if node in deps {
      var neighbors := deps[node];
      for k := 0 to |neighbors|
        invariant inStack' == inStack + {node} && inStack' <= visited'
        invariant visited + {node} <= visited'
        invariant Settled(deps, visited' - inStack')
        invariant forall j :: 0 <= j < k ==> neighbors[j] in visited' - inStack'
      {
        var n := neighbors[k];
        assert Edge(deps, node, n);
        EdgeReaches(deps, node, n);
        forall x | x in inStack'
          ensures Reaches(deps, x, n)
        {
          if x != node {
            ReachesTransitive(deps, x, node, n);
          }
        }
        if n !in visited' {
          found, visited', inStack' := Dfs(n, deps, visited', inStack');
          if found {
            return;
          }
        } else if n in inStack' {
          return true, visited', inStack';
        }
      }
    }
    SettleNode(deps, visited' - inStack', node);
    assert visited' - inStack' + {node} == visited' - inStack;
    inStack' := inStack' - {node};
    assert inStack' == inStack;
    found := false;
  }

  /** Some dependency of the step names no step of the flow. */
  ghost predicate MissesDependency(step: StepDef, steps: seq<StepDef>) {
    exists d :: d in step.dependsOn && forall s :: s in steps ==> s.id != d
  }

  /** The error names the first step of the flow that misses a dependency. */
  ghost predicate NamesFirstMissing(error: FlowError, steps: seq<StepDef>) {
    exists i :: 0 <= i < |steps| && error == MissingDependency(steps[i].name)
      && MissesDependency(steps[i], steps) && forall j :: 0 <= j < i ==> !MissesDependency(steps[j], steps)
  }

  lemma AllNamed(step: StepDef, steps: seq<StepDef>)
    requires forall d :: d in step.dependsOn ==> d in IdSet(steps)
    ensures !MissesDependency(step, steps)
  {
  }

  /** The second pass of `check_cycles`: every dependency names a step of the flow. */
  method CheckReferences(steps: seq<StepDef>) returns (r: Result<(), FlowError>)
    ensures r.Ok? <==> AllDependenciesPresent(steps)
    ensures r.Err? ==> r.error.MissingDependency? && NamesFirstMissing(r.error, steps)
  {
    var idSet := IdSet(steps);
    for i := 0 to |steps|
      invariant forall j, d :: 0 <= j < i && d in steps[j].dependsOn ==> d in idSet
      invariant forall j :: 0 <= j < i ==> !MissesDependency(steps[j], steps)
    {
      for k := 0 to |steps[i].dependsOn|
        invariant forall l :: 0 <= l < k ==> steps[i].dependsOn[l] in idSet
      {
        if steps[i].dependsOn[k] !in idSet {
          assert steps[i] in steps && steps[i].dependsOn[k] in steps[i].dependsOn;
          assert MissesDependency(steps[i], steps);
          return Err(MissingDependency(steps[i].name));
        }
      }
      AllNamed(steps[i], steps);
    }
    forall s, d | s in steps && d in s.dependsOn
      ensures d in idSet
    {
      var j :| 0 <= j < |steps| && steps[j] == s;
    }
    r := Ok(());
  }

  lemma EmptyIsSettled(g: Graph)
    ensures Settled(g, {})
  {
  }

  method CheckCycles(name: string, steps: seq<StepDef>) returns (r: Result<(), FlowError>)
    ensures r == Err(CycleDetected(name)) <==> HasCycle(DependencyGraph(steps))
    ensures r.Err? && r.error.MissingDependency? <==>
      !HasCycle(DependencyGraph(steps)) && !AllDependenciesPresent(steps)
    ensures r.Ok? || r == Err(CycleDetected(name)) || (r.error.MissingDependency? && NamesFirstMissing(r.error, steps))
  {
    hide AllDependenciesPresent, HasCycle, Settled, NamesFirstMissing;
    var deps := DependencyGraph(steps);
    TableCoversSteps(steps);
    var visited, inStack := {}, {};
    EmptyIsSettled(deps);
    for i := 0 to |steps|
      invariant inStack == {} && Settled(deps, visited)
      invariant forall j :: 0 <= j < i ==> steps[j].id in visited
    {
      assert visited - inStack == visited;
      if steps[i].id !in visited {
        var found;
        found, visited, inStack := Dfs(steps[i].id, deps, visited, inStack);
        if found {
          return Err(CycleDetected(name));
        }
        assert visited - inStack == visited;
      }
    }
    SettledGraphIsAcyclic(deps, visited);
    r := CheckReferences(steps);
  }

  /** The error names the first step with dependencies. */
  ghost predicate NamesFirstNested(error: FlowError, steps: seq<StepDef>) {
    exists i :: 0 <= i < |steps| && error == DependencyInHierarchy(steps[i].name)
      && steps[i].dependsOn != [] && forall j :: 0 <= j < i ==> steps[j].dependsOn == []
  }

  lemma FirstHere(error: FlowError, before: seq<StepDef>, step: StepDef, after: seq<StepDef>)
    requires (forall s :: s in before ==> s.dependsOn == []) && step.dependsOn != []
    requires error == DependencyInHierarchy(step.name)
    ensures NamesFirstNested(error, before + ([step] + after))
  {
    var all := before + ([step] + after);
    assert all[|before|] == step && forall j :: 0 <= j < |before| ==> all[j] == before[j];
  }

  lemma FirstWithin(error: FlowError, before: seq<StepDef>, middle: seq<StepDef>, after: seq<StepDef>)
    requires (forall s :: s in before ==> s.dependsOn == []) && NamesFirstNested(error, middle)
    ensures NamesFirstNested(error, before + (middle + after))
  {
    var all := before + (middle + after);
    var i :| 0 <= i < |middle| && error == DependencyInHierarchy(middle[i].name)
      && middle[i].dependsOn != [] && forall j :: 0 <= j < i ==> middle[j].dependsOn == [];
    assert forall j :: 0 <= j < |middle| ==> all[|before| + j] == middle[j];
    assert forall j :: 0 <= j < |before| ==> all[j] == before[j];
    assert all[|before| + i] == middle[i];
    forall j | 0 <= j < |before| + i
      ensures all[j].dependsOn == []
    {
      if j >= |before| {
        assert all[j] == middle[j - |before|];
      }
    }
  }

  lemma PreorderAt(steps: seq<StepDef>, i: nat)
    requires i < |steps|
    ensures var before, below, after := Preorder(steps[..i]), Preorder(steps[i].subSteps), Preorder(steps[i + 1..]);
      && Preorder(steps) == before + ([steps[i]] + (below + after))
      && Preorder(steps) == (before + [steps[i]]) + (below + after)
  {
    var rest := steps[i..];
    assert steps == steps[..i] + rest && rest[0] == steps[i] && rest[1..] == steps[i + 1..];
    PreorderConcat(steps[..i], rest);
    assert Preorder(rest) == [rest[0]] + Preorder(rest[0].subSteps) + Preorder(rest[1..]);
    hide Preorder;
    SequenceRegroup(Preorder(steps[..i]), steps[i], Preorder(steps[i].subSteps), Preorder(steps[i + 1..]));
  }

  lemma SequenceRegroup(a: seq<StepDef>, s: StepDef, b: seq<StepDef>, c: seq<StepDef>)
    ensures a + ([s] + b + c) == a + ([s] + (b + c)) == (a + [s]) + (b + c)
  {
  }

  method ValidateHierarchical(steps: seq<StepDef>) returns (r: Result<(), FlowError>)
    ensures r.Ok? <==> forall s :: s in Preorder(steps) ==> s.dependsOn == []
    ensures r.Err? ==> r.error.DependencyInHierarchy? && NamesFirstNested(r.error, Preorder(steps))
    decreases steps
  {
    hide NamesFirstNested;
    for i := 0 to |steps|
      invariant forall s :: s in Preorder(steps) <==> s in Preorder(steps[..i]) || s in Preorder(steps[i..])
      invariant forall s :: s in Preorder(steps[..i]) ==> s.dependsOn == []
    {
      PreorderSplit(steps[..i], steps[i]);
      assert steps[..i] + [steps[i]] == steps[..i + 1];
      assert steps[i..][0] == steps[i] && steps[i..][1..] == steps[i + 1..];
      PreorderAt(steps, i);
      if steps[i].dependsOn != [] {
        r := Err(DependencyInHierarchy(steps[i].name));
        FirstHere(r.error, Preorder(steps[..i]), steps[i], Preorder(steps[i].subSteps) + Preorder(steps[i + 1..]));
        return;
      }
      r := ValidateHierarchical(steps[i].subSteps);
      if r.Err? {
        FirstWithin(r.error, Preorder(steps[..i]) + [steps[i]], Preorder(steps[i].subSteps), Preorder(steps[i + 1..]));
        return;
      }
    }
    assert steps[..|steps|] == steps;
    r := Ok(());
  }

  lemma PreorderSplit(front: seq<StepDef>, last: StepDef)
    ensures Preorder(front + [last]) == Preorder(front) + [last] + Preorder(last.subSteps)
  {
    PreorderConcat(front, [last]);
    assert [last][1..] == [] && Preorder([last]) == [last] + Preorder(last.subSteps) + Preorder([]);
  }

  /** What a flow must satisfy to be run. */
  ghost predicate WellFormed(flow: FlowDef) {
    && (flow.mode == Dag ==> !HasCycle(DependencyGraph(flow.steps)) && AllDependenciesPresent(flow.steps))
    && (flow.mode != Dag ==> forall s :: s in flow.steps ==> s.dependsOn == [])
    && (flow.mode == Hierarchical ==> forall s :: s in Preorder(flow.steps) ==> s.dependsOn == [])
    && forall s :: s in flow.steps && s.triggerMode == Any ==> s.dependsOn != []
  }

  /** A step that waits for any of no dependencies. */
  predicate IsIdle(step: StepDef) {
    step.triggerMode == Any && step.dependsOn == []
  }

  ghost predicate NamesFirstIdle(error: FlowError, steps: seq<StepDef>) {
    exists i :: 0 <= i < |steps| && error == AnyWithoutDependencies(steps[i].name)
      && IsIdle(steps[i]) && forall j :: 0 <= j < i ==> !IsIdle(steps[j])
  }

  method Validate(flow: FlowDef) returns (r: Result<(), FlowError>)
    ensures r.Ok? <==> WellFormed(flow)
    ensures r == Err(CycleDetected(flow.name)) <==> flow.mode == Dag && HasCycle(DependencyGraph(flow.steps))
    // Every other error names what is wrong, in the order the checks are made.
    ensures r == Err(DependencyOutsideDag(flow.mode)) <==> flow.mode != Dag && exists s :: s in flow.steps && s.dependsOn != []
    ensures r.Err? ==>
      || (r.error == CycleDetected(flow.name) && flow.mode == Dag)
      || (flow.mode == Dag && NamesFirstMissing(r.error, flow.steps))
      || r.error == DependencyOutsideDag(flow.mode)
      || (flow.mode == Hierarchical && NamesFirstNested(r.error, Preorder(flow.steps)))
      || (NamesFirstIdle(r.error, flow.steps)
          && (flow.mode == Hierarchical ==> forall s :: s in Preorder(flow.steps) ==> s.dependsOn == []))
  {
    hide NamesFirstMissing, NamesFirstNested;
    if flow.mode == Dag {
      r := CheckCycles(flow.name, flow.steps);
      if r.Err? {
        return;
      }
    } else if exists s :: s in flow.steps && s.dependsOn != [] {
      return Err(DependencyOutsideDag(flow.mode));
    }
    if flow.mode == Hierarchical {
      r := ValidateHierarchical(flow.steps);
      if r.Err? {
        return;
      }
    }
    for i := 0 to |flow.steps|
      invariant forall j :: 0 <= j < i ==> !IsIdle(flow.steps[j])
    {
      if flow.steps[i].triggerMode == Any && flow.steps[i].dependsOn == [] {
        return Err(AnyWithoutDependencies(flow.steps[i].name));
      }
    }
    r := Ok(());
  }
}
