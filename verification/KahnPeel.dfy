/** The iterative peel-off cycle detector that the flow fuzzer holds against validation
    (fuzz/flow_validate.fcyr), and its agreement with the depth-first search. */
module KahnPeel {
  import opened Wrappers
  import opened Steps
  import opened Graph
  import opened Flow

  // A flat edge list [from0, to0, from1, to1, ...]; "from depends on to".
  type EdgeList = seq<nat>

  function EdgeCount(edges: EdgeList): (m: nat)
    ensures 2 * m <= |edges| <= 2 * m + 1
  {
    |edges| / 2
  }

  ghost predicate WithinNodes(n: nat, edges: EdgeList) {
    forall i :: 0 <= i < |edges| ==> edges[i] < n
  }

  /** The dependencies of `node` among the first `m` edges, in list order. */
  function DependenciesOf(node: nat, edges: EdgeList, m: nat): (d: seq<nat>)
    requires m <= EdgeCount(edges)
    ensures forall y :: y in d <==> exists e :: 0 <= e < m && edges[2 * e] == node && edges[2 * e + 1] == y
  {
    if m == 0 then []
    else
      var rest := DependenciesOf(node, edges, m - 1);
      if edges[2 * (m - 1)] == node then rest + [edges[2 * (m - 1) + 1]] else rest
  }

  function EdgeGraph(n: nat, edges: EdgeList): Graph {
    map i | 0 <= i < n :: DependenciesOf(i, edges, EdgeCount(edges))
  }

  /** The array marks exactly the nodes deleted so far. */
  ghost predicate Marks(n: nat, removed: array<bool>, gone: set<nat>)
    reads removed
  {
    && removed.Length == n
    && (forall i :: 0 <= i < n ==> (removed[i] <==> i in gone))
    && (forall i :: i in gone ==> i < n)
  }

  /** The innermost loop: how many of the node's dependencies are still present. */
  method CountPending(n: nat, edges: EdgeList, removed: array<bool>, node: nat, ghost gone: set<nat>)
    returns (pending: nat)
    requires WithinNodes(n, edges) && Marks(n, removed, gone) && node < n
    ensures pending == 0 <==> forall y :: Edge(EdgeGraph(n, edges), node, y) ==> y in gone
    ensures pending > 0 ==> HasSuccessorIn(EdgeGraph(n, edges), node, Left(n, gone))
  {
    pending := 0;
    for e := 0 to EdgeCount(edges)
      invariant pending == 0 <==> forall k :: 0 <= k < e && edges[2 * k] == node ==> edges[2 * k + 1] in gone
      invariant pending > 0 ==> HasSuccessorIn(EdgeGraph(n, edges), node, Left(n, gone))
    {
      if edges[2 * e] == node {
        var to := edges[2 * e + 1];
        if !removed[to] {
          assert Edge(EdgeGraph(n, edges), node, to) && to in Left(n, gone);
          pending := pending + 1;
        }
      }
    }
  }

  /** One pass over the nodes: deletes every node whose dependencies are all deleted when its turn
      comes. Without progress every node left has a dependency left. */
  method PeelPass(n: nat, edges: EdgeList, removed: array<bool>, remaining: nat, ghost gone: set<nat>)
    returns (remaining': nat, progress: bool, ghost gone': set<nat>)
    requires WithinNodes(n, edges) && Marks(n, removed, gone) && Settled(EdgeGraph(n, edges), gone)
    requires remaining == n - |gone|
    modifies removed
    ensures Marks(n, removed, gone') && Settled(EdgeGraph(n, edges), gone') && remaining' == n - |gone'|
    ensures if progress then remaining' < remaining else remaining' == remaining
    ensures !progress ==> Endless(EdgeGraph(n, edges), Left(n, gone'))
  {
    hide Settled, WithinNodes;
    ghost var g := EdgeGraph(n, edges);
    remaining', progress, gone' := remaining, false, gone;
    for node := 0 to n
      invariant Marks(n, removed, gone') && Settled(g, gone') && remaining' == n - |gone'|
      invariant if progress then remaining' < remaining else remaining' == remaining
      invariant !progress ==> forall i :: 0 <= i < node && i !in gone' ==> HasSuccessorIn(g, i, Left(n, gone'))
    {
      if !removed[node] {
        var pending := CountPending(n, edges, removed, node, gone');
        if pending == 0 {
          SettleNode(g, gone', node);
          removed[node] := true;
          gone' := gone' + {node};
          SubsetSize(n, gone');
          remaining' := remaining' - 1;
          progress := true;
        }
      }
    }
  }

  method KahnAcyclic(n: nat, edges: EdgeList) returns (acyclic: bool)
    requires WithinNodes(n, edges)
    ensures acyclic <==> !HasCycle(EdgeGraph(n, edges))
  {
    hide WithinNodes, Settled, HasCycle, Endless;
    ghost var g := EdgeGraph(n, edges);
    var removed := new bool[n](i => false);
    var remaining := n;
    ghost var gone: set<nat> := {};
    EmptyIsSettled(g);
    var progress := true;
    while progress
      invariant Marks(n, removed, gone) && Settled(g, gone) && remaining == n - |gone|
      invariant !progress ==> Endless(g, Left(n, gone))
      decreases remaining, progress
    {
      remaining, progress, gone := PeelPass(n, edges, removed, remaining, gone);
    }
    PeelVerdict(n, edges, gone);
    acyclic := remaining == 0;
  }

  /** When no more can be deleted, all nodes are gone exactly if the graph is acyclic. */
  lemma PeelVerdict(n: nat, edges: EdgeList, gone: set<nat>)
    requires (forall i :: i in gone ==> i < n) && Settled(EdgeGraph(n, edges), gone)
    requires Endless(EdgeGraph(n, edges), Left(n, gone))
    ensures |gone| == n <==> !HasCycle(EdgeGraph(n, edges))
  {
    var g := EdgeGraph(n, edges);
    SubsetSize(n, gone);
    if |gone| == n {
      assert Left(n, gone) == {};
      forall x | x in g
        ensures x in gone
      {
        assert x !in Left(n, gone);
      }
      SettledGraphIsAcyclic(g, gone);
    } else {
      EndlessSetHasCycle(g, Left(n, gone));
    }
  }

  ghost function Left(n: nat, gone: set<nat>): set<nat> {
    set i | 0 <= i < n && i !in gone
  }

  lemma {:induction false} SubsetSize(n: nat, s: set<nat>)
    requires forall i :: i in s ==> i < n
    ensures |s| + |Left(n, s)| == n
  {
    if n > 0 {
      SubsetSize(n - 1, s - {n - 1});
      if n - 1 in s {
        assert Left(n, s) == Left(n - 1, s - {n - 1});
      } else {
        assert s == s - {n - 1};
        assert Left(n, s) == Left(n - 1, s) + {n - 1};
      }
    }
  }

  /** The flow the fuzzer builds from an edge list: step i depends on every target of i. */
  function BuildSteps(n: nat, edges: EdgeList): seq<StepDef> {
    seq(n, i requires 0 <= i < n =>
      StepDef(i, "s", 30000, 0, 1000, Fixed, false, None, DependenciesOf(i, edges, EdgeCount(edges)), All, []))
  }

  lemma BuiltGraph(n: nat, edges: EdgeList)
    requires WithinNodes(n, edges)
    ensures DependencyGraph(BuildSteps(n, edges)) == EdgeGraph(n, edges)
    ensures AllDependenciesPresent(BuildSteps(n, edges))
  {
    hide AllDependenciesPresent;
    var steps := BuildSteps(n, edges);
    TableCoversSteps(steps);
    forall x: nat
      ensures x in DependencyGraph(steps) <==> x < n
    {
      if x < n {
        assert steps[x] in steps && steps[x].id == x;
      }
    }
    forall i | 0 <= i < n
      ensures i in DependencyGraph(steps) && DependencyGraph(steps)[i] == EdgeGraph(n, edges)[i]
    {
      TableOfDistinct(steps, i);
    }
    BuiltIsClosed(n, edges);
  }

  lemma EdgeTarget(n: nat, edges: EdgeList, i: nat, d: nat)
    requires WithinNodes(n, edges) && d in DependenciesOf(i, edges, EdgeCount(edges))
    ensures d < n
  {
    var e :| 0 <= e < EdgeCount(edges) && edges[2 * e] == i && edges[2 * e + 1] == d;
    assert 2 * e + 1 < |edges|;
  }

  lemma BuiltIsClosed(n: nat, edges: EdgeList)
    requires WithinNodes(n, edges)
    ensures AllDependenciesPresent(BuildSteps(n, edges))
  {
    var steps := BuildSteps(n, edges);
    forall i, d | 0 <= i < n && d in steps[i].dependsOn
      ensures d in IdSet(steps)
    {
      EdgeTarget(n, edges, i, d);
      assert steps[d] in steps && steps[d].id == d;
    }
  }

  /** The two detectors give one verdict on every graph, self-loops and repeated edges included. */
  method Differential(n: nat, edges: EdgeList) returns (valid: bool, acyclic: bool)
    requires WithinNodes(n, edges)
    ensures valid == acyclic
    ensures valid <==> !HasCycle(EdgeGraph(n, edges))
  {
    BuiltGraph(n, edges);
    var flow := FlowDef("fuzz", Dag, BuildSteps(n, edges), false, 1);
    var verdict := Validate(flow);
    valid := verdict.Ok?;
    acyclic := KahnAcyclic(n, edges);
  }
}
