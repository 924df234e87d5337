/** Paths, cycles and dependency-closed sets in a finite directed graph. */
module Graph {
  type Node = nat
  type Graph = map<Node, seq<Node>>

  predicate Edge(g: Graph, x: Node, y: Node) {
    x in g && y in g[x]
  }

  ghost predicate IsPath(g: Graph, p: seq<Node>) {
    && |p| >= 2
    && forall i :: 0 <= i < |p| - 1 ==> Edge(g, p[i], p[i + 1])
  }

  /** A non-empty path leads from x to y. */
  ghost predicate Reaches(g: Graph, x: Node, y: Node) {
    exists p :: IsPath(g, p) && p[0] == x && p[|p| - 1] == y
  }

  ghost predicate HasCycle(g: Graph) {
    exists x :: Reaches(g, x, x)
  }

  /** Every node mentioned anywhere in the graph. */
  ghost function Universe(g: Graph): set<Node> {
    g.Keys + set x, y | x in g && y in g[x] :: y
  }

  ghost predicate Closed(g: Graph, s: set<Node>) {
    forall x, y :: x in s && Edge(g, x, y) ==> y in s
  }

  /** A dependency-closed set none of whose nodes lies on a cycle. */
  ghost predicate Settled(g: Graph, s: set<Node>) {
    Closed(g, s) && forall x :: x in s ==> !Reaches(g, x, x)
  }

  lemma EdgeReaches(g: Graph, x: Node, y: Node)
    requires Edge(g, x, y)
    ensures Reaches(g, x, y)
  {
    assert IsPath(g, [x, y]);
  }

  lemma ReachesTransitive(g: Graph, x: Node, y: Node, z: Node)
    requires Reaches(g, x, y) && Reaches(g, y, z)
    ensures Reaches(g, x, z)
  {
    var p :| IsPath(g, p) && p[0] == x && p[|p| - 1] == y;
    var q :| IsPath(g, q) && q[0] == y && q[|q| - 1] == z;
    var r := p + q[1..];
    assert forall i :: |p| - 1 <= i < |r| ==> r[i] == q[i - |p| + 1];
    assert IsPath(g, r);
  }

  /** The first edge of a path. */
  lemma ReachesFirst(g: Graph, x: Node, y: Node) returns (n: Node)
    requires Reaches(g, x, y)
    ensures Edge(g, x, n) && (n == y || Reaches(g, n, y))
  {
    var p :| IsPath(g, p) && p[0] == x && p[|p| - 1] == y;
    n := p[1];
    assert Edge(g, p[0], p[1]);
    if |p| > 2 {
      assert IsPath(g, p[1..]);
    }
  }

  lemma {:induction false} ClosedPath(g: Graph, s: set<Node>, p: seq<Node>, i: nat)
    requires Closed(g, s) && IsPath(g, p) && p[0] in s && i < |p|
    ensures p[i] in s
  {
    if i > 0 {
      ClosedPath(g, s, p, i - 1);
      assert Edge(g, p[i - 1], p[i - 1 + 1]);
    }
  }

  lemma ClosedReaches(g: Graph, s: set<Node>, x: Node, y: Node)
    requires Closed(g, s) && x in s && Reaches(g, x, y)
    ensures y in s
  {
    var p :| IsPath(g, p) && p[0] == x && p[|p| - 1] == y;
    ClosedPath(g, s, p, |p| - 1);
  }

  /** Adding a node whose successors are all settled keeps the set settled. */
  lemma SettleNode(g: Graph, s: set<Node>, x: Node)
    requires Settled(g, s) && x !in s
    requires forall y :: Edge(g, x, y) ==> y in s
    ensures Settled(g, s + {x})
  {
    if Reaches(g, x, x) {
      var n := ReachesFirst(g, x, x);
      if n != x {
        ClosedReaches(g, s, n, x);
      }
    }
  }

  lemma SettledGraphIsAcyclic(g: Graph, s: set<Node>)
    requires Settled(g, s) && g.Keys <= s
    ensures !HasCycle(g)
  {
    if HasCycle(g) {
      var x :| Reaches(g, x, x);
      var n := ReachesFirst(g, x, x);
    }
  }

  ghost predicate HasSuccessorIn(g: Graph, x: Node, u: set<Node>) {
    exists y :: y in u && Edge(g, x, y)
  }

  ghost predicate Endless(g: Graph, u: set<Node>) {
    forall x {:trigger HasSuccessorIn(g, x, u)} :: x in u ==> HasSuccessorIn(g, x, u)
  }

  ghost function ReachedWithin(g: Graph, x: Node, u: set<Node>): set<Node> {
    set y | y in u && Reaches(g, x, y)
  }

  lemma ReachedIsEndless(g: Graph, x: Node, u: set<Node>)
    requires Endless(g, u) && x in u
    ensures Endless(g, ReachedWithin(g, x, u)) && ReachedWithin(g, x, u) != {}
  {
    assert HasSuccessorIn(g, x, u);
    var n :| n in u && Edge(g, x, n);
    EdgeReaches(g, x, n);
    assert n in ReachedWithin(g, x, u);
    forall y | y in ReachedWithin(g, x, u)
      ensures HasSuccessorIn(g, y, ReachedWithin(g, x, u))
    {
      assert HasSuccessorIn(g, y, u);
      var z :| z in u && Edge(g, y, z);
      EdgeReaches(g, y, z);
      ReachesTransitive(g, x, y, z);
    }
  }

  /** A finite non-empty set in which every node has a successor holds a cycle. */
  lemma {:induction false} EndlessSetHasCycle(g: Graph, u: set<Node>)
    requires u != {} && Endless(g, u)
    ensures HasCycle(g)
    decreases u
  {
    var x :| x in u;
    var r := ReachedWithin(g, x, u);
    ReachedIsEndless(g, x, u);
    if x !in r {
      EndlessSetHasCycle(g, r);
    }
  }
}
