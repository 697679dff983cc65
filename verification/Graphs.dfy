/** Finite directed graphs as adjacency maps, and reachability along paths. */
module Graphs {

  /** Nodes are numbered as they are recorded. */
  type Node = nat

  type Graph = map<Node, set<Node>>

  /** Every edge ends at a node of the graph. */
  ghost predicate WellFormed(g: Graph) {
    forall x :: x in g ==> g[x] <= g.Keys
  }

  ghost predicate IsPath(g: Graph, p: seq<Node>) {
    && p != []
    && (forall i :: 0 <= i < |p| ==> p[i] in g)
    && (forall i :: 0 < i < |p| ==> p[i] in g[p[i - 1]])
  }

  ghost predicate PathFromTo(g: Graph, p: seq<Node>, x: Node, y: Node) {
    IsPath(g, p) && p[0] == x && p[|p| - 1] == y
  }

  /** `y` can be reached from `x` in zero or more steps. */
  ghost predicate Reach(g: Graph, x: Node, y: Node) {
    exists p :: PathFromTo(g, p, x, y)
  }

  lemma {:induction false} ReachSelf(g: Graph, x: Node)
    requires x in g
    ensures Reach(g, x, x)
  {
    assert PathFromTo(g, [x], x, x);
  }

  lemma {:induction false} ReachTransitive(g: Graph, x: Node, y: Node, z: Node)
    requires Reach(g, x, y) && Reach(g, y, z)
    ensures Reach(g, x, z)
  {
    var p :| PathFromTo(g, p, x, y);
    var q :| PathFromTo(g, q, y, z);
    assert PathFromTo(g, p + q[1..], x, z);
  }

  lemma {:induction false} ReachEdge(g: Graph, x: Node, y: Node)
    requires x in g && y in g[x] && y in g
    ensures Reach(g, x, y)
  {
    assert PathFromTo(g, [x, y], x, y);
  }

  lemma {:induction false} ReachAppend(g: Graph, x: Node, y: Node, z: Node)
    requires Reach(g, x, y) && z in g[y] && z in g && y in g
    ensures Reach(g, x, z)
  {
    ReachEdge(g, y, z);
    ReachTransitive(g, x, y, z);
  }

  lemma {:induction false} ReachInGraph(g: Graph, x: Node, y: Node)
    requires Reach(g, x, y)
    ensures x in g && y in g
  {
    var p :| PathFromTo(g, p, x, y);
  }

  /** A path that starts in `s` and ends outside it crosses the border somewhere. */
  lemma {:induction false} Crossing(g: Graph, s: set<Node>, x: Node, y: Node) returns (a: Node, b: Node)
    requires Reach(g, x, y) && x in s && y !in s
    ensures a in s && b !in s && a in g && b in g && b in g[a] && Reach(g, x, a) && Reach(g, b, y)
  {
    var p :| PathFromTo(g, p, x, y);
    var i := 0;
    while p[i + 1] in s
      invariant 0 <= i < |p| - 1 && p[i] in s
      decreases |p| - i
    {
      i := i + 1;
    }
    a, b := p[i], p[i + 1];
    assert PathFromTo(g, p[..i + 1], x, a);
    assert PathFromTo(g, p[i + 1..], b, y);
  }

  /** What is closed under edges and contains `x` contains all that `x` reaches. */
  lemma {:induction false} ForwardClosed(g: Graph, s: set<Node>, x: Node, y: Node)
    requires Reach(g, x, y) && x in s && forall a :: a in s && a in g ==> g[a] <= s
    ensures y in s
  {
    if y !in s {
      var a, b := Crossing(g, s, x, y);
    }
  }

  lemma {:induction false} FirstEdge(g: Graph, x: Node, y: Node) returns (z: Node)
    requires Reach(g, x, y) && x != y
    ensures x in g && z in g[x] && Reach(g, z, y)
  {
    var p :| PathFromTo(g, p, x, y);
    z := p[1];
    assert PathFromTo(g, p[1..], z, y);
  }

  // ----- strongly connected components and cycles -----

  ghost predicate Mates(g: Graph, x: Node, y: Node) {
    Reach(g, x, y) && Reach(g, y, x)
  }

  lemma {:induction false} MatesTransitive(g: Graph, x: Node, y: Node, z: Node)
    requires Mates(g, x, y) && Mates(g, y, z)
    ensures Mates(g, x, z)
  {
    ReachTransitive(g, x, y, z);
    ReachTransitive(g, z, y, x);
  }

  ghost function Component(g: Graph, x: Node): set<Node> {
    set y | y in g && Mates(g, x, y)
  }

  /** `x` lies on a closed path of at least one edge. */
  ghost predicate OnCycle(g: Graph, x: Node) {
    x in g && exists y :: y in g[x] && Reach(g, y, x)
  }
}
