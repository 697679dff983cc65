/** `analyze_graph` of the serializer-GC analyser: iterative Kosaraju, then cycles and
    what is downstream of them (scripts/summarize_serializer_gc.py:177-222). */
module GraphAnalysis {
  import opened Graphs
  import opened Sets

  // ----- finishing order of the first pass -----

  /** A node that finished at `i` and reaches something not finished by then has a mate
      that is not finished by then either. */
  ghost predicate FinishesWithMate(g: Graph, f: seq<Node>, i: nat)
    requires i < |f|
  {
    forall y :: Reach(g, f[i], y) && y !in f[..i + 1] ==> exists m :: m !in f[..i + 1] && Mates(g, f[i], m)
  }

  ghost predicate Distinct(f: seq<Node>) {
    forall i, j :: 0 <= i < j < |f| ==> f[i] != f[j]
  }

  ghost predicate ClosedOk(g: Graph, visited: set<Node>, f: seq<Node>) {
    && Distinct(f)
    && (forall i :: 0 <= i < |f| ==> f[i] in g && f[i] in visited && g[f[i]] <= visited && FinishesWithMate(g, f, i))
  }

  /** The open nodes are the expanded entries of the stack, each there once. */
  ghost predicate OpenOk(g: Graph, visited: set<Node>, f: seq<Node>, stack: seq<(Node, bool)>) {
    && (forall k :: 0 <= k < |stack| ==> stack[k].0 in g)
    && (forall k :: 0 <= k < |stack| && stack[k].1 ==> stack[k].0 in visited && stack[k].0 !in f)
    && (forall k, l :: 0 <= k < l < |stack| && stack[k].1 && stack[l].1 ==> stack[k].0 != stack[l].0)
    && (forall x :: x in visited && x !in f ==> (x, true) in stack)
  }

  /** Every open node reaches all that lies above it. */
  ghost predicate Chained(g: Graph, stack: seq<(Node, bool)>) {
    forall k, l :: 0 <= k < l < |stack| && stack[k].1 ==> Reach(g, stack[k].0, stack[l].0)
  }

  /** Every unvisited child of an open node waits above it. */
  ghost predicate Waiting(g: Graph, visited: set<Node>, stack: seq<(Node, bool)>)
    requires forall k :: 0 <= k < |stack| ==> stack[k].0 in g
  {
    forall k, c :: 0 <= k < |stack| && stack[k].1 && c in g[stack[k].0] && c !in visited ==> WaitsAbove(stack, k, c)
  }

  ghost predicate WaitsAbove(stack: seq<(Node, bool)>, k: nat, c: Node) {
    exists l :: k < l < |stack| && stack[l] == (c, false)
  }

  ghost predicate Searching(g: Graph, visited: set<Node>, f: seq<Node>, stack: seq<(Node, bool)>) {
    && visited <= g.Keys && WellFormed(g)
    && ClosedOk(g, visited, f) && OpenOk(g, visited, f, stack) && Chained(g, stack) && Waiting(g, visited, stack)
  }

  /** The node on top of the stack has only visited children, so it may be closed. */
  lemma {:induction false} CloseTop(g: Graph, visited: set<Node>, f: seq<Node>, stack: seq<(Node, bool)>)
    requires Searching(g, visited, f, stack)
    requires stack != [] && stack[|stack| - 1].1
    ensures ClosedOk(g, visited, f + [stack[|stack| - 1].0])
  {
    var x := stack[|stack| - 1].0;
    var done := f + [x];
    forall c | c in g[x] ensures c in visited {
      assert c !in visited ==> WaitsAbove(stack, |stack| - 1, c);
    }
    forall y | Reach(g, x, y) && y !in done
      ensures exists m :: m !in done && Mates(g, x, m)
    {
      var a, b := Crossing(g, (set z | z in done), x, y);
      assert (b, true) in stack;
      ReachAppend(g, x, a, b);
      assert Mates(g, x, b);
    }
    forall i | 0 <= i < |done| ensures FinishesWithMate(g, done, i) {
      if i < |f| {
        assert done[..i + 1] == f[..i + 1];
        assert FinishesWithMate(g, f, i);
      } else {
        assert done[..i + 1] == done;
      }
    }
  }

  /** Taking the top entry off leaves the rest as it was. */
  lemma {:induction false} PopOk(g: Graph, visited: set<Node>, stack: seq<(Node, bool)>)
    requires stack != [] && Chained(g, stack)
    requires (forall k :: 0 <= k < |stack| ==> stack[k].0 in g) && Waiting(g, visited, stack)
    ensures var rest, top := stack[..|stack| - 1], stack[|stack| - 1];
            Chained(g, rest) && Waiting(g, visited + {top.0}, rest)
  {
    hide Reach;
    var rest, top := stack[..|stack| - 1], stack[|stack| - 1];
    forall k, c | 0 <= k < |rest| && rest[k].1 && c in g[rest[k].0] && c !in visited + {top.0}
      ensures WaitsAbove(rest, k, c)
    {
      assert WaitsAbove(stack, k, c);
      var l :| k < l < |stack| && stack[l] == (c, false);
      assert rest[l] == (c, false);
    }
  }

  lemma {:induction false} CloseStep(g: Graph, visited: set<Node>, f: seq<Node>, stack: seq<(Node, bool)>)
    requires Searching(g, visited, f, stack)
    requires stack != [] && stack[|stack| - 1].1
    ensures Searching(g, visited, f + [stack[|stack| - 1].0], stack[..|stack| - 1])
  {
    hide ClosedOk, Chained, Waiting, Reach;
    CloseTop(g, visited, f, stack);
    PopOk(g, visited, stack);
    var x, rest := stack[|stack| - 1].0, stack[..|stack| - 1];
    assert visited + {x} == visited;
    forall y | y in visited && y !in f + [x] ensures (y, true) in rest {
      assert (y, true) in stack;
    }
  }

  lemma {:induction false} SkipStep(g: Graph, visited: set<Node>, f: seq<Node>, stack: seq<(Node, bool)>)
    requires Searching(g, visited, f, stack)
    requires stack != [] && !stack[|stack| - 1].1 && stack[|stack| - 1].0 in visited
    ensures Searching(g, visited, f, stack[..|stack| - 1])
  {
    hide ClosedOk, Chained, Waiting, Reach;
    PopOk(g, visited, stack);
    var rest := stack[..|stack| - 1];
    assert visited + {stack[|stack| - 1].0} == visited;
    forall y | y in visited && y !in f ensures (y, true) in rest {
      assert (y, true) in stack;
    }
  }

  /** A node is opened and its children are put above it. */
  lemma {:induction false} OpenStep(g: Graph, visited: set<Node>, f: seq<Node>, stack: seq<(Node, bool)>,
                                    children: seq<(Node, bool)>)
    requires Searching(g, visited, f, stack)
    requires stack != [] && !stack[|stack| - 1].1 && stack[|stack| - 1].0 !in visited
    requires forall c :: c in g[stack[|stack| - 1].0] <==> (c, false) in children
    requires forall k :: 0 <= k < |children| ==> !children[k].1 && children[k].0 in g[stack[|stack| - 1].0]
    ensures var x := stack[|stack| - 1].0;
            Searching(g, visited + {x}, f, stack[..|stack| - 1] + [(x, true)] + children)
  {
    hide ClosedOk, Chained, Waiting, Reach;
    var x, rest := stack[|stack| - 1].0, stack[..|stack| - 1];
    var next := rest + [(x, true)] + children;
    assert ClosedOk(g, visited + {x}, f) by { ClosedGrows(g, visited, f, x); }
    PopOk(g, visited, stack);
    OpenedOk(g, visited, stack, children);
    forall y | y in visited + {x} && y !in f ensures (y, true) in next {
      if y == x {
        assert next[|rest|] == (y, true);
      } else {
        assert (y, true) in stack;
        assert (y, true) in rest;
      }
    }
    assert x !in f by { ClosedVisited(g, visited, f, x); }
  }

  lemma {:induction false} ClosedGrows(g: Graph, visited: set<Node>, f: seq<Node>, x: Node)
    requires ClosedOk(g, visited, f)
    ensures ClosedOk(g, visited + {x}, f)
  {
  }

  lemma {:induction false} ClosedVisited(g: Graph, visited: set<Node>, f: seq<Node>, x: Node)
    requires ClosedOk(g, visited, f) && x !in visited
    ensures x !in f
  {
  }

  lemma {:induction false} OpenedOk(g: Graph, visited: set<Node>, stack: seq<(Node, bool)>, children: seq<(Node, bool)>)
    requires WellFormed(g) && stack != [] && Chained(g, stack)
    requires (forall k :: 0 <= k < |stack| ==> stack[k].0 in g) && Waiting(g, visited, stack)
    requires forall c :: c in g[stack[|stack| - 1].0] <==> (c, false) in children
    requires forall k :: 0 <= k < |children| ==> !children[k].1 && children[k].0 in g[stack[|stack| - 1].0]
    ensures var x := stack[|stack| - 1].0;
            var next := stack[..|stack| - 1] + [(x, true)] + children;
            && (forall k :: 0 <= k < |next| ==> next[k].0 in g)
            && Chained(g, next) && Waiting(g, visited + {x}, next)
  {
    hide Reach;
    var x, n := stack[|stack| - 1].0, |stack| - 1;
    var next := stack[..n] + [(x, true)] + children;
    assert forall k :: n < k < |next| ==> next[k] == children[k - n - 1];
    assert forall k :: 0 <= k < |next| && next[k].1 ==> k <= n;
    forall k, l | 0 <= k < l < |next| && next[k].1 ensures Reach(g, next[k].0, next[l].0) {
      if n < l {
        if k < n { ReachAppend(g, next[k].0, x, next[l].0); } else { ReachEdge(g, x, next[l].0); }
      }
    }
    forall k, c | 0 <= k < |next| && next[k].1 && c in g[next[k].0] && c !in visited + {x} ensures WaitsAbove(next, k, c) {
      if k < n {
        assert WaitsAbove(stack, k, c);
        var l :| k < l < |stack| && stack[l] == (c, false);
        assert next[l] == (c, false);
      } else {
        var l :| 0 <= l < |children| && children[l] == (c, false);
        assert next[n + 1 + l] == (c, false);
      }
    }
  }

  /** `(child, False)` for every child, largest child first. */
  method Unexpanded(s: set<Node>) returns (q: seq<(Node, bool)>)
    ensures forall c :: c in s <==> (c, false) in q
    ensures forall k :: 0 <= k < |q| ==> !q[k].1 && q[k].0 in s
    ensures forall k, l :: 0 <= k < l < |q| ==> q[l].0 < q[k].0
  {
    q := [];
    var todo := s;
    while todo != {}
      invariant todo <= s
      invariant forall c :: c in s - todo <==> (c, false) in q
      invariant forall k :: 0 <= k < |q| ==> !q[k].1 && q[k].0 in s - todo
      invariant forall k, c :: 0 <= k < |q| && c in todo ==> c < q[k].0
      invariant forall k, l :: 0 <= k < l < |q| ==> q[l].0 < q[k].0
      decreases todo
    {
      var c := Largest(todo);
      todo := todo - {c};
      q := q + [(c, false)];
    }
  }

  method Largest(s: set<Node>) returns (m: Node)
    requires s != {}
    ensures m in s && forall x :: x in s ==> x <= m
  {
    m :| m in s;
    var todo := s - {m};
    while todo != {}
      invariant todo <= s && m in s && forall x :: x in s ==> x in todo || x <= m
      decreases todo
    {
      var x :| x in todo;
      m := if m < x then x else m;
      todo := todo - {x};
    }
  }

  /** The first pass: depth-first search from every node, without recursion. */
  method FinishingOrder(g: Graph, nodes: seq<Node>) returns (f: seq<Node>)
    requires WellFormed(g) && (set x | x in nodes) == g.Keys
    ensures Distinct(f) && (set x | x in f) == g.Keys
    ensures forall i :: 0 <= i < |f| ==> FinishesWithMate(g, f, i)
  {
    var visited: set<Node> := {};
    f := [];
    for r := 0 to |nodes|
      invariant Searching(g, visited, f, [])
      invariant forall k :: 0 <= k < r ==> nodes[k] in visited
    {
      assert nodes[r] in g;
      var stack := [(nodes[r], false)];
      while stack != []
        invariant Searching(g, visited, f, stack)
        invariant forall k :: 0 <= k < r ==> nodes[k] in visited
        invariant nodes[r] in visited || (stack != [] && stack[0] == (nodes[r], false))
        decreases g.Keys - visited, |stack|
      {
        var (node, expanded) := stack[|stack| - 1];
        if expanded {
          CloseStep(g, visited, f, stack);
          f := f + [node];
          stack := stack[..|stack| - 1];
        } else if node !in visited {
          var children := Unexpanded(g[node]);
          OpenStep(g, visited, f, stack, children);
          visited := visited + {node};
          stack := stack[..|stack| - 1] + [(node, true)] + children;
        } else {
          SkipStep(g, visited, f, stack);
          stack := stack[..|stack| - 1];
        }
      }
    }
    forall x ensures x in f <==> x in g {
      if x in g {
        assert x in nodes by { assert x in (set y | y in nodes); }
        var k :| 0 <= k < |nodes| && nodes[k] == x;
        assert x in visited;
      }
    }
  }

  // ----- second pass: components, in reverse finishing order -----

  ghost predicate Finished(g: Graph, f: seq<Node>) {
    && WellFormed(g) && Distinct(f) && (set x | x in f) == g.Keys
    && (forall i :: 0 <= i < |f| ==> FinishesWithMate(g, f, i))
  }

  ghost predicate IsReverse(g: Graph, r: Graph) {
    && r.Keys == g.Keys
    && (forall x, y :: x in g && y in g ==> (y in g[x] <==> x in r[y]))
    && WellFormed(r)
  }

  ghost predicate MateClosed(g: Graph, s: set<Node>) {
    forall x, y :: x in s && Mates(g, x, y) ==> y in s
  }

  /** Of all mates of `x`, the one that finished last finished after all it reaches. */
  lemma {:induction false} LastMate(g: Graph, f: seq<Node>, x: Node) returns (i: nat)
    requires Finished(g, f) && x in g
    ensures i < |f| && Mates(g, x, f[i]) && forall y :: Reach(g, f[i], y) ==> y in f[..i + 1]
  {
    assert x in f by { assert x in (set z | z in f); }
    ReachSelf(g, x);
    var k :| 0 <= k < |f| && f[k] == x;
    i := |f| - 1;
    while !Mates(g, x, f[i])
      invariant k <= i < |f| && forall j :: i < j < |f| ==> !Mates(g, x, f[j])
      decreases i
    {
      i := i - 1;
    }
    forall y | Reach(g, f[i], y) ensures y in f[..i + 1] {
      assert FinishesWithMate(g, f, i);
      assert forall k :: 0 <= k <= i ==> f[..i + 1][k] == f[k];
      if y !in f[..i + 1] {
        var m :| m !in f[..i + 1] && Mates(g, f[i], m);
        ReachInGraph(g, f[i], m);
        assert m in (set z | z in f);
        var j :| 0 <= j < |f| && f[j] == m;
        assert i < j;
        MatesTransitive(g, x, f[i], f[j]);
      }
    }
  }

  /** Whoever still reaches the next unvisited root is its mate. */
  lemma {:induction false} ReachersAreMates(g: Graph, f: seq<Node>, i: nat, visited: set<Node>, x: Node)
    requires Finished(g, f) && i < |f| && MateClosed(g, visited)
    requires forall j :: i < j < |f| ==> f[j] in visited
    requires x !in visited && Reach(g, x, f[i])
    ensures Mates(g, f[i], x)
  {
    ReachInGraph(g, x, f[i]);
    var j := LastMate(g, f, x);
    ReachTransitive(g, f[j], x, f[i]);
    var k :| 0 <= k < j + 1 && f[k] == f[i] by { assert f[i] in f[..j + 1]; }
    assert k == i;
  }

  /** One search along reversed edges collects exactly the root's component. */
  lemma {:induction false} CollectedExactly(g: Graph, r: Graph, f: seq<Node>, i: nat, before: set<Node>, c: set<Node>)
    requires Finished(g, f) && IsReverse(g, r) && i < |f| && MateClosed(g, before)
    requires f[i] !in before && (forall j :: i < j < |f| ==> f[j] in before)
    requires c !! before && f[i] in c && c <= g.Keys
    requires forall x :: x in c ==> Reach(g, x, f[i]) && r[x] <= before + c
    ensures c == Component(g, f[i])
  {
    var root := f[i];
    forall x | x in c ensures x in Component(g, root) {
      ReachersAreMates(g, f, i, before, x);
    }
    forall y | y in Component(g, root) ensures y in c {
      if y !in c {
        var a, b := Crossing(g, g.Keys - c, y, root);
        assert a in r[b];
        ReachEdge(g, a, b);
        ReachTransitive(g, a, b, root);
        ReachTransitive(g, root, y, a);
        assert Mates(g, a, root);
        assert false;
      }
    }
  }

  lemma {:induction false} ComponentFacts(g: Graph, x: Node)
    requires x in g
    ensures x in Component(g, x) && MateClosed(g, Component(g, x))
    ensures forall y :: y in Component(g, x) ==> Component(g, y) == Component(g, x)
  {
    ReachSelf(g, x);
    forall y, z | y in Component(g, x) && Mates(g, y, z) ensures z in Component(g, x) {
      MatesTransitive(g, x, y, z);
      ReachInGraph(g, y, z);
    }
    forall y | y in Component(g, x) ensures Component(g, y) == Component(g, x) {
      forall z | z in Component(g, x) ensures z in Component(g, y) {
        MatesTransitive(g, y, x, z);
      }
    }
  }

  /** The test made on each component: more than one node, or an edge to itself. */
  lemma {:induction false} CyclicTest(g: Graph, root: Node, x: Node)
    requires WellFormed(g) && root in g && x in Component(g, root)
    ensures OnCycle(g, x) <==> |Component(g, root)| > 1 || root in g[root]
  {
    var c := Component(g, root);
    ReachSelf(g, root);
    ComponentFacts(g, root);
    if forall y :: y in c ==> y == root {
      assert c == {root};
      if OnCycle(g, x) {
        var y :| y in g[x] && Reach(g, y, x);
        ReachEdge(g, x, y);
        assert Mates(g, x, y);
        assert y in c;
      }
    } else {
      var other :| other in c && other != root;
      var y := if x == root then other else root;
      MatesTransitive(g, x, root, y);
      var z := FirstEdge(g, x, y);
      ReachTransitive(g, z, y, x);
      assert {x, y} <= c;
      SubsetSize({x, y}, c);
    }
  }

  // ----- the analysis -----

  ghost predicate Cyclic(g: Graph, c: set<Node>) {
    exists x :: x in c && OnCycle(g, x)
  }

  ghost predicate IsComponent(g: Graph, c: set<Node>) {
    exists x :: x in g && c == Component(g, x)
  }

  ghost predicate InOne(cs: seq<set<Node>>, x: Node) {
    exists k :: 0 <= k < |cs| && x in cs[k]
  }

  /** `cs` are components, no two overlapping, that together make up `all`. */
  ghost predicate Components(g: Graph, cs: seq<set<Node>>, all: set<Node>) {
    && all <= g.Keys
    && (forall k :: 0 <= k < |cs| ==> cs[k] <= all && IsComponent(g, cs[k]))
    && (forall k, l :: 0 <= k < l < |cs| ==> cs[k] !! cs[l])
    && (forall x :: x in all ==> InOne(cs, x))
  }

  lemma {:induction false} ComponentsMateClosed(g: Graph, cs: seq<set<Node>>, all: set<Node>)
    requires Components(g, cs, all)
    ensures MateClosed(g, all) && all <= g.Keys
  {
    hide Mates, Component;
    forall x, y | x in all && Mates(g, x, y) ensures y in all {
      assert InOne(cs, x);
      var k :| 0 <= k < |cs| && x in cs[k];
      assert IsComponent(g, cs[k]);
      var r :| r in g && cs[k] == Component(g, r);
      ComponentFacts(g, r);
      assert y in cs[k];
    }
  }

  lemma {:induction false} ComponentsExtend(g: Graph, cs: seq<set<Node>>, all: set<Node>, root: Node)
    requires Components(g, cs, all) && root in g && root !in all
    ensures Components(g, cs + [Component(g, root)], all + Component(g, root))
    ensures all !! Component(g, root)
  {
    ComponentsMateClosed(g, cs, all);
    var c := Component(g, root);
    ComponentFacts(g, root);
    assert all !! c by {
      assert forall x :: x in c && x in all ==> Mates(g, x, root);
    }
    hide Mates, Component;
    var next := cs + [c];
    forall x | x in all + c ensures InOne(next, x) {
      if x in c {
        assert x in next[|cs|];
      } else {
        assert InOne(cs, x);
        var k :| 0 <= k < |cs| && x in cs[k];
        assert x in next[k];
      }
    }
    assert IsComponent(g, c);
  }

  method PushUnvisited(found: set<Node>, visited: set<Node>, stack: seq<Node>) returns (v: set<Node>, q: seq<Node>)
    ensures v == visited + found
    ensures |q| >= |stack| && (found == {} ==> q == stack)
    ensures forall x :: x in q <==> x in stack || x in found
  {
    v, q := visited, stack;
    var todo := found;
    while todo != {}
      invariant todo <= found && v == visited + (found - todo) && |q| >= |stack|
      invariant found == {} ==> q == stack
      invariant forall x :: x in q <==> x in stack || x in found - todo
      decreases todo
    {
      var child :| child in todo;
      v, q, todo := v + {child}, q + [child], todo - {child};
    }
  }

  /** One search of the second pass. */
  method Collect(g: Graph, reverse: Graph, ghost f: seq<Node>, ghost i: nat, root: Node, before: set<Node>)
      returns (component: set<Node>, visited: set<Node>)
    requires Finished(g, f) && IsReverse(g, reverse) && i < |f| && f[i] == root && MateClosed(g, before)
    requires root !in before && before <= g.Keys && forall j :: i < j < |f| ==> f[j] in before
    ensures component == Component(g, root) && visited == before + component
  {
    component, visited := {}, before + {root};
    var stack := [root];
    assert root in g by { assert root in (set x | x in f); }
    ReachSelf(g, root);
    while stack != []
      invariant component <= visited <= g.Keys && before <= visited && component !! before && root in visited
      invariant forall x :: x in stack ==> x in visited && x !in before
      invariant forall x :: x in visited - before ==> Reach(g, x, root) && (x in component || x in stack)
      invariant forall x :: x in component ==> reverse[x] <= visited
      decreases g.Keys - visited, |stack|
    {
      var node, rest := stack[|stack| - 1], stack[..|stack| - 1];
      assert forall x :: x in stack ==> x == node || x in rest;
      component := component + {node};
      var found := reverse[node] - visited;
      forall x | x in found ensures Reach(g, x, root) && x in g && x !in before {
        assert node in g[x];
        ReachEdge(g, x, node);
        ReachTransitive(g, x, node, root);
      }
      visited, stack := PushUnvisited(found, visited, rest);
    }
    assert visited == before + component;
    CollectedExactly(g, reverse, f, i, before, component);
  }

  /** What the test on one component tells about all its nodes. */
  lemma {:induction false} CyclicComponent(g: Graph, root: Node, c: set<Node>)
    requires WellFormed(g) && root in g && c == Component(g, root)
    ensures Cyclic(g, c) <==> |c| > 1 || root in g[root]
    ensures Cyclic(g, c) <==> forall x :: x in c ==> OnCycle(g, x)
  {
    ComponentFacts(g, root);
    CyclicTest(g, root, root);
    forall x | x in c ensures OnCycle(g, x) <==> |c| > 1 || root in g[root] { CyclicTest(g, root, x); }
  }

  /** The components that hold a cycle, each once. */
  ghost predicate Kept(g: Graph, all: seq<set<Node>>, cycles: seq<set<Node>>, visited: set<Node>) {
    && (forall c :: c in cycles <==> c in all && Cyclic(g, c))
    && (forall k :: 0 <= k < |cycles| ==> cycles[k] <= visited)
    && (forall k, l :: 0 <= k < l < |cycles| ==> cycles[k] !! cycles[l])
  }

  lemma {:induction false} KeptExtends(
      g: Graph, all: seq<set<Node>>, cycles: seq<set<Node>>, visited: set<Node>, c: set<Node>)
    requires Kept(g, all, cycles, visited) && visited !! c
    ensures Kept(g, all + [c], if Cyclic(g, c) then cycles + [c] else cycles, visited + c)
  {
    hide Cyclic;
  }

  /** The second pass.  `all` are all components; `cycles` those that hold a cycle. */
  method CycleComponents(g: Graph, reverse: Graph, f: seq<Node>)
      returns (cycles: seq<set<Node>>, ghost all: seq<set<Node>>)
    requires Finished(g, f) && IsReverse(g, reverse)
    ensures Components(g, all, g.Keys)
    ensures forall c :: c in cycles <==> c in all && Cyclic(g, c)
    ensures forall k, l :: 0 <= k < l < |cycles| ==> cycles[k] !! cycles[l]
  {
    hide Component, Cyclic, IsComponent, InOne, IsReverse, MateClosed, Mates, Components;
    var visited: set<Node> := {};
    cycles, all := [], [];
    NoComponents(g);
    for i := |f| downto 0
      invariant Components(g, all, visited)
      invariant forall j :: i <= j < |f| ==> f[j] in visited
      invariant Kept(g, all, cycles, visited)
    {
      hide Kept, OnCycle;
      var root := f[i];
      if root in visited { continue; }
      assert root in g by { assert root in (set x | x in f); }
      ComponentsMateClosed(g, all, visited);
      ComponentsExtend(g, all, visited, root);
      ComponentFacts(g, root);
      var component, next := Collect(g, reverse, f, i, root, visited);
      CyclicComponent(g, root, component);
      KeptExtends(g, all, cycles, visited, component);
      if |component| > 1 || root in g[root] {
        cycles := cycles + [component];
      }
      all := all + [component];
      visited := next;
    }
    ComponentsMateClosed(g, all, visited);
    forall x | x in g ensures x in visited { assert x in (set y | y in f); }
    assert visited == g.Keys;
  }

  lemma {:induction false} NoComponents(g: Graph)
    ensures Components(g, [], {})
  {
  }

  /** The graph a report describes. */
  ghost function GraphOf(nodes: seq<Node>, edges: seq<(Node, Node)>): Graph {
    map x | x in nodes :: Targets(edges, x)
  }

  ghost function Targets(edges: seq<(Node, Node)>, x: Node): set<Node> {
    set e | e in edges && e.0 == x :: e.1
  }

  ghost function Sources(edges: seq<(Node, Node)>, y: Node): set<Node> {
    set e | e in edges && e.1 == y :: e.0
  }

  lemma {:induction false} OneMoreEdge(edges: seq<(Node, Node)>, e: (Node, Node), x: Node)
    ensures Targets(edges + [e], x) == Targets(edges, x) + if e.0 == x then {e.1} else {}
    ensures Sources(edges + [e], x) == Sources(edges, x) + if e.1 == x then {e.0} else {}
  {
  }

  lemma {:induction false} EdgesBothWays(edges: seq<(Node, Node)>, x: Node, y: Node)
    ensures y in Targets(edges, x) <==> (x, y) in edges
    ensures x in Sources(edges, y) <==> (x, y) in edges
  {
    if (x, y) in edges {
      assert (x, y).1 in Targets(edges, x) && (x, y).0 in Sources(edges, y);
    }
  }

  ghost function CyclicNodes(g: Graph): set<Node> {
    set x | x in g && OnCycle(g, x)
  }

  ghost function Downstream(g: Graph, from: set<Node>): set<Node> {
    set y | y in g && exists x :: x in from && Reach(g, x, y)
  }

  datatype Analysis = Analysis(nodes: nat, cyclicComponents: nat, cyclic: set<Node>, reachable: set<Node>, downstream: set<Node>)

  datatype Outcome = Done(analysis: Analysis) | DuplicateNode | AbsentNode

  /** `adjacency` and `reverse`, with the same edge checks, edge by edge. */
  method Adjacency(nodes: seq<Node>, edges: seq<(Node, Node)>) returns (ok: bool, adjacency: Graph, reverse: Graph)
    ensures ok <==> forall e :: e in edges ==> e.0 in nodes && e.1 in nodes
    ensures ok ==> adjacency == GraphOf(nodes, edges) && WellFormed(adjacency) && IsReverse(adjacency, reverse)
  {
    hide Targets, Sources;
    adjacency, reverse := map x | x in nodes :: {}, map x | x in nodes :: {};
    assert forall x :: Targets([], x) == {} && Sources([], x) == {} by { NoEdges(); }
    for k := 0 to |edges|
      invariant forall j :: 0 <= j < k ==> edges[j].0 in nodes && edges[j].1 in nodes
      invariant adjacency == map x | x in nodes :: Targets(edges[..k], x)
      invariant reverse == map x | x in nodes :: Sources(edges[..k], x)
    {
      var (source, target) := edges[k];
      assert edges[k] in edges;
      if source !in adjacency || target !in adjacency {
        ok := false;
        return;
      }
      assert edges[..k + 1] == edges[..k] + [edges[k]];
      adjacency := adjacency[source := adjacency[source] + {target}];
      reverse := reverse[target := reverse[target] + {source}];
      forall x | x in nodes
        ensures adjacency[x] == Targets(edges[..k + 1], x) && reverse[x] == Sources(edges[..k + 1], x)
      {
        OneMoreEdge(edges[..k], edges[k], x);
      }
    }
    assert edges[..|edges|] == edges;
    ok := true;
    GraphFacts(nodes, edges);
  }

  lemma {:induction false} GraphFacts(nodes: seq<Node>, edges: seq<(Node, Node)>)
    requires forall e :: e in edges ==> e.0 in nodes && e.1 in nodes
    ensures WellFormed(GraphOf(nodes, edges))
    ensures IsReverse(GraphOf(nodes, edges), map x | x in nodes :: Sources(edges, x))
  {
    hide Targets, Sources;
    var g, r := GraphOf(nodes, edges), map x | x in nodes :: Sources(edges, x);
    forall x: Node, y: Node | x in nodes ensures y in g[x] <==> (x, y) in edges {
      EdgesBothWays(edges, x, y);
    }
    forall x: Node, y: Node | y in nodes ensures x in r[y] <==> (x, y) in edges {
      EdgesBothWays(edges, x, y);
    }
    forall x, y | x in g && y in g[x] ensures y in nodes {
      assert (x, y) in edges;
    }
    forall x, y | y in r && x in r[y] ensures x in nodes {
      assert (x, y) in edges;
    }
  }

  lemma {:induction false} NoEdges()
    ensures forall x :: Targets([], x) == {} && Sources([], x) == {}
  {
  }

  method Union(cs: seq<set<Node>>) returns (all: set<Node>)
    ensures forall x :: x in all <==> exists c :: c in cs && x in c
  {
    all := {};
    for k := 0 to |cs|
      invariant forall x :: x in all <==> exists c :: c in cs[..k] && x in c
    {
      assert cs[..k + 1] == cs[..k] + [cs[k]];
      all := all + cs[k];
    }
    assert cs[..|cs|] == cs;
  }

  /** Everything reachable from `start`, one node of the stack at a time. */
  method Closure(g: Graph, start: set<Node>) returns (reachable: set<Node>)
    requires WellFormed(g) && start <= g.Keys
    ensures reachable == Downstream(g, start)
  {
    hide Downstream, Reach;
    var found, stack := PushUnvisited(start, {}, []);
    reachable := found;
    StartDownstream(g, start);
    while stack != []
      invariant start <= reachable <= Downstream(g, start) && reachable <= g.Keys
      invariant forall x :: x in stack ==> x in reachable
      invariant forall x :: x in reachable ==> x in stack || g[x] <= reachable
      decreases g.Keys - reachable, |stack|
    {
      var node, rest := stack[|stack| - 1], stack[..|stack| - 1];
      assert forall x :: x in stack ==> x == node || x in rest;
      var more := g[node] - reachable;
      NextDownstream(g, start, node);
      reachable, stack := PushUnvisited(more, reachable, rest);
    }
    ClosedIsDownstream(g, start, reachable);
  }

  lemma {:induction false} StartDownstream(g: Graph, start: set<Node>)
    requires start <= g.Keys
    ensures start <= Downstream(g, start)
  {
    forall x | x in start ensures x in Downstream(g, start) { ReachSelf(g, x); }
  }

  lemma {:induction false} NextDownstream(g: Graph, start: set<Node>, node: Node)
    requires WellFormed(g) && node in Downstream(g, start)
    ensures g[node] <= Downstream(g, start)
  {
    forall y | y in g[node] ensures y in Downstream(g, start) {
      var x :| x in start && Reach(g, x, node);
      ReachAppend(g, x, node, y);
    }
  }

  lemma {:induction false} ClosedIsDownstream(g: Graph, start: set<Node>, s: set<Node>)
    requires start <= s && s <= Downstream(g, start) && forall x :: x in s && x in g ==> g[x] <= s
    ensures s == Downstream(g, start)
  {
    forall y | y in Downstream(g, start) ensures y in s {
      var x :| x in start && Reach(g, x, y);
      ForwardClosed(g, s, x, y);
    }
  }

  /** The cyclic components are as many as there are components of cyclic nodes. */
  lemma {:induction false} CountComponents(g: Graph, cycles: seq<set<Node>>, all: seq<set<Node>>)
    requires WellFormed(g) && Components(g, all, g.Keys)
    requires forall c :: c in cycles <==> c in all && Cyclic(g, c)
    requires forall k, l :: 0 <= k < l < |cycles| ==> cycles[k] !! cycles[l]
    ensures forall x :: x in CyclicNodes(g) <==> exists c :: c in cycles && x in c
    ensures |set x | x in CyclicNodes(g) :: Component(g, x)| == |cycles|
  {
    forall c | c in cycles ensures IsComponent(g, c) && c != {} && forall x :: x in c ==> OnCycle(g, x) && Component(g, x) == c {
      var k :| 0 <= k < |all| && all[k] == c;
      assert IsComponent(g, c);
      var r :| r in g && c == Component(g, r);
      ComponentFacts(g, r);
      CyclicComponent(g, r, c);
    }
    forall x | x in CyclicNodes(g) ensures exists c :: c in cycles && x in c {
      assert InOne(all, x);
      var k :| 0 <= k < |all| && x in all[k];
      assert Cyclic(g, all[k]);
    }
    var parts := set x | x in CyclicNodes(g) :: Component(g, x);
    forall c ensures c in parts <==> c in cycles {
      if c in cycles {
        var x :| x in c;
        assert x in CyclicNodes(g);
      }
    }
    DistinctCount(cycles, parts);
  }

  lemma {:induction false} DistinctCount(cs: seq<set<Node>>, parts: set<set<Node>>)
    requires forall c :: c in parts <==> c in cs
    requires forall c :: c in cs ==> c != {}
    requires forall k, l :: 0 <= k < l < |cs| ==> cs[k] !! cs[l]
    ensures |parts| == |cs|
    decreases |cs|
  {
    if cs == [] {
      assert parts == {};
    } else {
      var last, rest := cs[|cs| - 1], cs[..|cs| - 1];
      assert last !in rest by {
        assert forall k :: 0 <= k < |rest| ==> rest[k] == cs[k] && cs[k] !! last;
      }
      forall c ensures c in parts - {last} <==> c in rest {
        if c in parts && c != last { assert c in cs; }
      }
      DistinctCount(rest, parts - {last});
    }
  }

  /** The analysis is exact: `cyclic` are the nodes on a non-empty closed path,
      `reachable` is their forward closure, and the components counted are the strongly
      connected ones that hold a cycle; ill-formed reports are refused. */
  method AnalyzeGraph(nodes: seq<Node>, edges: seq<(Node, Node)>) returns (r: Outcome)
    ensures r.DuplicateNode? <==> !Distinct(nodes)
    ensures r.AbsentNode? <==> Distinct(nodes) && exists e :: e in edges && (e.0 !in nodes || e.1 !in nodes)
    ensures r.Done? ==>
              var g, a := GraphOf(nodes, edges), r.analysis;
              && a.nodes == |nodes| && a.cyclic == CyclicNodes(g)
              && a.reachable == Downstream(g, a.cyclic) && a.downstream == a.reachable - a.cyclic
              && a.cyclicComponents == |set x | x in CyclicNodes(g) :: Component(g, x)|
  {
    var distinct := forall i, j :: 0 <= i < j < |nodes| ==> nodes[i] != nodes[j];
    if !distinct { return DuplicateNode; }
    var ok, adjacency, reverse := Adjacency(nodes, edges);
    if !ok { return AbsentNode; }
    assert adjacency.Keys == set x | x in nodes;
    var finished := FinishingOrder(adjacency, nodes);
    var cycles, all := CycleComponents(adjacency, reverse, finished);
    var cyclic := Union(cycles);
    CountComponents(adjacency, cycles, all);
    assert cyclic == CyclicNodes(adjacency);
    var reachable := Closure(adjacency, cyclic);
    r := Done(Analysis(|nodes|, |cycles|, cyclic, reachable, reachable - cyclic));
  }
}
