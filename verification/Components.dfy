/** Connected components by breadth-first search with a shared set of visited nodes. */
module Components {
  import opened Sums
  import opened Graph
  import opened ForwardPass
  import opened Conservation

  /** A walk leads from `a` to `b` whose stops after the first avoid `avoid`. */
  ghost predicate JoinedAround(adj: Adj, a: Node, b: Node, avoid: set<Node>)
  {
    exists p :: WalkBetween(adj, p, a, b) && StaysClear(p, avoid)
  }

  ghost predicate StaysClear(p: seq<Node>, avoid: set<Node>)
  {
    forall i :: 0 < i < |p| ==> p[i] !in avoid
  }

  ghost predicate Joined(adj: Adj, a: Node, b: Node)
  {
    exists p :: WalkBetween(adj, p, a, b)
  }

  lemma JoinedSelf(adj: Adj, a: Node)
    ensures Joined(adj, a, a) && forall avoid :: JoinedAround(adj, a, a, avoid)
  {
    assert WalkBetween(adj, [a], a, a);
    forall avoid ensures JoinedAround(adj, a, a, avoid) {
      assert StaysClear([a], avoid);
    }
  }

  lemma WalkStep(adj: Adj, p: seq<Node>, a: Node, b: Node, c: Node)
    requires WalkBetween(adj, p, a, b) && Edge(adj, b, c)
    ensures WalkBetween(adj, p + [c], a, c)
  {
    var q := p + [c];
    forall i | 0 <= i < |q| - 1 ensures Edge(adj, q[i], q[i + 1]) {
      if i < |p| - 1 { assert Edge(adj, p[i], p[i + 1]); }
    }
  }

  lemma JoinedAroundStep(adj: Adj, a: Node, b: Node, c: Node, avoid: set<Node>)
    requires JoinedAround(adj, a, b, avoid) && Edge(adj, b, c) && c !in avoid
    ensures JoinedAround(adj, a, c, avoid)
  {
    var p :| WalkBetween(adj, p, a, b) && StaysClear(p, avoid);
    WalkStep(adj, p, a, b, c);
    assert StaysClear(p + [c], avoid);
  }

  lemma JoinedTrans(adj: Adj, a: Node, b: Node, c: Node)
    requires Joined(adj, a, b) && Joined(adj, b, c)
    ensures Joined(adj, a, c)
  {
    var p :| WalkBetween(adj, p, a, b);
    var q :| WalkBetween(adj, q, b, c);
    var r := p + q[1..];
    forall i | 0 <= i < |r| - 1 ensures Edge(adj, r[i], r[i + 1]) {
      if i < |p| - 1 { assert Edge(adj, p[i], p[i + 1]); } else { assert Edge(adj, q[i + 1 - |p|], q[i + 1 - |p| + 1]); }
    }
    assert WalkBetween(adj, r, a, c);
  }

  lemma JoinedSym(adj: Adj, a: Node, b: Node)
    requires Symmetric(adj) && Joined(adj, a, b)
    ensures Joined(adj, b, a)
  {
    var p :| WalkBetween(adj, p, a, b);
    ReversedWalk(adj, a, b, p);
  }

  /** A set that no edge leaves, except into `avoid`, keeps every walk that stays clear of `avoid`. */
  lemma {:induction false} WalkConfined(adj: Adj, p: seq<Node>, inside: set<Node>, avoid: set<Node>, i: nat)
    requires IsWalk(adj, p) && StaysClear(p, avoid) && p[0] in inside && i < |p|
    requires forall u, w :: u in inside && Edge(adj, u, w) && w !in avoid ==> w in inside
    ensures p[i] in inside
  {
    if i > 0 {
      WalkConfined(adj, p, inside, avoid, i - 1);
      assert Edge(adj, p[i - 1], p[i - 1 + 1]);
    }
  }

  // ----- one component

  ghost function AllNodes(start: Node, adj: Adj): set<Node>
  {
    {start} + set u, w | u in adj.Keys && w in adj[u] :: w
  }

  /** Every edge out of `done` leads to a node that was visited before or is listed now. */
  ghost predicate Closing(adj: Adj, done: seq<Node>, order: seq<Node>, visited: set<Node>)
  {
    forall u, w :: u in done && Edge(adj, u, w) ==> w in visited || w in order
  }

  ghost predicate Growing(start: Node, adj: Adj, visited: set<Node>, order: seq<Node>)
  {
    && order != [] && order[0] == start && Distinct(order)
    && forall x :: x in order ==> x in AllNodes(start, adj) && JoinedAround(adj, start, x, visited)
  }

  method VisitNeighbors(start: Node, adj: Adj, ghost before: set<Node>, node: Node, ghost done: seq<Node>,
                        queue: seq<Node>, visited: set<Node>)
    returns (queue': seq<Node>, visited': set<Node>)
    requires node in adj && node in done
    requires Growing(start, adj, before, done + queue) && visited == before + NodeSet(done + queue)
    ensures Growing(start, adj, before, done + queue') && visited' == before + NodeSet(done + queue')
    ensures queue <= queue' && adj[node] <= visited'
  {
    queue', visited' := queue, visited;
    var rest := adj[node];
    while rest != {}
      invariant Growing(start, adj, before, done + queue') && visited' == before + NodeSet(done + queue')
      invariant queue <= queue' && rest <= adj[node] && adj[node] - rest <= visited'
      decreases rest
    {
      var w :| w in rest;
      if w !in visited' {
        GrowOne(start, adj, before, done + queue', node, w);
        assert done + (queue' + [w]) == done + queue' + [w];
        visited' := visited' + {w};
        queue' := queue' + [w];
      }
      rest := rest - {w};
    }
  }

  lemma GrowOne(start: Node, adj: Adj, before: set<Node>, order: seq<Node>, node: Node, w: Node)
    requires Growing(start, adj, before, order) && node in order && Edge(adj, node, w)
    requires w !in before && w !in order
    ensures Growing(start, adj, before, order + [w])
    ensures NodeSet(order + [w]) == NodeSet(order) + {w}
  {
    JoinedAroundStep(adj, start, node, w, before);
  }

  lemma ComponentComplete(start: Node, adj: Adj, visited: set<Node>, component: seq<Node>, x: Node)
    requires start in component && Closing(adj, component, component, visited)
    requires JoinedAround(adj, start, x, visited)
    ensures x in component
  {
    var p :| WalkBetween(adj, p, start, x) && StaysClear(p, visited);
    WalkConfined(adj, p, NodeSet(component), visited, |p| - 1);
  }

  lemma RoomLeft(start: Node, adj: Adj, done: seq<Node>, queue: seq<Node>)
    requires Distinct(done + queue) && queue != []
    requires forall x :: x in done + queue ==> x in AllNodes(start, adj)
    ensures |done| < |AllNodes(start, adj)|
  {
    DistinctSize(done + queue);
    assert NodeSet(done + queue) <= AllNodes(start, adj);
    SubsetSize(NodeSet(done + queue), AllNodes(start, adj));
  }

  lemma StartGrowing(start: Node, adj: Adj, visited: set<Node>)
    ensures Growing(start, adj, visited, [start]) && Closing(adj, [], [start], visited)
  {
    JoinedSelf(adj, start);
  }

  lemma CloseOne(adj: Adj, done: seq<Node>, node: Node, order: seq<Node>, more: seq<Node>, visited: set<Node>)
    requires Closing(adj, done, order, visited) && order <= more
    requires node in adj ==> adj[node] <= visited + NodeSet(more)
    ensures Closing(adj, done + [node], more, visited)
  {
  }

  /** Returns, once each, the nodes that can be reached from `start` without entering a node visited before. */
  method BfsComponent(start: Node, adj: Adj, visited: set<Node>) returns (component: seq<Node>, visited': set<Node>)
    ensures component != [] && component[0] == start && Distinct(component)
    ensures forall x :: x in component <==> JoinedAround(adj, start, x, visited)
    ensures visited' == visited + NodeSet(component)
  {
    hide JoinedAround, Closing, Distinct, AllNodes;
    component := [];
    visited' := visited + {start};
    var queue := [start];
    StartGrowing(start, adj, visited);
    assert component + queue == [start];
    while queue != []
      invariant Growing(start, adj, visited, component + queue)
      invariant visited' == visited + NodeSet(component + queue)
      invariant Closing(adj, component, component + queue, visited)
      decreases |AllNodes(start, adj)| - |component|
    {
      RoomLeft(start, adj, component, queue);
      var node := queue[0];
      assert component + [node] + queue[1..] == component + queue;
      ghost var done, order := component, component + queue;
      queue := queue[1..];
      component := component + [node];
      if node in adj {
        queue, visited' := VisitNeighbors(start, adj, visited, node, component, queue, visited');
      }
      CloseOne(adj, done, node, order, component + queue, visited);
    }
    assert component + queue == component;
    forall x | JoinedAround(adj, start, x, visited) ensures x in component {
      ComponentComplete(start, adj, visited, component, x);
    }
  }

  // ----- all components

  /** `component` is a connected component: its nodes are joined to each other and to nothing else. */
  ghost predicate IsComponent(adj: Adj, component: seq<Node>)
  {
    component != [] && Distinct(component)
    && forall x, y :: x in component ==> (y in component <==> Joined(adj, x, y))
  }

  ghost predicate Disjoint(components: seq<seq<Node>>)
  {
    forall i, j, x :: 0 <= i < j < |components| && x in components[i] ==> x !in components[j]
  }

  /** Each of the listed nodes lies in a component, and components hold listed nodes only. */
  ghost predicate Covers(nodes: seq<Node>, components: seq<seq<Node>>)
  {
    && (forall x :: x in nodes ==> exists i :: 0 <= i < |components| && x in components[i])
    && (forall i, x :: 0 <= i < |components| && x in components[i] ==> x in nodes)
  }

  ghost predicate Partition(nodes: seq<Node>, adj: Adj, components: seq<seq<Node>>)
  {
    && (forall i :: 0 <= i < |components| ==> IsComponent(adj, components[i]))
    && Disjoint(components) && Covers(nodes, components)
  }

  /** Two nodes share a component of the partition exactly when a path joins them. */
  lemma ShareComponentIffJoined(nodes: seq<Node>, adj: Adj, components: seq<seq<Node>>, x: Node, y: Node)
    requires Partition(nodes, adj, components) && x in nodes
    ensures (exists i :: 0 <= i < |components| && x in components[i] && y in components[i]) <==> Joined(adj, x, y)
  {
    var i :| 0 <= i < |components| && x in components[i];
    assert IsComponent(adj, components[i]);
    if j :| 0 <= j < |components| && x in components[j] && y in components[j] {
      assert IsComponent(adj, components[j]);
    }
  }

  /** The visited nodes are those of the components found so far, and no edge joins them to the others. */
  ghost predicate Swept(adj: Adj, components: seq<seq<Node>>, visited: set<Node>)
  {
    && (forall x :: x in visited <==> exists i :: 0 <= i < |components| && x in components[i])
    && (forall u, w :: Edge(adj, u, w) ==> (u in visited <==> w in visited))
  }

  lemma {:induction false} WalkUnvisited(adj: Adj, visited: set<Node>, p: seq<Node>, i: nat)
    requires IsWalk(adj, p) && p[0] !in visited && i < |p|
    requires forall u, w :: Edge(adj, u, w) ==> (u in visited <==> w in visited)
    ensures p[i] !in visited
  {
    if i > 0 {
      WalkUnvisited(adj, visited, p, i - 1);
      assert Edge(adj, p[i - 1], p[i - 1 + 1]);
    }
  }

  lemma NewComponent(adj: Adj, visited: set<Node>, component: seq<Node>)
    requires Symmetric(adj) && component != [] && Distinct(component) && component[0] !in visited
    requires forall u, w :: Edge(adj, u, w) ==> (u in visited <==> w in visited)
    requires forall x :: x in component <==> JoinedAround(adj, component[0], x, visited)
    ensures IsComponent(adj, component)
    ensures forall x :: x in component ==> x !in visited
  {
    var start := component[0];
    forall x ensures x in component <==> Joined(adj, start, x) {
      if Joined(adj, start, x) {
        var p :| WalkBetween(adj, p, start, x);
        forall i | 0 < i < |p| ensures p[i] !in visited { WalkUnvisited(adj, visited, p, i); }
        assert StaysClear(p, visited);
      }
    }
    forall x, y | x in component ensures y in component <==> Joined(adj, x, y) {
      JoinedSym(adj, start, x);
      if y in component { JoinedTrans(adj, x, start, y); }
      if Joined(adj, x, y) { JoinedTrans(adj, start, x, y); }
    }
    forall x | x in component ensures x !in visited {
      var p :| WalkBetween(adj, p, start, x);
      WalkUnvisited(adj, visited, p, |p| - 1);
    }
  }

  lemma ComponentClosed(adj: Adj, component: seq<Node>, u: Node, w: Node)
    requires Symmetric(adj) && IsComponent(adj, component) && Edge(adj, u, w)
    ensures u in component <==> w in component
  {
    assert WalkBetween(adj, [u, w], u, w);
    assert WalkBetween(adj, [w, u], w, u);
  }

  lemma SweptMore(adj: Adj, components: seq<seq<Node>>, visited: set<Node>, component: seq<Node>)
    requires Symmetric(adj) && Swept(adj, components, visited) && IsComponent(adj, component)
    ensures Swept(adj, components + [component], visited + NodeSet(component))
  {
    var more := components + [component];
    forall u, w | Edge(adj, u, w)
      ensures u in visited + NodeSet(component) <==> w in visited + NodeSet(component)
    {
      ComponentClosed(adj, component, u, w);
    }
    forall x | x in visited + NodeSet(component)
      ensures exists i :: 0 <= i < |more| && x in more[i]
    {
      if x in component { assert x in more[|components|]; } else {
        var i :| 0 <= i < |components| && x in components[i];
        assert x in more[i];
      }
    }
  }

  lemma ComponentInside(nodes: seq<Node>, adj: Adj, component: seq<Node>)
    requires ClosedGraph(nodes, adj) && IsComponent(adj, component) && component[0] in nodes
    ensures forall x :: x in component ==> x in nodes
  {
    forall x | x in component ensures x in nodes {
      assert Joined(adj, component[0], x);
      ReachIffWalk(adj, component[0], x);
      ReachStaysInside(nodes, adj, component[0], x);
    }
  }

  /** The sweep over all nodes partitions them into the connected components. */
  method FindComponents(nodes: seq<Node>, adj: Adj) returns (components: seq<seq<Node>>)
    requires ClosedGraph(nodes, adj) && Symmetric(adj)
    ensures Partition(nodes, adj, components)
  {
    components := [];
    var visited: set<Node> := {};
    for k := 0 to |nodes|
      invariant Swept(adj, components, visited) && Disjoint(components)
      invariant forall i :: 0 <= i < |components| ==> IsComponent(adj, components[i])
      invariant forall i, x :: 0 <= i < |components| && x in components[i] ==> x in nodes
      invariant forall x :: x in nodes[..k] ==> x in visited
    {
      var node := nodes[k];
      if node !in visited {
        var component, visited' := BfsComponent(node, adj, visited);
        NewComponent(adj, visited, component);
        ComponentInside(nodes, adj, component);
        SweptMore(adj, components, visited, component);
        components, visited := components + [component], visited';
      }
      assert nodes[..k + 1] == nodes[..k] + [node];
    }
    assert nodes[..|nodes|] == nodes;
  }
}
