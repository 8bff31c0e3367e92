/**
 The breadth-first forward pass of the betweenness computation from one source:
 distances, shortest-path counts, predecessor lists and the visiting order.
 */
module ForwardPass {
  import opened Sums
  import opened Graph

  ghost function NodeSet(nodes: seq<Node>): set<Node>
  {
    set x | x in nodes
  }

  /** A map sending every listed node to `c`. */
  method Filled<V>(nodes: seq<Node>, c: V) returns (m: map<Node, V>)
    ensures m.Keys == NodeSet(nodes)
    ensures forall x :: x in m ==> m[x] == c
  {
    m := map[];
    for i := 0 to |nodes|
      invariant m.Keys == NodeSet(nodes[..i])
      invariant forall x :: x in m ==> m[x] == c
    {
      m := m[nodes[i] := c];
      assert nodes[..i + 1] == nodes[..i] + [nodes[i]];
    }
    assert nodes[..|nodes|] == nodes;
  }

  lemma {:induction false} DistinctFits(xs: seq<Node>, nodes: seq<Node>)
    requires Distinct(xs) && forall x :: x in xs ==> x in nodes
    ensures |xs| <= |nodes|
  {
    DistinctSize(xs);
    SetSize(nodes);
    assert NodeSet(xs) <= NodeSet(nodes);
    SubsetSize(NodeSet(xs), NodeSet(nodes));
  }

  lemma {:induction false} DistinctSize(xs: seq<Node>)
    requires Distinct(xs)
    ensures |NodeSet(xs)| == |xs|
  {
    if xs != [] {
      DistinctSize(xs[1..]);
      assert NodeSet(xs) == {xs[0]} + NodeSet(xs[1..]);
    }
  }

  lemma {:induction false} SetSize(xs: seq<Node>)
    ensures |NodeSet(xs)| <= |xs|
  {
    if xs != [] {
      SetSize(xs[1..]);
      assert NodeSet(xs) == {xs[0]} + NodeSet(xs[1..]);
    }
  }

  lemma SubsetSize<T>(a: set<T>, b: set<T>)
    requires a <= b
    ensures |a| <= |b|
  {
    assert b == a + (b - a);
  }

  // ----- levels: what a breadth-first pass relies on

  /** `u` is one level before `w`, and an edge leads from it to `w`. */
  ghost predicate Before(adj: Adj, d: Node -> int, u: Node, w: Node)
  {
    d(u) >= 0 && Edge(adj, u, w) && d(w) == d(u) + 1
  }

  ghost function BeforeTerm(adj: Adj, d: Node -> int, c: Node -> real, w: Node): Node -> real
  {
    u => if Before(adj, d, u, w) then c(u) else 0.0
  }

  /** `d` grows by at most one along edges, and every positive level is entered from the level below. */
  ghost predicate Levels(adj: Adj, s: Node, d: Node -> int)
  {
    && d(s) == 0 && (forall x :: d(x) >= -1) && (forall x :: d(x) == 0 ==> x == s)
    && (forall u, w :: d(u) >= 0 && Edge(adj, u, w) ==> 0 <= d(w) <= d(u) + 1)
    && (forall w :: d(w) > 0 ==> exists u :: Before(adj, d, u, w))
  }

  /** The count of `w`: one at the source, elsewhere the counts of the nodes one level before `w`. */
  ghost predicate Counts(nodes: seq<Node>, adj: Adj, s: Node, d: Node -> int, c: Node -> real)
  {
    forall w :: c(w) == (if w == s then 1.0 else 0.0) + Sum(nodes, BeforeTerm(adj, d, c, w))
  }

  // ----- the invariant of the pass

  /** `order` is the visited part of `stack` followed by the queue: it lists the discovered nodes, nearest first. */
  ghost predicate Discovered(nodes: seq<Node>, d: Node -> int, order: seq<Node>, dist: map<Node, int>)
  {
    && dist.Keys == NodeSet(nodes)
    && Distinct(order)
    && (forall x :: x in order ==> x in nodes && d(x) >= 0 && dist[x] == d(x))
    && (forall x :: x in nodes && x !in order ==> dist[x] == -1)
  }

  ghost predicate NearestFirst(d: Node -> int, order: seq<Node>)
  {
    forall i, j :: 0 <= i < j < |order| ==> d(order[i]) <= d(order[j])
  }

  /** Everything listed is at most one level past `level`; everything reachable and not listed is past `level`. */
  ghost predicate Frontier(d: Node -> int, order: seq<Node>, level: int)
  {
    && (forall x :: x in order ==> d(x) <= level + 1)
    && (forall x :: d(x) >= 0 && x !in order ==> d(x) > level)
  }

  type Edges = set<(Node, Node)>

  /** All edges out of `done` have been scanned, and every scanned edge leads to a listed node. */
  ghost predicate Scanned(adj: Adj, order: seq<Node>, done: seq<Node>, scanned: Edges)
  {
    && (forall u, w :: (u, w) in scanned ==> Edge(adj, u, w) && w in order)
    && (forall u, w :: u in done && Edge(adj, u, w) ==> (u, w) in scanned)
  }

  ghost predicate ScannedFrom(done: seq<Node>, scanned: Edges)
  {
    forall u, w :: (u, w) in scanned ==> u in done
  }

  ghost function ScannedTerm(adj: Adj, d: Node -> int, c: Node -> real, scanned: Edges, w: Node): Node -> real
  {
    u => if (u, w) in scanned && Before(adj, d, u, w) then c(u) else 0.0
  }

  ghost function CountSoFar(nodes: seq<Node>, adj: Adj, s: Node, d: Node -> int, c: Node -> real, scanned: Edges, w: Node): real
  {
    (if w == s then 1.0 else 0.0) + Sum(nodes, ScannedTerm(adj, d, c, scanned, w))
  }

  ghost predicate Counted(nodes: seq<Node>, adj: Adj, s: Node, d: Node -> int, c: Node -> real, scanned: Edges,
                          sigma: map<Node, real>)
  {
    sigma.Keys == NodeSet(nodes)
    && forall w :: w in nodes ==> sigma[w] == CountSoFar(nodes, adj, s, d, c, scanned, w)
  }

  ghost predicate PredsOf(adj: Adj, d: Node -> int, scanned: Edges, w: Node, us: seq<Node>)
  {
    Distinct(us) && forall u :: u in us <==> (u, w) in scanned && Before(adj, d, u, w)
  }

  ghost predicate Linked(nodes: seq<Node>, adj: Adj, d: Node -> int, scanned: Edges, preds: map<Node, seq<Node>>)
  {
    preds.Keys == NodeSet(nodes) && forall w :: w in nodes ==> PredsOf(adj, d, scanned, w, preds[w])
  }

  // ----- one edge

  lemma DiscoverKeeps(nodes: seq<Node>, d: Node -> int, order: seq<Node>, dist: map<Node, int>, v: Node, w: Node)
    requires Discovered(nodes, d, order, dist) && NearestFirst(d, order)
    requires v in order && Frontier(d, order, d(v))
    requires w in nodes && w !in order && 0 <= d(w) <= d(v) + 1
    ensures Discovered(nodes, d, order + [w], dist[w := dist[v] + 1])
    ensures NearestFirst(d, order + [w]) && Frontier(d, order + [w], d(v))
  {
    var order' := order + [w];
    assert d(w) == d(v) + 1;
    assert forall x :: x in order' <==> x in order || x == w;
    forall i, j | 0 <= i < j < |order'| ensures d(order'[i]) <= d(order'[j]) {
      assert order'[i] == order[i] && order[i] in order;
    }
  }

  lemma CountStep(nodes: seq<Node>, adj: Adj, s: Node, d: Node -> int, c: Node -> real, scanned: Edges, v: Node, w: Node)
    requires Distinct(nodes) && v in nodes && (v, w) !in scanned
    ensures CountSoFar(nodes, adj, s, d, c, scanned + {(v, w)}, w)
            == CountSoFar(nodes, adj, s, d, c, scanned, w) + if Before(adj, d, v, w) && (v, w) in scanned + {(v, w)} then c(v) else 0.0
    ensures forall x :: x != w ==>
              CountSoFar(nodes, adj, s, d, c, scanned + {(v, w)}, x) == CountSoFar(nodes, adj, s, d, c, scanned, x)
  {
    var more := scanned + {(v, w)};
    SumUpdate(nodes, v, ScannedTerm(adj, d, c, scanned, w), ScannedTerm(adj, d, c, more, w));
    forall x | x != w
      ensures CountSoFar(nodes, adj, s, d, c, more, x) == CountSoFar(nodes, adj, s, d, c, scanned, x)
    {
      SumEq(nodes, ScannedTerm(adj, d, c, more, x), ScannedTerm(adj, d, c, scanned, x));
    }
  }

  lemma LinkStep(nodes: seq<Node>, adj: Adj, d: Node -> int, scanned: Edges, preds: map<Node, seq<Node>>, v: Node, w: Node)
    requires Linked(nodes, adj, d, scanned, preds) && w in nodes && (v, w) !in scanned
    ensures Linked(nodes, adj, d, scanned + {(v, w)},
                   if Before(adj, d, v, w) then preds[w := preds[w] + [v]] else preds)
  {
    var more := scanned + {(v, w)};
    var preds' := if Before(adj, d, v, w) then preds[w := preds[w] + [v]] else preds;
    forall x | x in nodes ensures PredsOf(adj, d, more, x, preds'[x]) {
      assert PredsOf(adj, d, scanned, x, preds[x]);
    }
  }

  // ----- one node

  /** The variables of the queue loop, the visiting order aside. */
  datatype Pass = Pass(queue: seq<Node>, preds: map<Node, seq<Node>>, sigma: map<Node, real>, dist: map<Node, int>)

  /** What scanning the edge from `v` to `w` does to the loop's variables. */
  ghost function ScanEdge(b: Pass, v: Node, w: Node): Pass
    requires v in b.dist && w in b.dist && v in b.sigma && w in b.sigma && w in b.preds
  {
    var found := if b.dist[w] < 0 then b.(dist := b.dist[w := b.dist[v] + 1], queue := b.queue + [w]) else b;
    if found.dist[w] == b.dist[v] + 1 then
      found.(sigma := b.sigma[w := b.sigma[w] + b.sigma[v]], preds := b.preds[w := b.preds[w] + [v]])
    else found
  }

  /** The queue side of the invariant while `v`, visited last, is being scanned. */
  ghost predicate MidQueue(nodes: seq<Node>, adj: Adj, d: Node -> int, v: Node, stack: seq<Node>, queue: seq<Node>,
                           dist: map<Node, int>, scanned: Edges)
  {
    && dist.Keys == NodeSet(nodes) && v in nodes && d(v) >= 0 && dist[v] == d(v)
    && stack != [] && v == stack[|stack| - 1]
    && Discovered(nodes, d, stack + queue, dist) && NearestFirst(d, stack + queue)
    && Frontier(d, stack + queue, d(v))
    && Scanned(adj, stack + queue, stack[..|stack| - 1], scanned) && ScannedFrom(stack, scanned)
  }

  /** The counting side of the invariant; the edges from `v` into `rest` are still to come. */
  ghost predicate MidCount(nodes: seq<Node>, adj: Adj, s: Node, d: Node -> int, c: Node -> real, v: Node,
                           sigma: map<Node, real>, preds: map<Node, seq<Node>>, scanned: Edges, rest: set<Node>)
  {
    && sigma.Keys == preds.Keys == NodeSet(nodes) && v in nodes
    && Counted(nodes, adj, s, d, c, scanned, sigma) && Linked(nodes, adj, d, scanned, preds)
    && sigma[v] == c(v)
    && (forall w :: (v, w) in scanned <==> Edge(adj, v, w) && w !in rest)
  }

  lemma ScannedGrows(adj: Adj, order: seq<Node>, more: seq<Node>, stack: seq<Node>, scanned: Edges, v: Node, w: Node)
    requires stack != [] && v == stack[|stack| - 1] && Edge(adj, v, w)
    requires Scanned(adj, order, stack[..|stack| - 1], scanned) && ScannedFrom(stack, scanned)
    requires order <= more && w in more
    ensures Scanned(adj, more, stack[..|stack| - 1], scanned + {(v, w)}) && ScannedFrom(stack, scanned + {(v, w)})
  {
  }

  lemma EdgeFacts(nodes: seq<Node>, adj: Adj, s: Node, d: Node -> int, v: Node, w: Node)
    requires ClosedGraph(nodes, adj) && Levels(adj, s, d) && v in nodes && d(v) >= 0 && Edge(adj, v, w)
    ensures w in nodes && 0 <= d(w) <= d(v) + 1
  {
  }

  lemma ScanEdgeQueue(nodes: seq<Node>, adj: Adj, d: Node -> int, v: Node, stack: seq<Node>, b: Pass,
                      scanned: Edges, w: Node)
    requires w in nodes && 0 <= d(w) <= d(v) + 1 && Edge(adj, v, w)
    requires b.preds.Keys == b.sigma.Keys == NodeSet(nodes)
    requires MidQueue(nodes, adj, d, v, stack, b.queue, b.dist, scanned)
    ensures var b' := ScanEdge(b, v, w);
            && MidQueue(nodes, adj, d, v, stack, b'.queue, b'.dist, scanned + {(v, w)})
            && (b'.dist[w] == b.dist[v] + 1 <==> Before(adj, d, v, w))
  {
    hide Discovered, NearestFirst, Frontier, Scanned, ScannedFrom;
    var order := stack + b.queue;
    assert order[|stack| - 1] == v && v in order;
    DistOf(nodes, d, order, b.dist, w);
    if w in order {
      assert ScanEdge(b, v, w).queue == b.queue && ScanEdge(b, v, w).dist == b.dist;
      ScannedGrows(adj, order, order, stack, scanned, v, w);
    } else {
      DiscoverKeeps(nodes, d, order, b.dist, v, w);
      DistOf(nodes, d, order + [w], b.dist[w := b.dist[v] + 1], w);
      assert (order + [w])[|order|] == w;
      assert stack + (b.queue + [w]) == order + [w];
      ScannedGrows(adj, order, order + [w], stack, scanned, v, w);
    }
  }

  lemma DistOf(nodes: seq<Node>, d: Node -> int, order: seq<Node>, dist: map<Node, int>, w: Node)
    requires Discovered(nodes, d, order, dist) && w in nodes
    ensures w in dist && (w in order ==> dist[w] == d(w) >= 0) && (w !in order ==> dist[w] == -1)
  {
    assert w in NodeSet(nodes);
    hide Distinct;
  }

  lemma ScanEdgeCounts(nodes: seq<Node>, adj: Adj, s: Node, d: Node -> int, c: Node -> real, v: Node, b: Pass,
                       scanned: Edges, rest: set<Node>, w: Node)
    requires ClosedGraph(nodes, adj) && b.dist.Keys == NodeSet(nodes) && w in nodes && w in rest && Edge(adj, v, w)
    requires MidCount(nodes, adj, s, d, c, v, b.sigma, b.preds, scanned, rest)
    requires ScanEdge(b, v, w).dist[w] == b.dist[v] + 1 <==> Before(adj, d, v, w)
    ensures var b' := ScanEdge(b, v, w);
            MidCount(nodes, adj, s, d, c, v, b'.sigma, b'.preds, scanned + {(v, w)}, rest - {w})
  {
    hide CountSoFar, PredsOf;
    CountStep(nodes, adj, s, d, c, scanned, v, w);
    LinkStep(nodes, adj, d, scanned, b.preds, v, w);
  }

  /** Scans the edges out of `v`, in any order: the body of the queue loop. */
  method Relax(nodes: seq<Node>, adj: Adj, ghost s: Node, ghost d: Node -> int, ghost c: Node -> real, v: Node,
               ghost stack: seq<Node>, ghost scanned: Edges, b: Pass)
    returns (b': Pass, ghost scanned': Edges)
    requires ClosedGraph(nodes, adj) && Levels(adj, s, d) && v in adj
    requires MidQueue(nodes, adj, d, v, stack, b.queue, b.dist, scanned)
    requires MidCount(nodes, adj, s, d, c, v, b.sigma, b.preds, scanned, adj[v])
    ensures MidQueue(nodes, adj, d, v, stack, b'.queue, b'.dist, scanned')
    ensures MidCount(nodes, adj, s, d, c, v, b'.sigma, b'.preds, scanned', {})
  {
    hide Counted, Linked, Discovered, NearestFirst, Frontier, Scanned, ScannedFrom, Levels, Distinct, ClosedGraph;
    var queue, preds, sigma, dist := b.queue, b.preds, b.sigma, b.dist;
    scanned' := scanned;
    var dv := dist[v];
    var rest := adj[v];
    while rest != {}
      invariant rest <= adj[v] && v in dist && dist[v] == dv
      invariant MidQueue(nodes, adj, d, v, stack, queue, dist, scanned')
      invariant MidCount(nodes, adj, s, d, c, v, sigma, preds, scanned', rest)
      decreases rest
    {
      var w :| w in rest;
      ghost var before := Pass(queue, preds, sigma, dist);
      EdgeFacts(nodes, adj, s, d, v, w);
      ScanEdgeQueue(nodes, adj, d, v, stack, before, scanned', w);
      ScanEdgeCounts(nodes, adj, s, d, c, v, before, scanned', rest, w);
      if dist[w] < 0 {
        dist := dist[w := dv + 1];
        queue := queue + [w];
      }
      if dist[w] == dv + 1 {
        sigma := sigma[w := sigma[w] + sigma[v]];
        preds := preds[w := preds[w] + [v]];
      }
      assert Pass(queue, preds, sigma, dist) == ScanEdge(before, v, w);
      scanned' := scanned' + {(v, w)};
      rest := rest - {w};
    }
    b' := Pass(queue, preds, sigma, dist);
  }

  // ----- from one node to the next

  lemma CountComplete(nodes: seq<Node>, adj: Adj, s: Node, d: Node -> int, c: Node -> real, scanned: Edges, w: Node)
    requires Counts(nodes, adj, s, d, c)
    requires forall u :: Before(adj, d, u, w) ==> (u, w) in scanned
    ensures CountSoFar(nodes, adj, s, d, c, scanned, w) == c(w)
  {
    SumEq(nodes, ScannedTerm(adj, d, c, scanned, w), BeforeTerm(adj, d, c, w));
  }

  /** When `v` leaves the queue, all nodes one level before it have been scanned, so its path count is final. */
  lemma PopComplete(nodes: seq<Node>, adj: Adj, s: Node, d: Node -> int, c: Node -> real, stack: seq<Node>,
                    queue: seq<Node>, scanned: Edges)
    requires Counts(nodes, adj, s, d, c) && queue != []
    requires NearestFirst(d, stack + queue) && Frontier(d, stack + queue, d(queue[0]))
    requires Scanned(adj, stack + queue, stack, scanned)
    ensures CountSoFar(nodes, adj, s, d, c, scanned, queue[0]) == c(queue[0])
  {
    var v, order := queue[0], stack + queue;
    assert order[|stack|] == v;
    forall u | Before(adj, d, u, v) ensures (u, v) in scanned {
      assert u in order;
      var i :| 0 <= i < |order| && order[i] == u;
      assert i < |stack|;
    }
    CountComplete(nodes, adj, s, d, c, scanned, v);
  }

  /** The new head of the queue is at most one level on, and nothing reachable at its level is undiscovered. */
  lemma NextFrontier(adj: Adj, s: Node, d: Node -> int, stack: seq<Node>, queue: seq<Node>, scanned: Edges, v: Node)
    requires Levels(adj, s, d) && NearestFirst(d, stack + queue)
    requires s in stack && Frontier(d, stack + queue, d(v)) && d(v) >= 0
    requires Scanned(adj, stack + queue, stack, scanned) && queue != []
    requires d(v) <= d(queue[0])
    ensures Frontier(d, stack + queue, d(queue[0]))
  {
    var order, level := stack + queue, d(queue[0]);
    assert level <= d(v) + 1 by { assert order[|stack|] == queue[0] && queue[0] in order; }
    forall x | 0 <= d(x) <= level && d(x) > d(v) ensures x in order {
      hide Levels, NearestFirst, Scanned, Frontier;
      FoundFromBelow(adj, s, d, stack, queue, scanned, v, x);
    }
    hide Levels, NearestFirst, Scanned;
  }

  /** A node at the level of the new head is discovered: it is entered from a node that was scanned. */
  lemma FoundFromBelow(adj: Adj, s: Node, d: Node -> int, stack: seq<Node>, queue: seq<Node>, scanned: Edges, v: Node, x: Node)
    requires Levels(adj, s, d) && NearestFirst(d, stack + queue) && Frontier(d, stack + queue, d(v))
    requires Scanned(adj, stack + queue, stack, scanned) && queue != [] && d(v) >= 0
    requires d(x) == d(v) + 1 && d(x) <= d(queue[0])
    ensures x in stack + queue
  {
    var u := EntersFrom(adj, s, d, x);
    hide Levels;
    assert u in stack + queue;
    StaysBefore(d, stack, queue, u);
    hide NearestFirst, Frontier;
    assert (u, x) in scanned;
  }

  lemma EntersFrom(adj: Adj, s: Node, d: Node -> int, x: Node) returns (u: Node)
    requires Levels(adj, s, d) && d(x) > 0
    ensures Before(adj, d, u, x) && d(u) == d(x) - 1 && Edge(adj, u, x)
  {
    u :| Before(adj, d, u, x);
  }

  /** A listed node nearer than the head of the queue has left the queue. */
  lemma StaysBefore(d: Node -> int, stack: seq<Node>, queue: seq<Node>, u: Node)
    requires NearestFirst(d, stack + queue) && queue != [] && u in stack + queue && d(u) < d(queue[0])
    ensures u in stack
  {
    var order := stack + queue;
    var i :| 0 <= i < |order| && order[i] == u;
    assert order[|stack|] == queue[0];
    assert i < |stack|;
  }

  lemma {:induction false} AllReached(adj: Adj, s: Node, d: Node -> int, stack: seq<Node>, scanned: Edges, x: Node)
    requires Levels(adj, s, d) && s in stack && Scanned(adj, stack, stack, scanned) && d(x) >= 0
    ensures x in stack
    decreases d(x)
  {
    if x != s {
      var u :| Before(adj, d, u, x);
      AllReached(adj, s, d, stack, scanned, u);
    }
  }

  // ----- the whole pass

  /** What a pass leaves behind, for given levels and counts. */
  ghost predicate Settled(nodes: seq<Node>, adj: Adj, d: Node -> int, c: Node -> real, stack: seq<Node>,
                          preds: map<Node, seq<Node>>, sigma: map<Node, real>, dist: map<Node, int>)
  {
    && preds.Keys == sigma.Keys == dist.Keys == NodeSet(nodes)
    && Distinct(stack) && (forall x :: x in stack <==> d(x) >= 0)
    && NearestFirst(d, stack)
    && (forall w :: w in nodes ==> dist[w] == d(w) && sigma[w] == c(w))
    && (forall w :: w in nodes ==> Distinct(preds[w]) && forall u :: u in preds[w] <==> Before(adj, d, u, w))
  }

  /** Between two visits. */
  ghost predicate AtHead(nodes: seq<Node>, adj: Adj, s: Node, d: Node -> int, c: Node -> real, stack: seq<Node>,
                         b: Pass, scanned: Edges)
  {
    && b.preds.Keys == b.sigma.Keys == b.dist.Keys == NodeSet(nodes)
    && (if stack == [] then b.queue == [s] else s in stack)
    && Discovered(nodes, d, stack + b.queue, b.dist) && NearestFirst(d, stack + b.queue)
    && (b.queue != [] ==> Frontier(d, stack + b.queue, d(b.queue[0])))
    && Scanned(adj, stack + b.queue, stack, scanned)
    && ScannedFrom(stack, scanned)
    && Counted(nodes, adj, s, d, c, scanned, b.sigma) && Linked(nodes, adj, d, scanned, b.preds)
  }

  lemma PassComplete(nodes: seq<Node>, adj: Adj, s: Node, d: Node -> int, c: Node -> real, stack: seq<Node>, b: Pass,
                     scanned: Edges)
    requires Levels(adj, s, d) && Counts(nodes, adj, s, d, c)
    requires AtHead(nodes, adj, s, d, c, stack, b, scanned) && b.queue == []
    ensures Settled(nodes, adj, d, c, stack, b.preds, b.sigma, b.dist)
  {
    assert stack + b.queue == stack;
    forall x | d(x) >= 0 ensures x in stack {
      AllReached(adj, s, d, stack, scanned, x);
    }
    forall w | w in nodes
      ensures b.sigma[w] == c(w)
      ensures Distinct(b.preds[w]) && forall u :: u in b.preds[w] <==> Before(adj, d, u, w)
    {
      assert PredsOf(adj, d, scanned, w, b.preds[w]);
      CountComplete(nodes, adj, s, d, c, scanned, w);
    }
  }

  lemma StartState(nodes: seq<Node>, adj: Adj, s: Node, d: Node -> int, c: Node -> real, b: Pass)
    requires Levels(adj, s, d) && s in nodes && b.queue == [s]
    requires b.preds.Keys == b.sigma.Keys == b.dist.Keys == NodeSet(nodes)
    requires forall x :: x in nodes ==> b.preds[x] == []
    requires forall x :: x in nodes ==> b.sigma[x] == if x == s then 1.0 else 0.0
    requires forall x :: x in nodes ==> b.dist[x] == if x == s then 0 else -1
    ensures AtHead(nodes, adj, s, d, c, [], b, {})
  {
    hide CountSoFar, Before;
    assert [] + b.queue == [s];
    forall w | w in nodes ensures b.sigma[w] == CountSoFar(nodes, adj, s, d, c, {}, w) {
      NothingScanned(nodes, adj, s, d, c, w);
    }
  }

  lemma NothingScanned(nodes: seq<Node>, adj: Adj, s: Node, d: Node -> int, c: Node -> real, w: Node)
    ensures CountSoFar(nodes, adj, s, d, c, {}, w) == if w == s then 1.0 else 0.0
  {
    SumZero(nodes, ScannedTerm(adj, d, c, {}, w));
  }

  lemma PopKeeps(nodes: seq<Node>, adj: Adj, s: Node, d: Node -> int, c: Node -> real, stack: seq<Node>, b: Pass,
                 scanned: Edges)
    requires Counts(nodes, adj, s, d, c)
    requires AtHead(nodes, adj, s, d, c, stack, b, scanned) && b.queue != []
    ensures var v := b.queue[0];
            && MidQueue(nodes, adj, d, v, stack + [v], b.queue[1..], b.dist, scanned)
            && MidCount(nodes, adj, s, d, c, v, b.sigma, b.preds, scanned, if v in adj then adj[v] else {})
            && |stack| < |nodes|
  {
    hide Counts, NearestFirst, Frontier, Linked, CountSoFar, Scanned;
    PopComplete(nodes, adj, s, d, c, stack, b.queue, scanned);
    var v, order := b.queue[0], stack + b.queue;
    assert stack + [v] + b.queue[1..] == order;
    assert order[|stack|] == v && v in order;
    assert (stack + [v])[..|stack|] == stack;
    assert forall i :: 0 <= i < |stack| ==> order[i] == stack[i] && order[i] != order[|stack|];
    DistinctFits(order, nodes);
  }

  lemma ScanDone(nodes: seq<Node>, adj: Adj, s: Node, d: Node -> int, c: Node -> real, v: Node, stack: seq<Node>,
                 b: Pass, scanned: Edges)
    requires Levels(adj, s, d) && s in stack
    requires MidQueue(nodes, adj, d, v, stack, b.queue, b.dist, scanned)
    requires MidCount(nodes, adj, s, d, c, v, b.sigma, b.preds, scanned, {})
    ensures AtHead(nodes, adj, s, d, c, stack, b, scanned)
  {
    var order := stack + b.queue;
    assert forall w :: Edge(adj, v, w) ==> (v, w) in scanned;
    hide Discovered, Counted, Linked, Frontier, ScannedFrom, Levels, Edge;
    AllScanned(adj, order, stack, scanned, v);
    if b.queue != [] {
      assert order[|stack| - 1] == v && order[|stack|] == b.queue[0];
      assert d(v) <= d(b.queue[0]);
      hide NearestFirst, Scanned;
      NextFrontier(adj, s, d, stack, b.queue, scanned, v);
    }
  }

  lemma AllScanned(adj: Adj, order: seq<Node>, stack: seq<Node>, scanned: Edges, v: Node)
    requires stack != [] && v == stack[|stack| - 1] && Scanned(adj, order, stack[..|stack| - 1], scanned)
    requires forall w :: Edge(adj, v, w) ==> (v, w) in scanned
    ensures Scanned(adj, order, stack, scanned)
  {
    assert stack == stack[..|stack| - 1] + [v];
    assert forall u :: u in stack ==> u in stack[..|stack| - 1] || u == v;
  }

  method Sweep(nodes: seq<Node>, adj: Adj, s: Node, ghost d: Node -> int, ghost c: Node -> real)
    returns (stack: seq<Node>, preds: map<Node, seq<Node>>, sigma: map<Node, real>, dist: map<Node, int>)
    requires ClosedGraph(nodes, adj) && s in nodes && Levels(adj, s, d) && Counts(nodes, adj, s, d, c)
    ensures Settled(nodes, adj, d, c, stack, preds, sigma, dist)
  {
    hide Counts, Counted, Linked, Discovered, NearestFirst, Frontier, Scanned, ScannedFrom, Levels, Settled;
    stack := [];
    preds := Filled(nodes, []);
    sigma := Filled(nodes, 0.0);
    dist := Filled(nodes, -1);
    sigma := sigma[s := 1.0];
    dist := dist[s := 0];
    var b := Pass([s], preds, sigma, dist);
    StartState(nodes, adj, s, d, c, b);
    ghost var scanned: Edges := {};
    while b.queue != []
      invariant AtHead(nodes, adj, s, d, c, stack, b, scanned)
      decreases |nodes| - |stack|
    {
      PopKeeps(nodes, adj, s, d, c, stack, b, scanned);
      var v := b.queue[0];
      b := b.(queue := b.queue[1..]);
      stack := stack + [v];
      if v in adj {
        b, scanned := Relax(nodes, adj, s, d, c, v, stack, scanned, b);
      }
      ScanDone(nodes, adj, s, d, c, v, stack, b, scanned);
    }
    PassComplete(nodes, adj, s, d, c, stack, b, scanned);
    preds, sigma, dist := b.preds, b.sigma, b.dist;
  }
}
