/** Brandes' betweenness computation: forward pass, back-propagation and accumulation over all sources. */
module Betweenness {
  import opened Sums
  import opened Graph
  import opened Dependency
  import opened ForwardPass

  // ----- back-propagation, for given levels, counts and dependencies

  ghost function BackTerm(adj: Adj, d: Node -> int, c: Node -> real, dep: Node -> real, v: Node): Node -> real
  {
    w => if Before(adj, d, v, w) && c(w) != 0.0 then c(v) / c(w) * (1.0 + dep(w)) else 0.0
  }

  /** `dep` solves the recurrence: each node collects from the nodes one level after it. */
  ghost predicate Recurs(nodes: seq<Node>, adj: Adj, d: Node -> int, c: Node -> real, dep: Node -> real)
  {
    && (forall v :: v in nodes ==> dep(v) == Sum(nodes, BackTerm(adj, d, c, dep, v)))
    && (forall x :: d(x) >= 0 ==> x in nodes && c(x) != 0.0)
    && (forall x :: d(x) < 0 ==> dep(x) == 0.0)
  }

  ghost function PoppedTerm(adj: Adj, d: Node -> int, c: Node -> real, dep: Node -> real, popped: set<Node>, v: Node): Node -> real
  {
    w => if w in popped then BackTerm(adj, d, c, dep, v)(w) else 0.0
  }

  ghost function Collected(nodes: seq<Node>, adj: Adj, d: Node -> int, c: Node -> real, dep: Node -> real,
                           popped: set<Node>, v: Node): real
  {
    Sum(nodes, PoppedTerm(adj, d, c, dep, popped, v))
  }

  /** `delta` holds what the popped nodes have passed back so far. */
  ghost predicate Collecting(nodes: seq<Node>, adj: Adj, d: Node -> int, c: Node -> real, dep: Node -> real,
                             popped: set<Node>, delta: map<Node, real>)
  {
    delta.Keys == NodeSet(nodes) && forall v :: v in nodes ==> delta[v] == Collected(nodes, adj, d, c, dep, popped, v)
  }

  lemma CollectMore(nodes: seq<Node>, adj: Adj, d: Node -> int, c: Node -> real, dep: Node -> real,
                    popped: set<Node>, w: Node, v: Node)
    requires Distinct(nodes) && w in nodes && w !in popped
    ensures Collected(nodes, adj, d, c, dep, popped + {w}, v)
            == Collected(nodes, adj, d, c, dep, popped, v) + BackTerm(adj, d, c, dep, v)(w)
  {
    SumUpdate(nodes, w, PoppedTerm(adj, d, c, dep, popped, v), PoppedTerm(adj, d, c, dep, popped + {w}, v));
  }

  lemma CollectedAll(nodes: seq<Node>, adj: Adj, d: Node -> int, c: Node -> real, dep: Node -> real,
                     popped: set<Node>, v: Node)
    requires Recurs(nodes, adj, d, c, dep) && v in nodes
    requires forall w :: Before(adj, d, v, w) ==> w in popped
    ensures Collected(nodes, adj, d, c, dep, popped, v) == dep(v)
  {
    SumEq(nodes, PoppedTerm(adj, d, c, dep, popped, v), BackTerm(adj, d, c, dep, v));
  }

  /** The nodes still on the stack are the reached ones that have not been popped. */
  ghost predicate Remaining(d: Node -> int, stack: seq<Node>, popped: set<Node>)
  {
    && Distinct(stack) && NearestFirst(d, stack)
    && (forall x :: x in stack <==> d(x) >= 0 && x !in popped)
    && (forall x :: x in popped ==> d(x) >= 0)
  }

  /** When a node is popped, everything one level after it has been popped before. */
  lemma PopCollects(nodes: seq<Node>, adj: Adj, d: Node -> int, c: Node -> real, dep: Node -> real,
                    stack: seq<Node>, popped: set<Node>)
    requires Recurs(nodes, adj, d, c, dep) && stack != [] && Remaining(d, stack, popped)
    ensures var w := stack[|stack| - 1];
            && w in nodes && w !in popped && c(w) != 0.0
            && Collected(nodes, adj, d, c, dep, popped, w) == dep(w)
            && Remaining(d, stack[..|stack| - 1], popped + {w})
  {
    var w, rest := stack[|stack| - 1], stack[..|stack| - 1];
    assert w in stack && stack == rest + [w];
    assert forall i :: 0 <= i < |stack| ==> d(stack[i]) <= d(w);
    assert forall x :: Before(adj, d, w, x) ==> x in popped;
    CollectedAll(nodes, adj, d, c, dep, popped, w);
    assert w !in rest;
  }

  ghost predicate PassedBack(nodes: seq<Node>, adj: Adj, d: Node -> int, c: Node -> real, dep: Node -> real,
                             w: Node, us: seq<Node>, before: map<Node, real>, after: map<Node, real>)
  {
    && before.Keys == after.Keys == NodeSet(nodes)
    && forall v :: v in nodes ==>
         after[v] == before[v] + if v in us then BackTerm(adj, d, c, dep, v)(w) else 0.0
  }

  /** The inner loop: node `w` passes its dependency back to its predecessors. */
  method PassBack(nodes: seq<Node>, ghost adj: Adj, ghost d: Node -> int, ghost c: Node -> real, ghost dep: Node -> real,
                  w: Node, us: seq<Node>, sigma: map<Node, real>, delta: map<Node, real>)
    returns (delta': map<Node, real>)
    requires sigma.Keys == delta.Keys == NodeSet(nodes) && w in nodes
    requires Distinct(us) && forall u :: u in us ==> u in nodes && Before(adj, d, u, w)
    requires forall x :: x in nodes ==> sigma[x] == c(x)
    requires c(w) != 0.0 && delta[w] == dep(w)
    ensures PassedBack(nodes, adj, d, c, dep, w, us, delta, delta')
  {
    delta' := delta;
    for i := 0 to |us|
      invariant PassedBack(nodes, adj, d, c, dep, w, us[..i], delta, delta')
      invariant delta'[w] == dep(w)
    {
      var v := us[i];
      assert v in us && Before(adj, d, v, w);
      assert v != w;
      assert v !in us[..i];
      var share := (sigma[v] / sigma[w]) * (1.0 + delta'[w]);
      assert share == BackTerm(adj, d, c, dep, v)(w);
      delta' := delta'[v := delta'[v] + share];
      assert us[..i + 1] == us[..i] + [v];
    }
    assert us[..|us|] == us;
  }

  lemma PassedBackCollects(nodes: seq<Node>, adj: Adj, d: Node -> int, c: Node -> real, dep: Node -> real,
                           popped: set<Node>, w: Node, us: seq<Node>, before: map<Node, real>, after: map<Node, real>)
    requires Distinct(nodes) && w in nodes && w !in popped && c(w) != 0.0
    requires forall u :: u in us <==> Before(adj, d, u, w)
    requires Collecting(nodes, adj, d, c, dep, popped, before)
    requires PassedBack(nodes, adj, d, c, dep, w, us, before, after)
    ensures Collecting(nodes, adj, d, c, dep, popped + {w}, after)
  {
    forall v | v in nodes ensures after[v] == Collected(nodes, adj, d, c, dep, popped + {w}, v) {
      CollectMore(nodes, adj, d, c, dep, popped, w, v);
      assert BackTerm(adj, d, c, dep, v)(w) == if v in us then BackTerm(adj, d, c, dep, v)(w) else 0.0;
    }
  }

  ghost predicate Credited(nodes: seq<Node>, s: Node, dep: Node -> real, popped: set<Node>,
                           before: map<Node, real>, after: map<Node, real>)
  {
    && before.Keys == after.Keys == NodeSet(nodes)
    && forall x :: x in nodes ==> after[x] == before[x] + if x in popped && x != s then dep(x) else 0.0
  }

  lemma BackStart(nodes: seq<Node>, adj: Adj, s: Node, d: Node -> int, c: Node -> real, dep: Node -> real,
                  stack: seq<Node>, preds: map<Node, seq<Node>>, sigma: map<Node, real>, dist: map<Node, int>,
                  delta: map<Node, real>, total: map<Node, real>)
    requires Settled(nodes, adj, d, c, stack, preds, sigma, dist)
    requires delta.Keys == NodeSet(nodes) && forall x :: x in delta ==> delta[x] == 0.0
    requires total.Keys == NodeSet(nodes)
    ensures Remaining(d, stack, {}) && Collecting(nodes, adj, d, c, dep, {}, delta)
    ensures Credited(nodes, s, dep, {}, total, total)
  {
    forall v | v in nodes ensures delta[v] == Collected(nodes, adj, d, c, dep, {}, v) {
      SumZero(nodes, PoppedTerm(adj, d, c, dep, {}, v));
    }
  }

  /** What the visit of `w` needs to know about the tables. */
  lemma BackTables(nodes: seq<Node>, adj: Adj, d: Node -> int, c: Node -> real, dep: Node -> real,
                   visited: seq<Node>, preds: map<Node, seq<Node>>, sigma: map<Node, real>, dist: map<Node, int>,
                   popped: set<Node>, delta: map<Node, real>, w: Node)
    requires Recurs(nodes, adj, d, c, dep) && Settled(nodes, adj, d, c, visited, preds, sigma, dist) && w in nodes
    requires Collecting(nodes, adj, d, c, dep, popped, delta) && Collected(nodes, adj, d, c, dep, popped, w) == dep(w)
    ensures w in preds && sigma.Keys == delta.Keys == NodeSet(nodes)
    ensures Distinct(preds[w]) && forall u :: u in preds[w] <==> Before(adj, d, u, w)
    ensures forall u :: u in preds[w] ==> u in nodes
    ensures forall x :: x in nodes ==> sigma[x] == c(x)
    ensures delta[w] == dep(w)
  {
  }

  lemma CreditOne(nodes: seq<Node>, s: Node, dep: Node -> real, popped: set<Node>, w: Node,
                  total: map<Node, real>, before: map<Node, real>)
    requires Credited(nodes, s, dep, popped, total, before) && w in nodes && w !in popped
    ensures w in before
    ensures Credited(nodes, s, dep, popped + {w}, total, if w != s then before[w := before[w] + dep(w)] else before)
  {
  }

  lemma BackEnd(nodes: seq<Node>, adj: Adj, s: Node, d: Node -> int, c: Node -> real, dep: Node -> real,
                popped: set<Node>, before: map<Node, real>, after: map<Node, real>)
    requires Recurs(nodes, adj, d, c, dep) && Remaining(d, [], popped)
    requires Credited(nodes, s, dep, popped, before, after)
    ensures forall x :: x in nodes ==> after[x] == before[x] + if x == s then 0.0 else dep(x)
  {
    forall x | x in nodes ensures after[x] == before[x] + if x == s then 0.0 else dep(x) {
      assert x !in [];
    }
  }

  /** The stack loop: nodes are popped farthest first; each is credited with its dependency. */
  method BackPropagate(nodes: seq<Node>, ghost adj: Adj, s: Node, ghost d: Node -> int, ghost c: Node -> real,
                       ghost dep: Node -> real, visited: seq<Node>, preds: map<Node, seq<Node>>,
                       sigma: map<Node, real>, ghost dist: map<Node, int>, total: map<Node, real>)
    returns (total': map<Node, real>)
    requires Distinct(nodes) && Recurs(nodes, adj, d, c, dep) && total.Keys == NodeSet(nodes)
    requires Settled(nodes, adj, d, c, visited, preds, sigma, dist)
    ensures total'.Keys == NodeSet(nodes)
    ensures forall x :: x in nodes ==> total'[x] == total[x] + if x == s then 0.0 else dep(x)
  {
    hide Distinct, Recurs, Settled, Remaining, Collecting, Collected, Credited, PassedBack, Before;
    var delta := Filled(nodes, 0.0);
    var stack := visited;
    ghost var popped: set<Node> := {};
    total' := total;
    BackStart(nodes, adj, s, d, c, dep, stack, preds, sigma, dist, delta, total);
    while stack != []
      invariant total'.Keys == NodeSet(nodes)
      invariant Remaining(d, stack, popped)
      invariant Collecting(nodes, adj, d, c, dep, popped, delta)
      invariant Credited(nodes, s, dep, popped, total, total')
    {
      PopCollects(nodes, adj, d, c, dep, stack, popped);
      var w := stack[|stack| - 1];
      stack := stack[..|stack| - 1];
      BackTables(nodes, adj, d, c, dep, visited, preds, sigma, dist, popped, delta, w);
      CreditOne(nodes, s, dep, popped, w, total, total');
      var delta' := PassBack(nodes, adj, d, c, dep, w, preds[w], sigma, delta);
      PassedBackCollects(nodes, adj, d, c, dep, popped, w, preds[w], delta, delta');
      if w != s {
        total' := total'[w := total'[w] + delta[w]];
      }
      delta := delta';
      popped := popped + {w};
    }
    BackEnd(nodes, adj, s, d, c, dep, popped, total, total');
  }

  // ----- distances and path counts are levels and counts, and the dependency solves the recurrence

  ghost function DistFrom(adj: Adj, s: Node): Node -> int
  {
    x => Dist(adj, s, x)
  }

  ghost function SigmaFrom(adj: Adj, s: Node): Node -> real
  {
    x => Sigma(adj, s, x)
  }

  ghost function DependencyFrom(nodes: seq<Node>, adj: Adj, s: Node): Node -> real
  {
    v => DependencyOf(nodes, adj, s, v)
  }

  lemma BeforeIsPred(adj: Adj, s: Node, u: Node, w: Node)
    ensures Before(adj, DistFrom(adj, s), u, w) <==> Pred(adj, s, u, w)
  {
  }

  lemma DistLevels(adj: Adj, s: Node)
    ensures Levels(adj, s, DistFrom(adj, s))
  {
    var d := DistFrom(adj, s);
    SelfDist(adj, s);
    forall x | d(x) == 0 ensures x == s { ZeroDist(adj, s, x); }
    forall u, w | d(u) >= 0 && Edge(adj, u, w) ensures 0 <= d(w) <= d(u) + 1 { EdgeDist(adj, s, u, w); }
    forall w | d(w) > 0 ensures exists u :: Before(adj, d, u, w) {
      var u := LastStep(adj, s, w);
      BeforeIsPred(adj, s, u, w);
    }
  }

  lemma SigmaCounts(nodes: seq<Node>, adj: Adj, s: Node)
    requires ClosedGraph(nodes, adj) && s in nodes
    ensures Counts(nodes, adj, s, DistFrom(adj, s), SigmaFrom(adj, s))
  {
    var d, c := DistFrom(adj, s), SigmaFrom(adj, s);
    SelfDist(adj, s);
    forall w ensures c(w) == (if w == s then 1.0 else 0.0) + Sum(nodes, BeforeTerm(adj, d, c, w)) {
      forall u ensures BeforeTerm(adj, d, c, w)(u) == SigmaTerm(adj, s, w)(u) { BeforeIsPred(adj, s, u, w); }
      SumEq(nodes, BeforeTerm(adj, d, c, w), SigmaTerm(adj, s, w));
      if Reach(adj, s, w) && w != s {
        SigmaByLastStep(nodes, adj, s, w);
      } else {
        SumZero(nodes, SigmaTerm(adj, s, w));
      }
    }
  }

  lemma DependencyRecurs(nodes: seq<Node>, adj: Adj, s: Node)
    requires ClosedGraph(nodes, adj) && s in nodes
    ensures Recurs(nodes, adj, DistFrom(adj, s), SigmaFrom(adj, s), DependencyFrom(nodes, adj, s))
  {
    var d, c, dep := DistFrom(adj, s), SigmaFrom(adj, s), DependencyFrom(nodes, adj, s);
    forall v | v in nodes ensures dep(v) == Sum(nodes, BackTerm(adj, d, c, dep, v)) {
      DependencyRecurrence(nodes, adj, s, v);
      BackTermIsShare(nodes, adj, s, v);
    }
    forall x | d(x) >= 0 ensures x in nodes && c(x) != 0.0 { ReachStaysInside(nodes, adj, s, x); }
    forall x | d(x) < 0 ensures dep(x) == 0.0 { DependencyUnreached(nodes, adj, s, x); }
  }

  lemma ZeroTimes(a: real, b: real)
    requires a == 0.0
    ensures a * b == 0.0
  {
  }

  lemma BackTermAt(nodes: seq<Node>, adj: Adj, s: Node, v: Node, w: Node)
    ensures Share(adj, s, v, w) * (1.0 + DependencyOf(nodes, adj, s, w))
            == BackTerm(adj, DistFrom(adj, s), SigmaFrom(adj, s), DependencyFrom(nodes, adj, s), v)(w)
  {
    BeforeIsPred(adj, s, v, w);
    if !Pred(adj, s, v, w) {
      ZeroTimes(Share(adj, s, v, w), 1.0 + DependencyOf(nodes, adj, s, w));
    }
  }

  lemma BackTermIsShare(nodes: seq<Node>, adj: Adj, s: Node, v: Node)
    ensures Dot(nodes, ShareFrom(adj, s, v), OnePlus(nodes, adj, s))
            == Sum(nodes, BackTerm(adj, DistFrom(adj, s), SigmaFrom(adj, s), DependencyFrom(nodes, adj, s), v))
  {
    hide Share, DependencyOf, BackTerm;
    var back := BackTerm(adj, DistFrom(adj, s), SigmaFrom(adj, s), DependencyFrom(nodes, adj, s), v);
    var times := Times(ShareFrom(adj, s, v), OnePlus(nodes, adj, s));
    forall w ensures times(w) == back(w) {
      BackTermAt(nodes, adj, s, v, w);
    }
    SumEq(nodes, times, back);
  }

  // ----- the whole computation

  /** What the forward pass from `s` leaves behind, in terms of paths. */
  ghost predicate Explored(nodes: seq<Node>, adj: Adj, s: Node, stack: seq<Node>,
                           preds: map<Node, seq<Node>>, sigma: map<Node, real>, dist: map<Node, int>)
  {
    && preds.Keys == sigma.Keys == dist.Keys == NodeSet(nodes)
    && (forall w :: w in nodes ==> dist[w] == Dist(adj, s, w) && sigma[w] == Sigma(adj, s, w))
    && Distinct(stack) && (forall x :: x in stack <==> Reach(adj, s, x))
    && (forall i, j :: 0 <= i < j < |stack| ==> Dist(adj, s, stack[i]) <= Dist(adj, s, stack[j]))
    && (forall w :: w in nodes ==> Distinct(preds[w]) && forall u :: u in preds[w] <==> Pred(adj, s, u, w))
  }

  lemma SettledIsExplored(nodes: seq<Node>, adj: Adj, s: Node, stack: seq<Node>,
                          preds: map<Node, seq<Node>>, sigma: map<Node, real>, dist: map<Node, int>)
    requires Settled(nodes, adj, DistFrom(adj, s), SigmaFrom(adj, s), stack, preds, sigma, dist)
    ensures Explored(nodes, adj, s, stack, preds, sigma, dist)
  {
    forall u, w ensures Before(adj, DistFrom(adj, s), u, w) <==> Pred(adj, s, u, w) { BeforeIsPred(adj, s, u, w); }
    forall x ensures DistFrom(adj, s)(x) == Dist(adj, s, x) && SigmaFrom(adj, s)(x) == Sigma(adj, s, x) {}
  }

  /** The first half of the source loop's body: `dist`, `sigma`, `stack` and the predecessor lists from `s`. */
  method Explore(nodes: seq<Node>, adj: Adj, s: Node)
    returns (stack: seq<Node>, preds: map<Node, seq<Node>>, sigma: map<Node, real>, dist: map<Node, int>)
    requires ClosedGraph(nodes, adj) && s in nodes
    ensures Explored(nodes, adj, s, stack, preds, sigma, dist)
    ensures Settled(nodes, adj, DistFrom(adj, s), SigmaFrom(adj, s), stack, preds, sigma, dist)
  {
    hide *;
    DistLevels(adj, s);
    SigmaCounts(nodes, adj, s);
    stack, preds, sigma, dist := Sweep(nodes, adj, s, DistFrom(adj, s), SigmaFrom(adj, s));
    SettledIsExplored(nodes, adj, s, stack, preds, sigma, dist);
  }

  ghost predicate Accumulated(nodes: seq<Node>, adj: Adj, sources: seq<Node>, total: map<Node, real>)
  {
    total.Keys == NodeSet(nodes)
    && forall v :: v in nodes ==> total[v] == Sum(sources, CentralityTerm(nodes, adj, v))
  }

  lemma AccumulateOne(nodes: seq<Node>, adj: Adj, sources: seq<Node>, s: Node, before: map<Node, real>, after: map<Node, real>)
    requires Accumulated(nodes, adj, sources, before) && after.Keys == NodeSet(nodes)
    requires forall x :: x in nodes ==> after[x] == before[x] + if x == s then 0.0 else DependencyFrom(nodes, adj, s)(x)
    ensures Accumulated(nodes, adj, sources + [s], after)
  {
    forall v | v in nodes ensures after[v] == Sum(sources + [s], CentralityTerm(nodes, adj, v)) {
      SumAppend(sources, [s], CentralityTerm(nodes, adj, v));
      assert Sum([s], CentralityTerm(nodes, adj, v)) == CentralityTerm(nodes, adj, v)(s);
    }
  }

  /** Every value halved, one entry after the other. */
  method Halved(m: map<Node, real>) returns (r: map<Node, real>)
    ensures r.Keys == m.Keys && forall x :: x in m ==> r[x] == m[x] / 2.0
  {
    r := m;
    var rest := m.Keys;
    while rest != {}
      invariant rest <= m.Keys && r.Keys == m.Keys
      invariant forall x :: x in m ==> r[x] == if x in rest then m[x] else m[x] / 2.0
      decreases rest
    {
      var x :| x in rest;
      r := r[x := r[x] / 2.0];
      rest := rest - {x};
    }
  }

  lemma AccumulateNone(nodes: seq<Node>, adj: Adj, total: map<Node, real>)
    requires total.Keys == NodeSet(nodes) && forall x :: x in total ==> total[x] == 0.0
    ensures Accumulated(nodes, adj, [], total)
  {
  }

  lemma AccumulateAll(nodes: seq<Node>, adj: Adj, total: map<Node, real>, halves: map<Node, real>)
    requires Accumulated(nodes, adj, nodes, total)
    requires halves.Keys == total.Keys && forall x :: x in total ==> halves[x] == total[x] / 2.0
    ensures forall v :: v in nodes ==> halves[v] == Centrality(nodes, adj, v)
  {
  }

  /** The fast computation returns betweenness by definition, for every graph closed over its distinct nodes. */
  method ComputeBetweenness(nodes: seq<Node>, adj: Adj) returns (betweenness: map<Node, real>)
    requires ClosedGraph(nodes, adj)
    ensures betweenness.Keys == NodeSet(nodes)
    ensures forall v :: v in nodes ==> betweenness[v] == Centrality(nodes, adj, v)
  {
    hide Centrality, Accumulated, Distinct, Settled, Recurs, Explored, DistFrom, SigmaFrom, DependencyFrom;
    var total := Filled(nodes, 0.0);
    AccumulateNone(nodes, adj, total);
    assert nodes[..0] == [];
    for i := 0 to |nodes|
      invariant total.Keys == NodeSet(nodes)
      invariant Accumulated(nodes, adj, nodes[..i], total)
    {
      var s := nodes[i];
      var stack, preds, sigma, dist := Explore(nodes, adj, s);
      DependencyRecurs(nodes, adj, s);
      var total' := BackPropagate(nodes, adj, s, DistFrom(adj, s), SigmaFrom(adj, s), DependencyFrom(nodes, adj, s),
                                  stack, preds, sigma, dist, total);
      AccumulateOne(nodes, adj, nodes[..i], s, total, total');
      assert nodes[..i + 1] == nodes[..i] + [s];
      total := total';
    }
    assert nodes[..|nodes|] == nodes;
    betweenness := Halved(total);
    AccumulateAll(nodes, adj, total, betweenness);
  }
}
