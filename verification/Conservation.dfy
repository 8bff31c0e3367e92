/** Whole-graph laws of betweenness: its total, and its meaning on undirected graphs. */
module Conservation {
  import opened Sequences
  import opened Sums
  import opened Graph
  import opened Dependency

  // ----- every shortest path has Dist + 1 stops

  lemma ViaTotalSelf(nodes: seq<Node>, adj: Adj, s: Node)
    requires Distinct(nodes) && s in nodes
    ensures Sum(nodes, ViaOf(adj, s, s)) == 1.0
  {
    SelfDist(adj, s);
    ViaEnds(adj, s, s);
    forall v | v in nodes && v != s ensures ViaOf(adj, s, s)(v) == 0.0 {
      if Dist(adj, s, v) == 0 { ZeroDist(adj, s, v); }
      ViaNone(adj, s, s, v);
    }
    SumSingle(nodes, s, ViaOf(adj, s, s));
  }

  /** Stops over all shortest paths, when every shortest path to `t` has one stop per unit of distance and one more. */
  ghost function Stops(adj: Adj, s: Node, t: Node): real
  {
    (Dist(adj, s, t) as real + 1.0) * Sigma(adj, s, t)
  }

  ghost function StopsTerm(adj: Adj, s: Node, t: Node): Node -> real
  {
    u => if Pred(adj, s, u, t) then Stops(adj, s, u) else 0.0
  }

  lemma StopsOneFurther(adj: Adj, s: Node, t: Node, u: Node)
    ensures StopsTerm(adj, s, t)(u) == Dist(adj, s, t) as real * SigmaTerm(adj, s, t)(u)
  {
  }

  lemma StopsByLastStep(nodes: seq<Node>, adj: Adj, s: Node, t: Node)
    requires ClosedGraph(nodes, adj) && s in nodes && Reach(adj, s, t) && t != s
    ensures Sum(nodes, StopsTerm(adj, s, t)) + Sigma(adj, s, t) == Stops(adj, s, t)
  {
    hide StopsTerm, SigmaTerm, Stops, Sum, ClosedGraph, Reach;
    forall u ensures StopsTerm(adj, s, t)(u) == Dist(adj, s, t) as real * SigmaTerm(adj, s, t)(u) {
      StopsOneFurther(adj, s, t, u);
    }
    SumScale(nodes, Dist(adj, s, t) as real, SigmaTerm(adj, s, t), StopsTerm(adj, s, t));
    SigmaByLastStep(nodes, adj, s, t);
    StopsSplit(adj, s, t);
  }

  lemma StopsSplit(adj: Adj, s: Node, t: Node)
    ensures Stops(adj, s, t) == Dist(adj, s, t) as real * Sigma(adj, s, t) + Sigma(adj, s, t)
  {
    var d, x := Dist(adj, s, t) as real, Sigma(adj, s, t);
    assert (d + 1.0) * x == d * x + x;
  }

  lemma ViaTotalColumn(nodes: seq<Node>, adj: Adj, s: Node, t: Node, u: Node)
    requires Pred(adj, s, u, t) ==> Sum(nodes, ViaOf(adj, s, u)) == Stops(adj, s, u)
    ensures Col(nodes, LastStepVia(adj, s, t))(u) == StopsTerm(adj, s, t)(u)
  {
    var column := Across(LastStepVia(adj, s, t), u);
    forall w ensures column(w) == ViaTerm(adj, s, t, w)(u) {
      assert column(w) == LastStepVia(adj, s, t)(w, u);
    }
    if Pred(adj, s, u, t) {
      SumEq(nodes, column, ViaOf(adj, s, u));
    } else {
      SumZero(nodes, column);
    }
  }

  lemma ViaTotalRows(nodes: seq<Node>, adj: Adj, s: Node, t: Node)
    requires ClosedGraph(nodes, adj) && s in nodes && Reach(adj, s, t) && t != s
    ensures Sum(nodes, ViaOf(adj, s, t)) == Sum(nodes, Col(nodes, LastStepVia(adj, s, t))) + Sigma(adj, s, t)
  {
    var b, spike := LastStepVia(adj, s, t), Spike(t, Sigma(adj, s, t));
    ReachStaysInside(nodes, adj, s, t);
    forall w | w in nodes ensures ViaOf(adj, s, t)(w) == Row(nodes, b)(w) + spike(w) {
      ViaRow(nodes, adj, s, t, w);
    }
    SumAdd(nodes, Row(nodes, b), spike, ViaOf(adj, s, t));
    SumSpike(nodes, t, Sigma(adj, s, t));
    SumSwap(nodes, nodes, b);
  }

  lemma {:induction false} ViaTotal(nodes: seq<Node>, adj: Adj, s: Node, t: Node)
    requires ClosedGraph(nodes, adj) && s in nodes && Reach(adj, s, t)
    ensures Sum(nodes, ViaOf(adj, s, t)) == Stops(adj, s, t)
    decreases Dist(adj, s, t)
  {
    if t == s {
      ViaTotalSelf(nodes, adj, s);
      SelfDist(adj, s);
    } else {
      var columns := Col(nodes, LastStepVia(adj, s, t));
      forall u | u in nodes ensures columns(u) == StopsTerm(adj, s, t)(u) {
        if Pred(adj, s, u, t) { ViaTotal(nodes, adj, s, u); }
        ViaTotalColumn(nodes, adj, s, t, u);
      }
      SumEq(nodes, columns, StopsTerm(adj, s, t));
      ViaTotalRows(nodes, adj, s, t);
      StopsByLastStep(nodes, adj, s, t);
    }
  }

  // ----- the total of all betweenness values

  /** The share of shortest s-t paths visiting `v` as an inner stop. */
  ghost function InnerShare(adj: Adj, s: Node, t: Node, v: Node): real
  {
    if v == s || v == t || t == s then 0.0 else PairShare(adj, s, t, v)
  }

  ghost function InnerShares(adj: Adj, s: Node): (Node, Node) -> real
  {
    (v, t) => InnerShare(adj, s, t, v)
  }

  ghost function InnerStops(adj: Adj, s: Node): Node -> real
  {
    t => if t != s && Reach(adj, s, t) then Dist(adj, s, t) as real - 1.0 else 0.0
  }

  ghost function ShareOf(adj: Adj, s: Node, t: Node): Node -> real
  {
    v => PairShare(adj, s, t, v)
  }

  lemma Cancel(y: real, d: real, x: real)
    requires x != 0.0 && y == d * x
    ensures y / x == d
  {
  }

  lemma ShareTotal(nodes: seq<Node>, adj: Adj, s: Node, t: Node)
    requires ClosedGraph(nodes, adj) && s in nodes && Reach(adj, s, t)
    ensures Sum(nodes, ShareOf(adj, s, t)) == Dist(adj, s, t) as real + 1.0
  {
    hide ClosedGraph, Reach, Via, Sum;
    ViaTotal(nodes, adj, s, t);
    var sigma := Sigma(adj, s, t);
    SumQuotient(nodes, sigma, ViaOf(adj, s, t), ShareOf(adj, s, t));
    Cancel(Sum(nodes, ViaOf(adj, s, t)), Dist(adj, s, t) as real + 1.0, sigma);
  }

  ghost function ShareBeyond(adj: Adj, s: Node, t: Node): Node -> real
  {
    v => if v == s then 0.0 else PairShare(adj, s, t, v)
  }

  lemma EndShares(adj: Adj, s: Node, t: Node)
    requires Reach(adj, s, t)
    ensures PairShare(adj, s, t, s) == 1.0 && PairShare(adj, s, t, t) == 1.0
  {
    ViaEnds(adj, s, t);
  }

  lemma InnerStopsCount(nodes: seq<Node>, adj: Adj, s: Node, t: Node)
    requires ClosedGraph(nodes, adj) && s in nodes && t in nodes
    ensures Col(nodes, InnerShares(adj, s))(t) == InnerStops(adj, s)(t)
  {
    var column := Across(InnerShares(adj, s), t);
    forall v ensures column(v) == InnerShare(adj, s, t, v) {
      assert column(v) == InnerShares(adj, s)(v, t);
    }
    if t == s || !Reach(adj, s, t) {
      SumZero(nodes, column);
    } else {
      ShareTotal(nodes, adj, s, t);
      EndShares(adj, s, t);
      var beyond := ShareBeyond(adj, s, t);
      SumUpdate(nodes, s, beyond, ShareOf(adj, s, t));
      SumUpdate(nodes, t, column, beyond);
    }
  }

  lemma InnerShareRow(nodes: seq<Node>, adj: Adj, s: Node, v: Node)
    ensures Row(nodes, InnerShares(adj, s))(v) == CentralityTerm(nodes, adj, v)(s)
  {
    var row := At(InnerShares(adj, s), v);
    forall t ensures row(t) == InnerShare(adj, s, t, v) {
      assert row(t) == InnerShares(adj, s)(v, t);
    }
    if s == v {
      SumZero(nodes, row);
    } else {
      SumEq(nodes, row, DependencyTerm(adj, s, v));
    }
  }

  ghost function CentralityTerms(nodes: seq<Node>, adj: Adj): (Node, Node) -> real
  {
    (v, s) => CentralityTerm(nodes, adj, v)(s)
  }

  ghost function CentralityOf(nodes: seq<Node>, adj: Adj): Node -> real
  {
    v => Centrality(nodes, adj, v)
  }

  ghost function StopsFrom(nodes: seq<Node>, adj: Adj): Node -> real
  {
    s => Sum(nodes, InnerStops(adj, s))
  }

  lemma SourceTotal(nodes: seq<Node>, adj: Adj, s: Node)
    requires ClosedGraph(nodes, adj) && s in nodes
    ensures Col(nodes, CentralityTerms(nodes, adj))(s) == StopsFrom(nodes, adj)(s)
  {
    var shares, column := InnerShares(adj, s), Across(CentralityTerms(nodes, adj), s);
    forall v | v in nodes ensures Row(nodes, shares)(v) == column(v) {
      InnerShareRow(nodes, adj, s, v);
      assert column(v) == CentralityTerms(nodes, adj)(v, s);
    }
    SumEq(nodes, Row(nodes, shares), column);
    SumSwap(nodes, nodes, shares);
    forall t | t in nodes ensures Col(nodes, shares)(t) == InnerStops(adj, s)(t) {
      InnerStopsCount(nodes, adj, s, t);
    }
    SumEq(nodes, Col(nodes, shares), InnerStops(adj, s));
  }

  lemma HalfOfRow(nodes: seq<Node>, adj: Adj, v: Node)
    ensures CentralityOf(nodes, adj)(v) == 0.5 * Row(nodes, CentralityTerms(nodes, adj))(v)
  {
    var terms := CentralityTerms(nodes, adj);
    forall s ensures At(terms, v)(s) == CentralityTerm(nodes, adj, v)(s) {
      assert At(terms, v)(s) == terms(v, s);
    }
    SumEq(nodes, At(terms, v), CentralityTerm(nodes, adj, v));
    hide Sum, CentralityTerm, CentralityTerms;
  }

  /**
   Conservation: all betweenness values together are half the sum, over ordered
   connected pairs s != t, of the number of inner stops Dist(s, t) - 1.
   */
  lemma BetweennessConserved(nodes: seq<Node>, adj: Adj)
    requires ClosedGraph(nodes, adj)
    ensures Sum(nodes, CentralityOf(nodes, adj)) == Sum(nodes, StopsFrom(nodes, adj)) / 2.0
  {
    var terms := CentralityTerms(nodes, adj);
    hide *;
    forall v | v in nodes ensures CentralityOf(nodes, adj)(v) == 0.5 * Row(nodes, terms)(v) {
      HalfOfRow(nodes, adj, v);
    }
    SumScale(nodes, 0.5, Row(nodes, terms), CentralityOf(nodes, adj));
    SumSwap(nodes, nodes, terms);
    forall s | s in nodes ensures Col(nodes, terms)(s) == StopsFrom(nodes, adj)(s) {
      SourceTotal(nodes, adj, s);
    }
    SumEq(nodes, Col(nodes, terms), StopsFrom(nodes, adj));
  }

  // ----- undirected graphs: each unordered pair counts once

  ghost predicate Symmetric(adj: Adj)
  {
    forall u, w :: Edge(adj, u, w) ==> Edge(adj, w, u)
  }

  lemma ReversedWalk(adj: Adj, s: Node, t: Node, p: seq<Node>)
    requires Symmetric(adj) && WalkBetween(adj, p, s, t)
    ensures WalkBetween(adj, Reversed(p), t, s)
  {
    var q := Reversed(p);
    forall i | 0 <= i < |q| - 1 ensures Edge(adj, q[i], q[i + 1]) {
      var j := |p| - 2 - i;
      assert Edge(adj, p[j], p[j + 1]);
    }
  }

  lemma ReversedShortest(adj: Adj, s: Node, t: Node, p: seq<Node>)
    requires Symmetric(adj) && p in ShortestPaths(adj, s, t)
    ensures Reversed(p) in ShortestPaths(adj, t, s)
  {
    ShortestPathsExact(adj, s, t, p);
    ReversedWalk(adj, s, t, p);
    forall q | WalkBetween(adj, q, t, s) ensures |p| <= |q| {
      ReversedWalk(adj, t, s, q);
    }
    ShortestPathsExact(adj, t, s, Reversed(p));
  }

  lemma {:induction false} NoMoreThan<T>(ps: set<seq<T>>, qs: set<seq<T>>)
    requires forall p :: p in ps ==> Reversed(p) in qs
    ensures |ps| <= |qs|
    decreases |ps|
  {
    if ps != {} {
      var p :| p in ps;
      forall x | x in ps - {p} ensures Reversed(x) in qs - {Reversed(p)} {
        ReversedTwice(x);
        ReversedTwice(p);
      }
      NoMoreThan(ps - {p}, qs - {Reversed(p)});
    }
  }

  lemma ViaAtMost(adj: Adj, s: Node, t: Node, v: Node)
    requires Symmetric(adj)
    ensures Via(adj, s, t, v) <= Via(adj, t, s, v)
  {
    forall p | p in PathsVia(adj, s, t, v) ensures Reversed(p) in PathsVia(adj, t, s, v) {
      ReversedShortest(adj, s, t, p);
      ReversedMembers(p, v);
    }
    NoMoreThan(PathsVia(adj, s, t, v), PathsVia(adj, t, s, v));
  }

  lemma PairShareSymmetric(adj: Adj, s: Node, t: Node, v: Node)
    requires Symmetric(adj)
    ensures PairShare(adj, s, t, v) == PairShare(adj, t, s, v)
  {
    ViaAtMost(adj, s, t, v);
    ViaAtMost(adj, t, s, v);
    ViaAtMost(adj, s, t, s);
    ViaAtMost(adj, t, s, s);
    ViaEnds(adj, s, t);
    ViaEnds(adj, t, s);
  }

  /** Sum of `f` over the pairs of positions i < j of `xs`. */
  ghost function PairSum<T>(xs: seq<T>, f: (T, T) -> real): real
  {
    if xs == [] then 0.0 else Sum(xs[1..], At(f, xs[0])) + PairSum(xs[1..], f)
  }

  lemma {:induction false} EachPairTwice<T>(xs: seq<T>, f: (T, T) -> real)
    requires forall x, y :: f(x, y) == f(y, x)
    requires forall x :: f(x, x) == 0.0
    ensures Sum(xs, Row(xs, f)) == 2.0 * PairSum(xs, f)
  {
    if xs != [] {
      var x, rest := xs[0], xs[1..];
      EachPairTwice(rest, f);
      forall y | y in rest ensures Row(xs, f)(y) == At(f, x)(y) + Row(rest, f)(y) {
        assert At(f, y)(x) == f(y, x) == f(x, y) == At(f, x)(y);
      }
      SumAdd(rest, At(f, x), Row(rest, f), Row(xs, f));
      assert At(f, x)(x) == 0.0;
    }
  }

  ghost function PairTerm(adj: Adj, v: Node): (Node, Node) -> real
  {
    (s, t) => InnerShare(adj, s, t, v)
  }

  /** On an undirected graph the halved ordered sum counts each unordered pair of ends exactly once. */
  lemma UndirectedCentrality(nodes: seq<Node>, adj: Adj, v: Node)
    requires Symmetric(adj)
    ensures Centrality(nodes, adj, v) == PairSum(nodes, PairTerm(adj, v))
  {
    var f := PairTerm(adj, v);
    forall x, y ensures f(x, y) == f(y, x) {
      PairShareSymmetric(adj, x, y, v);
    }
    EachPairTwice(nodes, f);
    forall s | s in nodes ensures Row(nodes, f)(s) == CentralityTerm(nodes, adj, v)(s) {
      var row := At(f, s);
      forall t ensures row(t) == InnerShare(adj, s, t, v) {
        assert row(t) == f(s, t);
      }
      if s == v { SumZero(nodes, row); } else { SumEq(nodes, row, DependencyTerm(adj, s, v)); }
    }
    SumEq(nodes, Row(nodes, f), CentralityTerm(nodes, adj, v));
  }
}
