/**
 The dependency of a source on a node and its first-step recurrence, the identity
 behind the back-propagation of Brandes' algorithm.
 */
module Dependency {
  import opened Sums
  import opened Graph

  /** Of the shortest paths that enter `w`, the share that enters through `v`. */
  ghost function Share(adj: Adj, s: Node, v: Node, w: Node): real
  {
    if Pred(adj, s, v, w) then Sigma(adj, s, v) / Sigma(adj, s, w) else 0.0
  }

  ghost function ShareFrom(adj: Adj, s: Node, v: Node): Node -> real
  {
    w => Share(adj, s, v, w)
  }

  lemma ShareTimesSigma(adj: Adj, s: Node, v: Node, w: Node)
    ensures Share(adj, s, v, w) * Sigma(adj, s, w) == SigmaTerm(adj, s, w)(v)
  {
  }

  ghost function ViaOf(adj: Adj, s: Node, t: Node): Node -> real
  {
    w => Via(adj, s, t, w)
  }

  // ----- paths through v, by the step that leaves v

  /** Paths through `w` that end with the step from `u` to `t`, as a function of (w, u). */
  ghost function LastStepVia(adj: Adj, s: Node, t: Node): (Node, Node) -> real
  {
    (w, u) => ViaTerm(adj, s, t, w)(u)
  }

  lemma ViaRow(nodes: seq<Node>, adj: Adj, s: Node, t: Node, w: Node)
    requires ClosedGraph(nodes, adj) && s in nodes && Reach(adj, s, t) && t != s
    ensures Via(adj, s, t, w) == Row(nodes, LastStepVia(adj, s, t))(w) + Spike(t, Sigma(adj, s, t))(w)
  {
    SumEq(nodes, At(LastStepVia(adj, s, t), w), ViaTerm(adj, s, t, w));
    if w == t {
      ViaEnds(adj, s, t);
      forall u | u in nodes ensures ViaTerm(adj, s, t, t)(u) == 0.0 {
        if Pred(adj, s, u, t) { ViaNone(adj, s, u, t); }
      }
      SumZero(nodes, ViaTerm(adj, s, t, t));
    } else {
      ViaByLastStep(nodes, adj, s, t, w);
    }
  }

  lemma ViaColumn(nodes: seq<Node>, adj: Adj, s: Node, t: Node, v: Node, u: Node)
    requires u != v && Pred(adj, s, u, t) ==>
               Via(adj, s, u, v) == Dot(nodes, ShareFrom(adj, s, v), ViaOf(adj, s, u))
    ensures ViaTerm(adj, s, t, v)(u)
            == DotAcross(nodes, ShareFrom(adj, s, v), LastStepVia(adj, s, t))(u)
               + Spike(v, SigmaTerm(adj, s, t)(v))(u)
  {
    var a, column := ShareFrom(adj, s, v), Across(LastStepVia(adj, s, t), u);
    if !Pred(adj, s, u, t) {
      forall w ensures column(w) == 0.0 {
        assert column(w) == ViaTerm(adj, s, t, w)(u);
      }
      DotZero(nodes, a, column);
    } else if u == v {
      forall w | w in nodes && a(w) != 0.0 ensures column(w) == 0.0 {
        assert column(w) == ViaTerm(adj, s, t, w)(v);
        ViaNone(adj, s, v, w);
      }
      DotZero(nodes, a, column);
      ViaEnds(adj, s, v);
    } else {
      forall w ensures column(w) == ViaOf(adj, s, u)(w) {
        assert column(w) == ViaTerm(adj, s, t, w)(u);
      }
      DotEq(nodes, a, column, ViaOf(adj, s, u));
    }
  }

  lemma ShareSpike(nodes: seq<Node>, adj: Adj, s: Node, t: Node, v: Node)
    requires Distinct(nodes) && t in nodes
    ensures Dot(nodes, ShareFrom(adj, s, v), Spike(t, Sigma(adj, s, t))) == SigmaTerm(adj, s, t)(v)
  {
    var a := ShareFrom(adj, s, v);
    DotSpike(nodes, a, t, Sigma(adj, s, t));
    assert a(t) == Share(adj, s, v, t);
    ShareTimesSigma(adj, s, v, t);
  }

  lemma ViaRows(nodes: seq<Node>, adj: Adj, s: Node, t: Node, v: Node)
    requires ClosedGraph(nodes, adj) && s in nodes && Reach(adj, s, t) && t != s
    ensures Dot(nodes, ShareFrom(adj, s, v), ViaOf(adj, s, t))
            == Sum(nodes, DotAcross(nodes, ShareFrom(adj, s, v), LastStepVia(adj, s, t))) + SigmaTerm(adj, s, t)(v)
  {
    var a, b, spike := ShareFrom(adj, s, v), LastStepVia(adj, s, t), Spike(t, Sigma(adj, s, t));
    ReachStaysInside(nodes, adj, s, t);
    forall w | w in nodes ensures ViaOf(adj, s, t)(w) == Row(nodes, b)(w) + spike(w) {
      ViaRow(nodes, adj, s, t, w);
    }
    DotAdd(nodes, a, Row(nodes, b), spike, ViaOf(adj, s, t));
    ShareSpike(nodes, adj, s, t, v);
    DotSwap(nodes, nodes, a, b);
  }

  /** A shortest path through `v` that goes on leaves `v` over a successor `w`, and takes the share of `v` in it. */
  lemma {:induction false} ViaByFirstStep(nodes: seq<Node>, adj: Adj, s: Node, t: Node, v: Node)
    requires ClosedGraph(nodes, adj) && s in nodes && v in nodes && t != v
    ensures Via(adj, s, t, v) == Dot(nodes, ShareFrom(adj, s, v), ViaOf(adj, s, t))
    decreases Dist(adj, s, t) + 1
  {
    if !Reach(adj, s, t) || t == s {
      ViaByFirstStepEnd(nodes, adj, s, t, v);
    } else {
      var columns := DotAcross(nodes, ShareFrom(adj, s, v), LastStepVia(adj, s, t));
      var spike := Spike(v, SigmaTerm(adj, s, t)(v));
      forall u | u in nodes ensures ViaTerm(adj, s, t, v)(u) == columns(u) + spike(u) {
        if u != v && Pred(adj, s, u, t) { ViaByFirstStep(nodes, adj, s, u, v); }
        ViaColumn(nodes, adj, s, t, v, u);
      }
      SumAdd(nodes, columns, spike, ViaTerm(adj, s, t, v));
      SumSpike(nodes, v, SigmaTerm(adj, s, t)(v));
      ViaRows(nodes, adj, s, t, v);
      ViaByLastStep(nodes, adj, s, t, v);
    }
  }

  lemma ViaByFirstStepEnd(nodes: seq<Node>, adj: Adj, s: Node, t: Node, v: Node)
    requires t != v && (!Reach(adj, s, t) || t == s)
    ensures Via(adj, s, t, v) == Dot(nodes, ShareFrom(adj, s, v), ViaOf(adj, s, t))
  {
    SelfDist(adj, s);
    if t == s && Dist(adj, s, v) == 0 { ZeroDist(adj, s, v); }
    ViaNone(adj, s, t, v);
    forall w | w in nodes && ShareFrom(adj, s, v)(w) != 0.0 ensures ViaOf(adj, s, t)(w) == 0.0 {
      ViaNone(adj, s, t, w);
    }
    DotZero(nodes, ShareFrom(adj, s, v), ViaOf(adj, s, t));
  }

  // ----- dependency of a source on a node

  ghost function DependencyTerm(adj: Adj, s: Node, v: Node): Node -> real
  {
    t => if t == v || t == s then 0.0 else PairShare(adj, s, t, v)
  }

  /** Sum over all targets `t`, other than `s` and `v`, of the share of shortest s-t paths that visit `v`. */
  ghost function DependencyOf(nodes: seq<Node>, adj: Adj, s: Node, v: Node): real
  {
    Sum(nodes, DependencyTerm(adj, s, v))
  }

  ghost function OnePlus(nodes: seq<Node>, adj: Adj, s: Node): Node -> real
  {
    w => 1.0 + DependencyOf(nodes, adj, s, w)
  }

  ghost function PairShares(adj: Adj, s: Node): (Node, Node) -> real
  {
    (w, t) => PairShare(adj, s, t, w)
  }

  lemma PairShareNone(adj: Adj, s: Node, t: Node, v: Node)
    requires !Reach(adj, s, t) || !Reach(adj, s, v)
             || Dist(adj, s, v) > Dist(adj, s, t) || (Dist(adj, s, v) == Dist(adj, s, t) && v != t)
    ensures PairShare(adj, s, t, v) == 0.0
  {
    ViaNone(adj, s, t, v);
  }

  lemma DependencyColumn(nodes: seq<Node>, adj: Adj, s: Node, v: Node, t: Node)
    requires ClosedGraph(nodes, adj) && s in nodes && v in nodes
    ensures DotAcross(nodes, ShareFrom(adj, s, v), PairShares(adj, s))(t) == DependencyTerm(adj, s, v)(t)
  {
    var a, column := ShareFrom(adj, s, v), Across(PairShares(adj, s), t);
    SelfDist(adj, s);
    if t == v || t == s || !Reach(adj, s, t) {
      forall w | w in nodes && a(w) != 0.0 ensures column(w) == 0.0 {
        PairShareNone(adj, s, t, w);
      }
      DotZero(nodes, a, column);
    } else {
      ViaByFirstStep(nodes, adj, s, t, v);
      DotQuotient(nodes, a, ViaOf(adj, s, t), column, Sigma(adj, s, t));
    }
  }

  lemma DependencyRow(nodes: seq<Node>, adj: Adj, s: Node, w: Node)
    requires ClosedGraph(nodes, adj) && w in nodes && w != s && Reach(adj, s, w)
    ensures Row(nodes, PairShares(adj, s))(w) == OnePlus(nodes, adj, s)(w)
  {
    SelfDist(adj, s);
    if Dist(adj, s, w) == 0 { ZeroDist(adj, s, w); }
    PairShareNone(adj, s, s, w);
    ViaEnds(adj, s, w);
    assert PairShare(adj, s, w, w) == 1.0;
    var row, terms := At(PairShares(adj, s), w), DependencyTerm(adj, s, w);
    forall t ensures row(t) == PairShare(adj, s, t, w) {
      assert row(t) == PairShares(adj, s)(w, t);
    }
    SumUpdate(nodes, w, terms, row);
  }

  /** The recurrence that the back-propagation loop evaluates. */
  lemma DependencyRecurrence(nodes: seq<Node>, adj: Adj, s: Node, v: Node)
    requires ClosedGraph(nodes, adj) && s in nodes && v in nodes
    ensures DependencyOf(nodes, adj, s, v) == Dot(nodes, ShareFrom(adj, s, v), OnePlus(nodes, adj, s))
  {
    var a, pairs := ShareFrom(adj, s, v), PairShares(adj, s);
    forall t | t in nodes ensures DotAcross(nodes, a, pairs)(t) == DependencyTerm(adj, s, v)(t) {
      DependencyColumn(nodes, adj, s, v, t);
    }
    SumEq(nodes, DotAcross(nodes, a, pairs), DependencyTerm(adj, s, v));
    forall w | w in nodes && a(w) != 0.0 ensures Row(nodes, pairs)(w) == OnePlus(nodes, adj, s)(w) {
      SelfDist(adj, s);
      DependencyRow(nodes, adj, s, w);
    }
    DotEq(nodes, a, Row(nodes, pairs), OnePlus(nodes, adj, s));
    DotSwap(nodes, nodes, a, pairs);
  }

  lemma DependencyUnreached(nodes: seq<Node>, adj: Adj, s: Node, v: Node)
    requires !Reach(adj, s, v)
    ensures DependencyOf(nodes, adj, s, v) == 0.0
  {
    forall t | t in nodes ensures DependencyTerm(adj, s, v)(t) == 0.0 {
      PairShareNone(adj, s, t, v);
    }
    SumZero(nodes, DependencyTerm(adj, s, v));
  }

  // ----- betweenness, the reference

  ghost function CentralityTerm(nodes: seq<Node>, adj: Adj, v: Node): Node -> real
  {
    s => if s == v then 0.0 else DependencyOf(nodes, adj, s, v)
  }

  /**
   Betweenness by definition: half the sum, over all ordered pairs s, t distinct
   from v and from each other, of (shortest s-t paths through v) / (shortest s-t paths).
   */
  ghost function Centrality(nodes: seq<Node>, adj: Adj, v: Node): real
  {
    Sum(nodes, CentralityTerm(nodes, adj, v)) / 2.0
  }
}
