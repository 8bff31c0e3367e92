/**
 Directed graphs given as adjacency maps: walks, shortest-path distance, the
 set of shortest paths between two nodes, and path counts. Everything the
 betweenness algorithm computes is stated against these definitions.
 */
module Graph {
  import opened Sums

  type Node = string
  type Adj = map<Node, set<Node>>

  predicate Edge(adj: Adj, u: Node, w: Node)
  {
    u in adj && w in adj[u]
  }

  /** `nodes` lists each node once and every edge out of a listed node leads to a listed node. */
  ghost predicate ClosedGraph(nodes: seq<Node>, adj: Adj)
  {
    Distinct(nodes) && forall u, w :: u in nodes && Edge(adj, u, w) ==> w in nodes
  }

  ghost predicate IsWalk(adj: Adj, p: seq<Node>)
  {
    p != [] && forall i :: 0 <= i < |p| - 1 ==> Edge(adj, p[i], p[i + 1])
  }

  ghost predicate WalkBetween(adj: Adj, p: seq<Node>, s: Node, t: Node)
  {
    IsWalk(adj, p) && p[0] == s && p[|p| - 1] == t
  }

  /** All walks from `s` to `t` with `n` edges. */
  ghost function Walks(adj: Adj, s: Node, t: Node, n: nat): set<seq<Node>>
    decreases n
  {
    if n == 0 then (if s == t then {[s]} else {})
    else set u, p | u in adj.Keys && t in adj[u] && p in Walks(adj, s, u, n - 1) :: p + [t]
  }

  lemma {:induction false} WalksExact(adj: Adj, s: Node, t: Node, n: nat, p: seq<Node>)
    ensures p in Walks(adj, s, t, n) <==> |p| == n + 1 && WalkBetween(adj, p, s, t)
    decreases n
  {
    if n == 0 {
      if |p| == 1 { assert p == [p[0]]; }
    } else {
      if p in Walks(adj, s, t, n) {
        var u, q :| u in adj.Keys && t in adj[u] && q in Walks(adj, s, u, n - 1) && p == q + [t];
        WalksExact(adj, s, u, n - 1, q);
        forall i | 0 <= i < |p| - 1 ensures Edge(adj, p[i], p[i + 1]) {
          if i < |q| - 1 { assert Edge(adj, q[i], q[i + 1]); }
        }
      }
      if |p| == n + 1 && WalkBetween(adj, p, s, t) {
        var q := p[..n];
        assert p == q + [t];
        assert Edge(adj, p[n - 1], p[n - 1 + 1]);
        forall i | 0 <= i < |q| - 1 ensures Edge(adj, q[i], q[i + 1]) {
          assert Edge(adj, p[i], p[i + 1]);
        }
        WalksExact(adj, s, p[n - 1], n - 1, q);
      }
    }
  }

  ghost predicate Reach(adj: Adj, s: Node, t: Node)
  {
    exists n: nat :: Walks(adj, s, t, n) != {}
  }

  lemma ReachIffWalk(adj: Adj, s: Node, t: Node)
    ensures Reach(adj, s, t) <==> exists p :: WalkBetween(adj, p, s, t)
  {
    if Reach(adj, s, t) {
      var n: nat :| Walks(adj, s, t, n) != {};
      var p :| p in Walks(adj, s, t, n);
      WalksExact(adj, s, t, n, p);
      assert WalkBetween(adj, p, s, t);
    }
    if p :| WalkBetween(adj, p, s, t) {
      WalksExact(adj, s, t, |p| - 1, p);
    }
  }

  ghost predicate IsDist(adj: Adj, s: Node, t: Node, n: nat)
  {
    Walks(adj, s, t, n) != {} && forall m: nat :: m < n ==> Walks(adj, s, t, m) == {}
  }

  lemma {:induction false} LeastLength(adj: Adj, s: Node, t: Node, n: nat)
    requires Walks(adj, s, t, n) != {}
    ensures exists k: nat :: IsDist(adj, s, t, k)
  {
    if m: nat :| m < n && Walks(adj, s, t, m) != {} {
      LeastLength(adj, s, t, m);
    } else {
      assert IsDist(adj, s, t, n);
    }
  }

  /** Length of a shortest walk from `s` to `t`, or -1 when there is none. */
  ghost function Dist(adj: Adj, s: Node, t: Node): (d: int)
    ensures Reach(adj, s, t) ==> 0 <= d && IsDist(adj, s, t, d)
    ensures !Reach(adj, s, t) ==> d == -1
  {
    if Reach(adj, s, t) then
      assert exists k: nat :: IsDist(adj, s, t, k) by {
        var n: nat :| Walks(adj, s, t, n) != {};
        LeastLength(adj, s, t, n);
      }
      var k: nat :| IsDist(adj, s, t, k);
      k
    else -1
  }

  ghost function ShortestPaths(adj: Adj, s: Node, t: Node): set<seq<Node>>
  {
    if Reach(adj, s, t) then Walks(adj, s, t, Dist(adj, s, t)) else {}
  }

  lemma ShortestPathLength(adj: Adj, s: Node, t: Node, p: seq<Node>)
    requires p in ShortestPaths(adj, s, t)
    ensures WalkBetween(adj, p, s, t) && |p| == Dist(adj, s, t) + 1
  {
    WalksExact(adj, s, t, Dist(adj, s, t), p);
  }

  lemma WalkLength(adj: Adj, s: Node, t: Node, q: seq<Node>)
    requires WalkBetween(adj, q, s, t)
    ensures Reach(adj, s, t) && Dist(adj, s, t) + 1 <= |q|
    ensures |q| == Dist(adj, s, t) + 1 ==> q in ShortestPaths(adj, s, t)
  {
    WalksExact(adj, s, t, |q| - 1, q);
  }

  ghost predicate IsShortest(adj: Adj, s: Node, t: Node, p: seq<Node>)
  {
    WalkBetween(adj, p, s, t) && forall q :: WalkBetween(adj, q, s, t) ==> |p| <= |q|
  }

  /** `ShortestPaths` is what its name says: the walks between its ends that no such walk undercuts. */
  lemma ShortestPathsExact(adj: Adj, s: Node, t: Node, p: seq<Node>)
    ensures p in ShortestPaths(adj, s, t) <==> IsShortest(adj, s, t, p)
  {
    if p in ShortestPaths(adj, s, t) {
      ShortestPathLength(adj, s, t, p);
      forall q | WalkBetween(adj, q, s, t) ensures |p| <= |q| {
        WalkLength(adj, s, t, q);
      }
    } else if IsShortest(adj, s, t, p) {
      WalkLength(adj, s, t, p);
      var q :| q in ShortestPaths(adj, s, t);
      ShortestPathLength(adj, s, t, q);
    }
  }

  /** Number of shortest paths from `s` to `t`. */
  ghost function Sigma(adj: Adj, s: Node, t: Node): (r: real)
    ensures Reach(adj, s, t) ==> r >= 1.0
    ensures !Reach(adj, s, t) ==> r == 0.0
  {
    |ShortestPaths(adj, s, t)| as real
  }

  ghost function PathsVia(adj: Adj, s: Node, t: Node, v: Node): set<seq<Node>>
  {
    set p | p in ShortestPaths(adj, s, t) && v in p
  }

  /** Number of shortest paths from `s` to `t` that visit `v`, the ends included. */
  ghost function Via(adj: Adj, s: Node, t: Node, v: Node): real
  {
    |PathsVia(adj, s, t, v)| as real
  }

  /** The share of the shortest paths from `s` to `t` that visit `v`. */
  ghost function PairShare(adj: Adj, s: Node, t: Node, v: Node): real
  {
    if Reach(adj, s, t) then Via(adj, s, t, v) / Sigma(adj, s, t) else 0.0
  }

  /** `u` is the last stop before `t` on some shortest path from `s`. */
  ghost predicate Pred(adj: Adj, s: Node, u: Node, t: Node)
  {
    Reach(adj, s, u) && Edge(adj, u, t) && Dist(adj, s, t) == Dist(adj, s, u) + 1
  }

  // ----- distances

  lemma SelfDist(adj: Adj, s: Node)
    ensures Reach(adj, s, s) && Dist(adj, s, s) == 0
    ensures ShortestPaths(adj, s, s) == {[s]} && Sigma(adj, s, s) == 1.0
  {
    assert Walks(adj, s, s, 0) == {[s]};
  }

  lemma ZeroDist(adj: Adj, s: Node, t: Node)
    requires Dist(adj, s, t) == 0
    ensures s == t
  {
    assert Walks(adj, s, t, 0) != {};
  }

  lemma EdgeDist(adj: Adj, s: Node, u: Node, t: Node)
    requires Reach(adj, s, u) && Edge(adj, u, t)
    ensures Reach(adj, s, t) && Dist(adj, s, t) <= Dist(adj, s, u) + 1
  {
    var d := Dist(adj, s, u);
    var p :| p in Walks(adj, s, u, d);
    assert p + [t] in Walks(adj, s, t, d + 1);
  }

  lemma LastStep(adj: Adj, s: Node, t: Node) returns (u: Node)
    requires Reach(adj, s, t) && t != s
    ensures Pred(adj, s, u, t)
  {
    var d := Dist(adj, s, t);
    assert d != 0 by { if d == 0 { ZeroDist(adj, s, t); } }
    var p :| p in Walks(adj, s, t, d);
    var q;
    u, q :| u in adj.Keys && t in adj[u] && q in Walks(adj, s, u, d - 1) && p == q + [t];
    EdgeDist(adj, s, u, t);
  }

  lemma OneAway(adj: Adj, s: Node, t: Node)
    ensures Dist(adj, s, t) == 1 <==> s != t && Edge(adj, s, t)
  {
    SelfDist(adj, s);
    if s != t && Edge(adj, s, t) {
      EdgeDist(adj, s, s, t);
      if Dist(adj, s, t) == 0 { ZeroDist(adj, s, t); }
    }
    if Dist(adj, s, t) == 1 {
      var u := LastStep(adj, s, t);
      ZeroDist(adj, s, u);
    }
  }

  /** Distance two: a way over some node, and no shorter one. */
  lemma TwoAway(adj: Adj, s: Node, t: Node)
    ensures Dist(adj, s, t) == 2 <==> s != t && !Edge(adj, s, t) && exists n :: Edge(adj, s, n) && Edge(adj, n, t)
  {
    SelfDist(adj, s);
    OneAway(adj, s, t);
    if s != t && !Edge(adj, s, t) {
      if n :| Edge(adj, s, n) && Edge(adj, n, t) {
        EdgeDist(adj, s, s, n);
        EdgeDist(adj, s, n, t);
        if Dist(adj, s, t) == 0 { ZeroDist(adj, s, t); }
      }
    }
    if Dist(adj, s, t) == 2 {
      var u := LastStep(adj, s, t);
      OneAway(adj, s, u);
      assert Edge(adj, s, u) && Edge(adj, u, t);
    }
  }

  lemma {:induction false} WalksStayInside(nodes: seq<Node>, adj: Adj, s: Node, t: Node, n: nat)
    requires ClosedGraph(nodes, adj) && s in nodes && Walks(adj, s, t, n) != {}
    ensures t in nodes
    decreases n
  {
    if n > 0 {
      var p :| p in Walks(adj, s, t, n);
      var u, q :| u in adj.Keys && t in adj[u] && q in Walks(adj, s, u, n - 1) && p == q + [t];
      WalksStayInside(nodes, adj, s, u, n - 1);
      assert Edge(adj, u, t);
    }
  }

  lemma ReachStaysInside(nodes: seq<Node>, adj: Adj, s: Node, t: Node)
    requires ClosedGraph(nodes, adj) && s in nodes && Reach(adj, s, t)
    ensures t in nodes
  {
    WalksStayInside(nodes, adj, s, t, Dist(adj, s, t));
  }

  // ----- where a node can lie on a shortest path

  /** A shortest path visits `v` no earlier than at index Dist(s, v), and only at its end when the distances agree. */
  lemma VisitDist(adj: Adj, s: Node, t: Node, v: Node, p: seq<Node>)
    requires p in ShortestPaths(adj, s, t) && v in p
    ensures Reach(adj, s, v) && 0 <= Dist(adj, s, v) <= Dist(adj, s, t)
    ensures Dist(adj, s, v) == Dist(adj, s, t) ==> v == t
  {
    var d := Dist(adj, s, t);
    WalksExact(adj, s, t, d, p);
    var i :| 0 <= i < |p| && p[i] == v;
    var q := p[..i + 1];
    forall j | 0 <= j < |q| - 1 ensures Edge(adj, q[j], q[j + 1]) {
      assert Edge(adj, p[j], p[j + 1]);
    }
    WalksExact(adj, s, v, i, q);
  }

  lemma ViaNone(adj: Adj, s: Node, t: Node, v: Node)
    requires !Reach(adj, s, t) || !Reach(adj, s, v)
             || Dist(adj, s, v) > Dist(adj, s, t) || (Dist(adj, s, v) == Dist(adj, s, t) && v != t)
    ensures Via(adj, s, t, v) == 0.0
  {
    forall p | p in PathsVia(adj, s, t, v) ensures false {
      VisitDist(adj, s, t, v, p);
    }
    assert PathsVia(adj, s, t, v) == {};
  }

  lemma ViaEnds(adj: Adj, s: Node, t: Node)
    ensures Via(adj, s, t, t) == Sigma(adj, s, t)
    ensures Via(adj, s, t, s) == Sigma(adj, s, t)
  {
    forall p | p in ShortestPaths(adj, s, t) ensures s in p && t in p {
      WalksExact(adj, s, t, Dist(adj, s, t), p);
      assert p[0] == s && p[|p| - 1] == t;
    }
    assert PathsVia(adj, s, t, t) == ShortestPaths(adj, s, t);
    assert PathsVia(adj, s, t, s) == ShortestPaths(adj, s, t);
  }

  // ----- counting by last step

  /** Shortest paths to `t` visiting `v` whose last stop is listed in `us`. */
  ghost function Extended(adj: Adj, us: seq<Node>, s: Node, t: Node, v: Node): set<seq<Node>>
  {
    set u, p | u in us && Pred(adj, s, u, t) && p in PathsVia(adj, s, u, v) :: p + [t]
  }

  ghost function ViaTerm(adj: Adj, s: Node, t: Node, v: Node): Node -> real
  {
    u => if Pred(adj, s, u, t) then Via(adj, s, u, v) else 0.0
  }

  lemma AppendKeepsSize(ps: set<seq<Node>>, t: Node)
    ensures |set p | p in ps :: p + [t]| == |ps|
  {
    if ps != {} {
      var q :| q in ps;
      var rest := ps - {q};
      AppendKeepsSize(rest, t);
      assert forall p: seq<Node> :: (p + [t])[..|p|] == p;
      assert q + [t] !in set p | p in rest :: p + [t];
      assert (set p | p in ps :: p + [t]) == (set p | p in rest :: p + [t]) + {q + [t]};
    }
  }

  lemma SecondToLast(adj: Adj, s: Node, u: Node, p: seq<Node>, t: Node)
    requires p in ShortestPaths(adj, s, u)
    ensures |p| > 0 && (p + [t])[|p + [t]| - 2] == u
  {
    ShortestPathLength(adj, s, u, p);
  }

  /** The part of `Extended` whose last stop is `u`. */
  ghost function ExtendedFrom(adj: Adj, u: Node, s: Node, t: Node, v: Node): set<seq<Node>>
  {
    if Pred(adj, s, u, t) then set p | p in PathsVia(adj, s, u, v) :: p + [t] else {}
  }

  lemma ExtendedApart(adj: Adj, u: Node, rest: seq<Node>, s: Node, t: Node, v: Node)
    requires u !in rest
    ensures ExtendedFrom(adj, u, s, t, v) !! Extended(adj, rest, s, t, v)
  {
    forall x | x in ExtendedFrom(adj, u, s, t, v) ensures x !in Extended(adj, rest, s, t, v) {
      var p :| p in PathsVia(adj, s, u, v) && x == p + [t];
      SecondToLast(adj, s, u, p, t);
      forall u', p' | u' in rest && p' in PathsVia(adj, s, u', v) ensures p' + [t] != x {
        SecondToLast(adj, s, u', p', t);
      }
    }
  }

  lemma ExtendedSplit(adj: Adj, us: seq<Node>, s: Node, t: Node, v: Node)
    requires us != []
    ensures Extended(adj, us, s, t, v) == ExtendedFrom(adj, us[0], s, t, v) + Extended(adj, us[1..], s, t, v)
  {
    forall x | x in Extended(adj, us, s, t, v)
      ensures x in ExtendedFrom(adj, us[0], s, t, v) + Extended(adj, us[1..], s, t, v)
    {
      var u, p :| u in us && Pred(adj, s, u, t) && p in PathsVia(adj, s, u, v) && x == p + [t];
      assert u == us[0] || u in us[1..];
    }
  }

  lemma {:induction false} ExtendedSize(adj: Adj, us: seq<Node>, s: Node, t: Node, v: Node)
    requires Distinct(us)
    ensures |Extended(adj, us, s, t, v)| as real == Sum(us, ViaTerm(adj, s, t, v))
  {
    if us != [] {
      ExtendedSize(adj, us[1..], s, t, v);
      ExtendedSplit(adj, us, s, t, v);
      ExtendedApart(adj, us[0], us[1..], s, t, v);
      AppendKeepsSize(PathsVia(adj, s, us[0], v), t);
    }
  }

  lemma AddLast(adj: Adj, s: Node, t: Node, u: Node, p: seq<Node>)
    requires Pred(adj, s, u, t) && p in ShortestPaths(adj, s, u)
    ensures p + [t] in ShortestPaths(adj, s, t)
  {
    EdgeDist(adj, s, u, t);
    assert p + [t] in Walks(adj, s, t, Dist(adj, s, t));
  }

  lemma DropLast(nodes: seq<Node>, adj: Adj, s: Node, t: Node, x: seq<Node>) returns (u: Node, p: seq<Node>)
    requires ClosedGraph(nodes, adj) && s in nodes && t != s && x in ShortestPaths(adj, s, t)
    ensures u in nodes && Pred(adj, s, u, t) && p in ShortestPaths(adj, s, u) && x == p + [t]
  {
    var d := Dist(adj, s, t);
    assert d != 0 by { if d == 0 { ZeroDist(adj, s, t); } }
    u, p :| u in adj.Keys && t in adj[u] && p in Walks(adj, s, u, d - 1) && x == p + [t];
    EdgeDist(adj, s, u, t);
    ReachStaysInside(nodes, adj, s, u);
  }

  lemma ExtendedAll(nodes: seq<Node>, adj: Adj, s: Node, t: Node, v: Node)
    requires ClosedGraph(nodes, adj) && s in nodes && Reach(adj, s, t) && t != s && t != v
    ensures Extended(adj, nodes, s, t, v) == PathsVia(adj, s, t, v)
  {
    hide Pred, ShortestPaths, Reach, ClosedGraph;
    forall x | x in Extended(adj, nodes, s, t, v) ensures x in PathsVia(adj, s, t, v) {
      var u, p :| u in nodes && Pred(adj, s, u, t) && p in PathsVia(adj, s, u, v) && x == p + [t];
      AddLast(adj, s, t, u, p);
    }
    forall x | x in PathsVia(adj, s, t, v) ensures x in Extended(adj, nodes, s, t, v) {
      var u, p := DropLast(nodes, adj, s, t, x);
      assert v in p;
    }
  }

  /** A shortest path to `t` through `v` is a shortest path through `v` to a last stop, plus one edge. */
  lemma ViaByLastStep(nodes: seq<Node>, adj: Adj, s: Node, t: Node, v: Node)
    requires ClosedGraph(nodes, adj) && s in nodes && Reach(adj, s, t) && t != s && t != v
    ensures Via(adj, s, t, v) == Sum(nodes, ViaTerm(adj, s, t, v))
  {
    ExtendedAll(nodes, adj, s, t, v);
    ExtendedSize(adj, nodes, s, t, v);
  }

  ghost function SigmaTerm(adj: Adj, s: Node, t: Node): Node -> real
  {
    u => if Pred(adj, s, u, t) then Sigma(adj, s, u) else 0.0
  }

  lemma SigmaByLastStep(nodes: seq<Node>, adj: Adj, s: Node, t: Node)
    requires ClosedGraph(nodes, adj) && s in nodes && Reach(adj, s, t) && t != s
    ensures Sigma(adj, s, t) == Sum(nodes, SigmaTerm(adj, s, t))
  {
    ViaEnds(adj, s, t);
    ViaByLastStep(nodes, adj, s, t, s);
    forall u | u in nodes ensures ViaTerm(adj, s, t, s)(u) == SigmaTerm(adj, s, t)(u) {
      ViaEnds(adj, s, u);
    }
    SumEq(nodes, ViaTerm(adj, s, t, s), SigmaTerm(adj, s, t));
  }
}
