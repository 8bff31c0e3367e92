/**
 Topology analysis of the swarm: the peer graph built from announcements, its
 components, and the peer suggestions sent to weakly connected nodes.
 */
module Topology {
  import opened Wrappers
  import opened Sums
  import opened Graph
  import opened Dependency
  import opened Conservation
  import opened ForwardPass
  import opened Betweenness
  import opened Components
  import opened Ranking

  /** The part of an announced peer state that the analysis reads. */
  datatype Peer = Peer(nodeId: Node, stale: bool, neighbors: seq<Node>)

  datatype Reason = IsolatedClique | LowConnectivity

  datatype Suggestion = Suggestion(target: Node, peers: seq<Node>, reason: Reason, score: real)

  // ----- the graph of active peers

  function ActiveIds(peers: seq<Peer>): set<Node>
  {
    set p | p in peers && !p.stale :: p.nodeId
  }

  /** Some active announcement of `u` names `w` as a neighbour. */
  ghost predicate Announces(peers: seq<Peer>, u: Node, w: Node)
  {
    exists p :: p in peers && !p.stale && p.nodeId == u && w in p.neighbors
  }

  /** `adj` joins two active nodes exactly when one of them announced the other. */
  ghost predicate PeerGraph(peers: seq<Peer>, active: set<Node>, adj: Adj)
  {
    && adj.Keys <= active
    && (forall p :: p in peers && !p.stale ==> p.nodeId in adj)
    && (forall u, w :: Edge(adj, u, w) <==>
          u in active && w in active && (Announces(peers, u, w) || Announces(peers, w, u)))
  }

  function Neighbors(adj: Adj, v: Node): set<Node>
  {
    if v in adj then adj[v] else {}
  }

  lemma AddEdge(adj: Adj, n: Node, xs: set<Node>)
    ensures forall u, w :: Edge(adj[n := Neighbors(adj, n) + xs], u, w) <==> Edge(adj, u, w) || (u == n && w in xs)
  {
    var more := adj[n := Neighbors(adj, n) + xs];
    forall u, w ensures Edge(more, u, w) <==> Edge(adj, u, w) || (u == n && w in xs) {
      if u == n {
        assert more[u] == Neighbors(adj, n) + xs;
      } else if u in adj {
        assert more[u] == adj[u];
      }
    }
  }

  /** Adds the edges back to `id` from each of its neighbours. */
  method LinkBack(adj: Adj, id: Node, neighbors: set<Node>) returns (adj': Adj)
    ensures adj'.Keys == adj.Keys + neighbors
    ensures forall u, w :: Edge(adj', u, w) <==> Edge(adj, u, w) || (u in neighbors && w == id)
  {
    adj' := adj;
    var rest := neighbors;
    while rest != {}
      invariant rest <= neighbors && adj'.Keys == adj.Keys + (neighbors - rest)
      invariant forall u, w :: Edge(adj', u, w) <==> Edge(adj, u, w) || (u in neighbors - rest && w == id)
      decreases rest
    {
      var n :| n in rest;
      AddEdge(adj', n, {id});
      ghost var before, done := adj', neighbors - rest;
      adj' := adj'[n := Neighbors(adj', n) + {id}];
      rest := rest - {n};
      assert neighbors - rest == done + {n};
      forall u, w ensures Edge(adj', u, w) <==> Edge(adj, u, w) || (u in neighbors - rest && w == id) {
        assert Edge(adj', u, w) <==> Edge(before, u, w) || (u == n && w in {id});
        assert Edge(before, u, w) <==> Edge(adj, u, w) || (u in done && w == id);
      }
    }
  }

  lemma AnnounceMore(peers: seq<Peer>, peer: Peer, u: Node, w: Node)
    ensures Announces(peers + [peer], u, w) <==>
            Announces(peers, u, w) || (!peer.stale && peer.nodeId == u && w in peer.neighbors)
  {
    if !peer.stale && peer.nodeId == u && w in peer.neighbors {
      assert peer in peers + [peer];
    }
    if p :| p in peers && !p.stale && p.nodeId == u && w in p.neighbors {
      assert p in peers + [peer];
    }
  }

  lemma PeerGraphStale(peers: seq<Peer>, peer: Peer, active: set<Node>, adj: Adj)
    requires PeerGraph(peers, active, adj) && peer.stale
    ensures PeerGraph(peers + [peer], active, adj)
  {
    forall u, w ensures Announces(peers + [peer], u, w) <==> Announces(peers, u, w) {
      AnnounceMore(peers, peer, u, w);
    }
  }

  lemma PeerGraphStep(peers: seq<Peer>, peer: Peer, active: set<Node>, adj: Adj, neighbors: set<Node>, linked: Adj)
    requires PeerGraph(peers, active, adj) && !peer.stale && peer.nodeId in active
    requires neighbors == set n | n in peer.neighbors && n in active
    requires linked.Keys == adj.Keys + neighbors
    requires forall u, w :: Edge(linked, u, w) <==> Edge(adj, u, w) || (u in neighbors && w == peer.nodeId)
    ensures PeerGraph(peers + [peer], active, linked[peer.nodeId := Neighbors(linked, peer.nodeId) + neighbors])
  {
    hide Announces;
    var id, more := peer.nodeId, peers + [peer];
    var adj' := linked[id := Neighbors(linked, id) + neighbors];
    AddEdge(linked, id, neighbors);
    forall u, w
      ensures Edge(adj', u, w) <==> u in active && w in active && (Announces(more, u, w) || Announces(more, w, u))
    {
      AnnounceMore(peers, peer, u, w);
      AnnounceMore(peers, peer, w, u);
    }
  }

  method BuildGraph(peers: seq<Peer>) returns (active: set<Node>, adj: Adj)
    ensures active == ActiveIds(peers) && PeerGraph(peers, active, adj)
  {
    hide PeerGraph;
    active := ActiveIds(peers);
    adj := map[];
    assert peers[..0] == [];
    NoPeers(active);
    for i := 0 to |peers|
      invariant PeerGraph(peers[..i], active, adj)
    {
      var peer := peers[i];
      assert peers[..i + 1] == peers[..i] + [peer];
      if peer.stale {
        PeerGraphStale(peers[..i], peer, active, adj);
      } else {
        var id := peer.nodeId;
        assert peer in peers;
        var neighbors := set n | n in peer.neighbors && n in active;
        var linked := LinkBack(adj, id, neighbors);
        PeerGraphStep(peers[..i], peer, active, adj, neighbors, linked);
        adj := linked[id := Neighbors(linked, id) + neighbors];
      }
    }
    assert peers[..|peers|] == peers;
  }

  lemma NoPeers(active: set<Node>)
    ensures PeerGraph([], active, map[])
  {
  }

  lemma PeerGraphShape(peers: seq<Peer>, active: set<Node>, adj: Adj, nodes: seq<Node>)
    requires PeerGraph(peers, active, adj) && Distinct(nodes) && NodeSet(nodes) == active
    ensures ClosedGraph(nodes, adj) && Symmetric(adj)
  {
    forall u, w | u in nodes && Edge(adj, u, w) ensures w in nodes {
      assert w in NodeSet(nodes);
    }
  }

  // ----- the largest component

  /** The last index of a component of maximal size. */
  method LargestIndex(components: seq<seq<Node>>) returns (idx: nat)
    requires components != []
    ensures idx < |components|
    ensures forall i :: 0 <= i < |components| ==> |components[i]| <= |components[idx]|
    ensures forall i :: idx < i < |components| ==> |components[i]| < |components[idx]|
  {
    idx := 0;
    for k := 1 to |components|
      invariant idx < k
      invariant forall i :: 0 <= i < k ==> |components[i]| <= |components[idx]|
      invariant forall i :: idx < i < k ==> |components[i]| < |components[idx]|
    {
      if |components[k]| >= |components[idx]| {
        idx := k;
      }
    }
  }

  // ----- isolation measures of a node with at least two neighbours

  /** The unordered pairs of distinct neighbours that are joined by an edge. */
  ghost function JoinedPairs(adj: Adj, ns: set<Node>): set<set<Node>>
  {
    set u, w | u in ns && w in ns && u != w && Edge(adj, u, w) :: {u, w}
  }

  /** Nodes two hops away: neighbours of neighbours that are neither the node nor its neighbours. */
  ghost function TwoHops(adj: Adj, v: Node): set<Node>
  {
    set n, x | n in Neighbors(adj, v) && x in Neighbors(adj, n) && x != v && x !in Neighbors(adj, v) :: x
  }

  /** The pairs {list[a], list[b]} with a < i, or a == i and b < j, a < b, that are joined by an edge. */
  ghost predicate FoundPairs(adj: Adj, list: seq<Node>, i: nat, j: nat, found: set<set<Node>>)
  {
    forall q :: q in found <==>
      exists a, b :: 0 <= a < b < |list| && (a < i || (a == i && b < j)) && Edge(adj, list[a], list[b]) && q == {list[a], list[b]}
  }

  lemma FoundOne(adj: Adj, list: seq<Node>, i: nat, j: nat, found: set<set<Node>>)
    requires Distinct(list) && i < j < |list| && FoundPairs(adj, list, i, j, found)
    ensures {list[i], list[j]} !in found
    ensures FoundPairs(adj, list, i, j + 1, if Edge(adj, list[i], list[j]) then found + {{list[i], list[j]}} else found)
  {
    var pair := {list[i], list[j]};
    forall a, b | 0 <= a < b < |list| && (a < i || (a == i && b < j)) ensures {list[a], list[b]} != pair {
      if a < i {
        assert list[a] !in pair;
      } else {
        assert list[b] !in pair;
      }
    }
    var found' := if Edge(adj, list[i], list[j]) then found + {pair} else found;
    forall q ensures q in found' <==>
        exists a, b :: 0 <= a < b < |list| && (a < i || (a == i && b < j + 1)) && Edge(adj, list[a], list[b]) && q == {list[a], list[b]}
    {
      if q in found {
        var a, b :| 0 <= a < b < |list| && (a < i || (a == i && b < j)) && Edge(adj, list[a], list[b]) && q == {list[a], list[b]};
        assert a < i || (a == i && b < j + 1);
      }
    }
  }

  lemma FoundAll(adj: Adj, list: seq<Node>, ns: set<Node>, found: set<set<Node>>)
    requires Symmetric(adj) && NodeSet(list) == ns && Distinct(list) && FoundPairs(adj, list, |list|, 0, found)
    ensures found == JoinedPairs(adj, ns)
  {
    forall q | q in found ensures q in JoinedPairs(adj, ns) {
      var a, b :| 0 <= a < b < |list| && Edge(adj, list[a], list[b]) && q == {list[a], list[b]};
      assert list[a] in NodeSet(list) && list[b] in NodeSet(list);
    }
    forall q | q in JoinedPairs(adj, ns) ensures q in found {
      var u, w :| u in ns && w in ns && u != w && Edge(adj, u, w) && q == {u, w};
      assert u in NodeSet(list) && w in NodeSet(list);
      var a :| 0 <= a < |list| && list[a] == u;
      var b :| 0 <= b < |list| && list[b] == w;
      if a < b {
        assert q == {list[a], list[b]};
      } else {
        assert Edge(adj, list[b], list[a]) && q == {list[b], list[a]};
      }
    }
  }

  lemma FoundNextRow(adj: Adj, list: seq<Node>, i: nat, found: set<set<Node>>)
    requires i < |list|
    ensures FoundPairs(adj, list, i, |list|, found) ==> FoundPairs(adj, list, i + 1, 0, found)
    ensures FoundPairs(adj, list, i, 0, found) ==> FoundPairs(adj, list, i, i + 1, found)
  {
  }

  /** Twice the number of pairs whose first position is below `i`. */
  ghost function RowCap(n: int, i: int): int
  {
    i * (2 * n - i - 1)
  }

  lemma RowCapStep(n: int, i: int)
    ensures RowCap(n, 0) == 0 && RowCap(n, n) == n * (n - 1)
    ensures RowCap(n, i) + 2 * (n - i - 1) == RowCap(n, i + 1)
  {
  }

  /** Counts the edges among the neighbours by a double loop over an arbitrary listing of them. */
  method CountJoinedPairs(adj: Adj, ns: set<Node>) returns (edges: nat)
    requires Symmetric(adj)
    ensures edges == |JoinedPairs(adj, ns)|
    ensures 2 * edges <= |ns| * (|ns| - 1)
  {
    hide FoundPairs, RowCap, Symmetric, JoinedPairs;
    var list := Listed(ns);
    var n := |list|;
    edges := 0;
    ghost var found: set<set<Node>> := {};
    var i := 0;
    RowCapStep(n, 0);
    NothingFound(adj, list);
    while i < n
      invariant 0 <= i <= n
      invariant FoundPairs(adj, list, i, 0, found) && edges == |found|
      invariant 2 * edges <= RowCap(n, i)
    {
      FoundNextRow(adj, list, i, found);
      var j := i + 1;
      while j < n
        invariant i + 1 <= j <= n
        invariant FoundPairs(adj, list, i, j, found) && edges == |found|
        invariant 2 * edges <= RowCap(n, i) + 2 * (j - i - 1)
      {
        FoundOne(adj, list, i, j, found);
        if list[j] in Neighbors(adj, list[i]) {
          edges := edges + 1;
          found := found + {{list[i], list[j]}};
        }
        j := j + 1;
      }
      FoundNextRow(adj, list, i, found);
      RowCapStep(n, i);
      i := i + 1;
    }
    FoundAll(adj, list, ns, found);
  }

  lemma NothingFound(adj: Adj, list: seq<Node>)
    ensures FoundPairs(adj, list, 0, 0, {})
  {
  }

  /** Collects the two-hop nodes neighbour by neighbour. */
  method CollectTwoHops(adj: Adj, v: Node) returns (hops: set<Node>)
    ensures hops == TwoHops(adj, v)
    ensures forall x :: x in hops <==> Dist(adj, v, x) == 2
  {
    hops := {};
    var ns := Neighbors(adj, v);
    var rest := ns;
    while rest != {}
      invariant rest <= ns
      invariant forall x :: x in hops <==> x != v && x !in ns && exists n :: n in ns && n !in rest && x in Neighbors(adj, n)
      decreases rest
    {
      var n :| n in rest;
      hops := hops + set x | x in Neighbors(adj, n) && x != v && x !in ns;
      rest := rest - {n};
    }
    forall x ensures x in TwoHops(adj, v) <==> Dist(adj, v, x) == 2 {
      TwoHopsIsDistanceTwo(adj, v, x);
    }
  }

  /** The nodes two hops away are those at distance two. */
  lemma TwoHopsIsDistanceTwo(adj: Adj, v: Node, x: Node)
    ensures x in TwoHops(adj, v) <==> Dist(adj, v, x) == 2
  {
    TwoAway(adj, v, x);
    hide Dist;
    if x in TwoHops(adj, v) {
      var n :| n in Neighbors(adj, v) && x in Neighbors(adj, n) && x != v && x !in Neighbors(adj, v);
      assert Edge(adj, v, n) && Edge(adj, n, x);
    }
    if n :| Edge(adj, v, n) && Edge(adj, n, x) {
      assert n in Neighbors(adj, v) && x in Neighbors(adj, n);
    }
  }

  ghost function Density(adj: Adj, ns: set<Node>): real
    requires |ns| >= 2
  {
    assert |ns| * (|ns| - 1) > 0;
    |JoinedPairs(adj, ns)| as real / (|ns| * (|ns| - 1) / 2) as real
  }

  ghost function Reachable2(adj: Adj, total: nat, v: Node): real
  {
    if total > 1 then |TwoHops(adj, v)| as real / (total - 1) as real else 0.0
  }

  lemma ScoreRange(density: real, reach: real)
    requires 0.0 <= density <= 1.0 && 0.0 <= reach <= 1.0
    ensures 0.0 <= density * (1.0 - reach) <= 1.0
  {
    var r := 1.0 - reach;
    assert 0.0 <= density * r <= 1.0 * r;
  }

  lemma Quotient(a: nat, b: nat)
    requires a <= b && b > 0
    ensures 0.0 <= a as real / b as real <= 1.0
  {
  }

  method Measure(nodes: seq<Node>, adj: Adj, v: Node) returns (density: real, reach: real)
    requires ClosedGraph(nodes, adj) && Symmetric(adj) && v in nodes && |Neighbors(adj, v)| >= 2
    ensures density == Density(adj, Neighbors(adj, v)) && reach == Reachable2(adj, |nodes|, v)
    ensures 0.0 <= density <= 1.0 && 0.0 <= reach <= 1.0
  {
    var ns := Neighbors(adj, v);
    var edges := CountJoinedPairs(adj, ns);
    var maxEdges := |ns| * (|ns| - 1) / 2;
    assert |ns| * (|ns| - 1) >= 2;
    assert edges <= maxEdges;
    Quotient(edges, maxEdges);
    density := edges as real / maxEdges as real;
    var hops := CollectTwoHops(adj, v);
    TwoHopsFit(nodes, adj, v);
    if |nodes| > 1 {
      Quotient(|hops|, |nodes| - 1);
      reach := |hops| as real / (|nodes| - 1) as real;
    } else {
      reach := 0.0;
    }
  }

  lemma TwoHopsFit(nodes: seq<Node>, adj: Adj, v: Node)
    requires ClosedGraph(nodes, adj) && v in nodes
    ensures |TwoHops(adj, v)| <= |nodes| - 1
  {
    forall x | x in TwoHops(adj, v) ensures x in NodeSet(nodes) - {v} {
      var n :| n in Neighbors(adj, v) && x in Neighbors(adj, n);
      assert Edge(adj, v, n) && Edge(adj, n, x);
    }
    SetSize(nodes);
    SubsetSize(TwoHops(adj, v), NodeSet(nodes) - {v});
  }

  // ----- what the analysis says about each node

  /** The mapped swarm: active nodes, peer graph, betweenness, components and the index of the largest one. */
  datatype Swarm = Swarm(nodes: seq<Node>, adj: Adj, betweenness: map<Node, real>,
                         components: seq<seq<Node>>, largest: nat)

  datatype Analysis = Analysis(swarm: Swarm, suggestions: seq<Suggestion>, ranking: seq<Entry>)

  ghost predicate InMain(m: Swarm, v: Node)
  {
    m.largest < |m.components| && v in m.components[m.largest]
  }

  ghost predicate Cliquish(m: Swarm, v: Node)
  {
    |Neighbors(m.adj, v)| >= 2
    && Density(m.adj, Neighbors(m.adj, v)) > 0.8 && Reachable2(m.adj, |m.nodes|, v) < 0.3
  }

  /** Nodes outside the largest component, poorly connected ones, and members of an inward-looking clique. */
  ghost predicate Needy(m: Swarm, v: Node)
  {
    !InMain(m, v) || |Neighbors(m.adj, v)| < 2 || Cliquish(m, v)
  }

  ghost function Elsewhere(m: Swarm, v: Node): set<Node>
  {
    m.betweenness.Keys - (Neighbors(m.adj, v) + {v})
  }

  ghost function MainNodes(m: Swarm): set<Node>
  {
    set v | v in m.nodes && InMain(m, v)
  }

  /** `g` is what a needy node is told. */
  ghost predicate Advice(m: Swarm, g: Suggestion)
  {
    var v := g.target;
    v in m.nodes &&
    if !InMain(m, v) then
      g.reason == IsolatedClique && g.score == 1.0 && IsTop(m.betweenness, MainNodes(m), 3, g.peers)
    else if |Neighbors(m.adj, v)| < 2 then
      g.reason == LowConnectivity && g.score == (if |Neighbors(m.adj, v)| == 0 then 1.0 else 0.5)
      && IsTop(m.betweenness, Elsewhere(m, v), 3, g.peers)
    else
      && Cliquish(m, v) && g.reason == IsolatedClique
      && g.score == Density(m.adj, Neighbors(m.adj, v)) * (1.0 - Reachable2(m.adj, |m.nodes|, v))
      && 0.0 <= g.score <= 1.0
      && IsTop(m.betweenness, Elsewhere(m, v), 3, g.peers)
  }

  function Isolation(g: Suggestion): real
  {
    g.score
  }

  ghost predicate LargestFound(m: Swarm)
  {
    && m.largest < |m.components|
    && forall i :: 0 <= i < |m.components| ==> |m.components[i]| <= |m.components[m.largest]|
  }

  ghost predicate Mapped(peers: seq<Peer>, m: Swarm)
  {
    && NodeSet(m.nodes) == ActiveIds(peers) && PeerGraph(peers, ActiveIds(peers), m.adj)
    && ClosedGraph(m.nodes, m.adj) && Symmetric(m.adj)
    && m.betweenness.Keys == NodeSet(m.nodes)
    && (forall v :: v in m.nodes ==> m.betweenness[v] == Centrality(m.nodes, m.adj, v))
    && Partition(m.nodes, m.adj, m.components)
    && (m.nodes != [] ==> LargestFound(m))
  }

  ghost predicate OnePerTarget(suggestions: seq<Suggestion>)
  {
    forall i, j :: 0 <= i < j < |suggestions| ==> suggestions[i].target != suggestions[j].target
  }

  ghost predicate Advised(suggestions: seq<Suggestion>, v: Node)
  {
    exists g :: g in suggestions && g.target == v
  }

  /** `gs` advises exactly the needy ones among the nodes looked at, each once and properly. */
  ghost predicate Advising(m: Swarm, done: set<Node>, gs: seq<Suggestion>)
  {
    && OnePerTarget(gs)
    && (forall g :: g in gs ==> Advice(m, g) && g.target in done)
    && (forall v :: v in done ==> (Advised(gs, v) <==> Needy(m, v)))
  }

  ghost predicate RankedAll(m: Swarm, ranking: seq<Entry>)
  {
    && Descending(ranking, Score) && Distinct(Names(ranking)) && NodeSet(Names(ranking)) == NodeSet(m.nodes)
    && (forall e :: e in ranking ==> e.0 in m.nodes && e.1 == Centrality(m.nodes, m.adj, e.0))
  }

  /** The full contract of the analysis. */
  ghost predicate Sound(peers: seq<Peer>, a: Analysis)
  {
    && Mapped(peers, a.swarm)
    && Advising(a.swarm, NodeSet(a.swarm.nodes), a.suggestions)
    && Descending(a.suggestions, Isolation)
    && RankedAll(a.swarm, a.ranking)
  }

  // ----- collecting the suggestions

  lemma AdviseOne(m: Swarm, done: set<Node>, gs: seq<Suggestion>, g: Suggestion)
    requires Advising(m, done, gs) && Advice(m, g) && Needy(m, g.target) && g.target !in done
    ensures Advising(m, done + {g.target}, gs + [g])
  {
    hide Advice, Needy;
    var more := gs + [g];
    forall v | v in done + {g.target} ensures Advised(more, v) <==> Needy(m, v) {
      if v == g.target {
        assert g in more;
      } else if Advised(gs, v) {
        var h :| h in gs && h.target == v;
        assert h in more;
      }
    }
  }

  lemma AdviseNone(m: Swarm, done: set<Node>, gs: seq<Suggestion>, v: Node)
    requires Advising(m, done, gs) && !Needy(m, v) && v !in done
    ensures Advising(m, done + {v}, gs)
  {
    hide Advice, Needy;
  }

  lemma TopRestricted(scores: map<Node, real>, part: map<Node, real>, candidates: set<Node>, count: nat, top: seq<Node>)
    requires IsTop(part, candidates, count, top)
    requires part.Keys <= scores.Keys && forall x :: x in part ==> part[x] == scores[x]
    ensures IsTop(scores, candidates, count, top)
  {
  }

  /** The nodes of the components before `i`, the largest one apart. */
  ghost predicate Outside(m: Swarm, i: nat, done: set<Node>)
  {
    forall x :: x in done <==> exists c :: 0 <= c < i && c < |m.components| && c != m.largest && x in m.components[c]
  }

  lemma ComponentNodes(peers: seq<Peer>, m: Swarm, i: nat)
    requires Mapped(peers, m) && i < |m.components|
    ensures LargestFound(m) && Distinct(m.components[i]) && forall x :: x in m.components[i] ==> x in m.nodes
  {
    assert IsComponent(m.adj, m.components[i]);
    assert m.components[i][0] in m.components[i];
    assert m.components[i][0] in m.nodes;
  }

  lemma OutsiderFresh(peers: seq<Peer>, m: Swarm, i: nat, done: set<Node>)
    requires Mapped(peers, m) && i < |m.components| && i != m.largest && m.largest < |m.components|
    requires Outside(m, i, done)
    ensures forall x :: x in m.components[i] ==> x !in done && !InMain(m, x)
  {
    assert Disjoint(m.components);
  }

  lemma OutsiderTop(peers: seq<Peer>, m: Swarm, i: nat, mainScores: map<Node, real>, exclude: set<Node>, top: seq<Node>)
    requires Mapped(peers, m) && i < |m.components| && i != m.largest && m.largest < |m.components|
    requires exclude == NodeSet(m.components[i])
    requires mainScores == map v | v in m.betweenness && v in NodeSet(m.components[m.largest]) :: m.betweenness[v]
    requires IsTop(mainScores, mainScores.Keys - exclude, 3, top)
    ensures IsTop(m.betweenness, MainNodes(m), 3, top)
  {
    hide IsTop;
    assert mainScores.Keys - exclude == MainNodes(m);
    TopRestricted(m.betweenness, mainScores, MainNodes(m), 3, top);
  }

  lemma OutsiderAdvice(m: Swarm, v: Node, top: seq<Node>)
    requires v in m.nodes && !InMain(m, v) && IsTop(m.betweenness, MainNodes(m), 3, top)
    ensures Needy(m, v) && Advice(m, Suggestion(v, top, IsolatedClique, 1.0))
  {
  }

  lemma NewInPrefix(xs: seq<Node>, k: nat)
    requires Distinct(xs) && k < |xs|
    ensures xs[k] in xs && xs[k] !in NodeSet(xs[..k])
    ensures NodeSet(xs[..k + 1]) == NodeSet(xs[..k]) + {xs[k]}
  {
    assert xs[..k + 1] == xs[..k] + [xs[k]];
  }

  method BestOfMain(ghost peers: seq<Peer>, m: Swarm, i: nat) returns (top: seq<Node>)
    requires Mapped(peers, m) && i < |m.components| && i != m.largest && m.largest < |m.components|
    ensures IsTop(m.betweenness, MainNodes(m), 3, top)
  {
    hide Mapped, IsTop;
    var main := set v | v in m.components[m.largest];
    var exclude := set v | v in m.components[i];
    var mainScores := map v | v in m.betweenness && v in main :: m.betweenness[v];
    top := TopBetweenness(mainScores, exclude, 3);
    OutsiderTop(peers, m, i, mainScores, exclude, top);
  }

  /** Step 4, one component: each of its nodes is pointed to the best nodes of the largest component. */
  method AdviseComponent(ghost peers: seq<Peer>, m: Swarm, i: nat, ghost done: set<Node>, gs: seq<Suggestion>)
    returns (gs': seq<Suggestion>)
    requires Mapped(peers, m) && i < |m.components| && i != m.largest
    requires Outside(m, i, done) && Advising(m, done, gs)
    ensures Advising(m, done + NodeSet(m.components[i]), gs')
  {
    hide Advising, Mapped, IsTop, Outside, Distinct, Needy, Advice, InMain, MainNodes;
    var component := m.components[i];
    ComponentNodes(peers, m, i);
    var top := BestOfMain(peers, m, i);
    OutsiderFresh(peers, m, i, done);
    gs' := gs;
    ghost var seen: set<Node> := done;
    for k := 0 to |component|
      invariant seen == done + NodeSet(component[..k])
      invariant Advising(m, seen, gs')
    {
      var v := component[k];
      NewInPrefix(component, k);
      OutsiderAdvice(m, v, top);
      var g := Suggestion(v, top, IsolatedClique, 1.0);
      AdviseOne(m, seen, gs', g);
      gs' := gs' + [g];
      seen := seen + {v};
    }
    assert component[..|component|] == component;
  }

  /** Step 5, one node of the largest component. */
  method AdviseMember(m: Swarm, v: Node) returns (r: Option<Suggestion>)
    requires ClosedGraph(m.nodes, m.adj) && Symmetric(m.adj) && v in m.nodes && InMain(m, v)
    ensures r.Some? <==> Needy(m, v)
    ensures r.Some? ==> r.value.target == v && Advice(m, r.value)
  {
    hide IsTop, Density, Reachable2, Symmetric, ClosedGraph;
    var neighbors := Neighbors(m.adj, v);
    if |neighbors| < 2 {
      var top := TopBetweenness(m.betweenness, neighbors + {v}, 3);
      return Some(Suggestion(v, top, LowConnectivity, if |neighbors| == 0 then 1.0 else 0.5));
    }
    var density, reach := Measure(m.nodes, m.adj, v);
    if density > 0.8 && reach < 0.3 {
      ScoreRange(density, reach);
      var top := TopBetweenness(m.betweenness, neighbors + {v}, 3);
      return Some(Suggestion(v, top, IsolatedClique, density * (1.0 - reach)));
    }
    return None;
  }

  lemma EveryNode(peers: seq<Peer>, m: Swarm, outside: set<Node>)
    requires Mapped(peers, m) && Outside(m, |m.components|, outside) && m.largest < |m.components|
    ensures outside + NodeSet(m.components[m.largest]) == NodeSet(m.nodes)
    ensures forall x :: x in m.components[m.largest] ==> x !in outside && x in m.nodes && InMain(m, x)
    ensures ClosedGraph(m.nodes, m.adj) && Symmetric(m.adj)
  {
    assert Disjoint(m.components) && Covers(m.nodes, m.components);
    forall x | x in m.nodes ensures x in outside + NodeSet(m.components[m.largest]) {
      var c :| 0 <= c < |m.components| && x in m.components[c];
    }
  }

  lemma OutsideMore(m: Swarm, i: nat, done: set<Node>)
    requires Outside(m, i, done) && i < |m.components|
    ensures i == m.largest ==> Outside(m, i + 1, done)
    ensures i != m.largest ==> Outside(m, i + 1, done + NodeSet(m.components[i]))
  {
  }

  /** Steps 4 and 5: suggestions for all nodes, unsorted. */
  method Advise(ghost peers: seq<Peer>, m: Swarm) returns (gs: seq<Suggestion>)
    requires Mapped(peers, m) && m.nodes != []
    ensures Advising(m, NodeSet(m.nodes), gs)
  {
    gs := [];
    ghost var done: set<Node> := {};
    assert Advising(m, done, gs);
    for i := 0 to |m.components|
      invariant Outside(m, i, done)
      invariant Advising(m, done, gs)
    {
      hide Advising, Mapped;
      OutsideMore(m, i, done);
      if i != m.largest {
        gs := AdviseComponent(peers, m, i, done, gs);
        done := done + NodeSet(m.components[i]);
      }
    }
    gs := AdviseMembers(peers, m, done, gs);
  }

  lemma SomeComponent(peers: seq<Peer>, m: Swarm)
    requires Mapped(peers, m) && m.nodes != []
    ensures m.largest < |m.components| && Distinct(m.components[m.largest])
  {
    assert IsComponent(m.adj, m.components[m.largest]);
  }

  method AdviseMembers(ghost peers: seq<Peer>, m: Swarm, ghost outside: set<Node>, gs: seq<Suggestion>)
    returns (gs': seq<Suggestion>)
    requires Mapped(peers, m) && m.nodes != []
    requires Outside(m, |m.components|, outside) && Advising(m, outside, gs)
    ensures Advising(m, NodeSet(m.nodes), gs')
  {
    hide Advising, Mapped, Outside, ClosedGraph, Symmetric, Distinct, Needy, Advice, InMain;
    SomeComponent(peers, m);
    EveryNode(peers, m, outside);
    var main := m.components[m.largest];
    gs' := gs;
    ghost var done := outside;
    for k := 0 to |main|
      invariant done == outside + NodeSet(main[..k])
      invariant Advising(m, done, gs')
    {
      var v := main[k];
      NewInPrefix(main, k);
      var r := AdviseMember(m, v);
      if r.Some? {
        AdviseOne(m, done, gs', r.value);
        gs' := gs' + [r.value];
      } else {
        AdviseNone(m, done, gs', v);
      }
      done := done + {v};
    }
    assert main[..|main|] == main;
  }

  // ----- sorting the suggestions

  lemma SortKeepsMembers(gs: seq<Suggestion>, g: Suggestion)
    ensures g in SortDescending(gs, Isolation) <==> g in gs
  {
    var sorted := SortDescending(gs, Isolation);
    assert g in sorted <==> g in multiset(sorted);
    assert g in gs <==> g in multiset(gs);
  }

  lemma SortedAdvice(m: Swarm, done: set<Node>, gs: seq<Suggestion>)
    requires Advising(m, done, gs)
    ensures Advising(m, done, SortDescending(gs, Isolation))
  {
    hide Advice, Needy, SortDescending, OnePerTarget;
    var sorted := SortDescending(gs, Isolation);
    forall g ensures g in sorted <==> g in gs { SortKeepsMembers(gs, g); }
    forall v | v in done ensures Advised(sorted, v) <==> Needy(m, v) {
      assert Advised(gs, v) <==> Needy(m, v);
      if g :| g in gs && g.target == v { assert g in sorted; }
    }
    SortKeepsTargets(gs);
  }

  lemma {:induction false} InsertKeepsTargets(g: Suggestion, gs: seq<Suggestion>)
    requires OnePerTarget([g] + gs)
    ensures OnePerTarget(Insert(g, gs, Isolation))
  {
    var r := Insert(g, gs, Isolation);
    if gs != [] && gs[0].score > g.score {
      var rest := gs[1..];
      assert OnePerTarget([g] + rest) by {
        var a, b := [g] + gs, [g] + rest;
        assert forall i :: 0 < i < |b| ==> b[i] == a[i + 1];
        assert a[0] == b[0];
      }
      InsertKeepsTargets(g, rest);
      var tail := Insert(g, rest, Isolation);
      assert r == [gs[0]] + tail;
      forall h | h in tail ensures h.target != gs[0].target {
        assert h in multiset(tail);
        assert h == g || h in rest;
        HeadApart(g, gs, h);
      }
    }
  }

  lemma HeadApart(g: Suggestion, gs: seq<Suggestion>, h: Suggestion)
    requires OnePerTarget([g] + gs) && gs != [] && (h == g || h in gs[1..])
    ensures h.target != gs[0].target
  {
    var a := [g] + gs;
    assert a[1] == gs[0] && a[0] == g;
    if h in gs[1..] {
      var k :| 0 <= k < |gs[1..]| && gs[1..][k] == h;
      assert a[k + 2] == h;
    }
  }

  lemma {:induction false} SortKeepsTargets(gs: seq<Suggestion>)
    requires OnePerTarget(gs)
    ensures OnePerTarget(SortDescending(gs, Isolation))
  {
    if gs != [] {
      var g, rest := gs[0], gs[1..];
      SortKeepsTargets(rest);
      var tail := SortDescending(rest, Isolation);
      forall h | h in tail ensures h.target != g.target {
        assert h in multiset(tail);
        assert h in rest;
      }
      assert OnePerTarget([g] + tail);
      InsertKeepsTargets(g, tail);
    }
  }

  /** Steps 1 to 3: everything the suggestions are based on. */
  method MapSwarm(peers: seq<Peer>) returns (m: Swarm)
    ensures Mapped(peers, m)
  {
    var active, adj := BuildGraph(peers);
    var nodes := Listed(active);
    PeerGraphShape(peers, active, adj, nodes);
    if nodes == [] {
      return Swarm([], adj, map[], [], 0);
    }
    hide ClosedGraph, Symmetric, PeerGraph, Centrality, IsComponent;
    var components := FindComponents(nodes, adj);
    assert nodes[0] in nodes;
    var largest := LargestIndex(components);
    var betweenness := ComputeBetweenness(nodes, adj);
    m := Swarm(nodes, adj, betweenness, components, largest);
  }

  /** The whole analysis, for any list of announced peers. */
  method AnalyzeTopology(peers: seq<Peer>) returns (a: Analysis)
    ensures Sound(peers, a)
  {
    var swarm := MapSwarm(peers);
    if swarm.nodes == [] {
      return Analysis(swarm, [], []);
    }
    var ranking := Ranked(swarm.betweenness, swarm.betweenness.Keys);
    RankingComplete(swarm, ranking);
    hide Mapped, Advising, RankedAll;
    var unsorted := Advise(peers, swarm);
    SortedAdvice(swarm, NodeSet(swarm.nodes), unsorted);
    SortIsDescending(unsorted, Isolation);
    a := Analysis(swarm, SortDescending(unsorted, Isolation), ranking);
  }

  lemma RankingComplete(m: Swarm, ranking: seq<Entry>)
    requires m.betweenness.Keys == NodeSet(m.nodes)
    requires forall v :: v in m.nodes ==> m.betweenness[v] == Centrality(m.nodes, m.adj, v)
    requires Descending(ranking, Score) && Distinct(Names(ranking)) && NodeSet(Names(ranking)) == NodeSet(m.nodes)
    requires forall e :: e in ranking ==> e.0 in m.betweenness && e.1 == m.betweenness[e.0]
    ensures RankedAll(m, ranking)
  {
    hide Centrality, Descending, Distinct;
    forall e | e in ranking ensures e.0 in m.nodes && e.1 == Centrality(m.nodes, m.adj, e.0) {
      assert e.0 in NodeSet(m.nodes);
    }
  }

  // ----- what the suggestions are good for

  /** Every suggestion names at most three distinct peers, never the target or one of its neighbours, with a score in [0, 1]. */
  lemma SuggestionShape(peers: seq<Peer>, a: Analysis, g: Suggestion)
    requires Sound(peers, a) && g in a.suggestions
    ensures |g.peers| <= 3 && Distinct(g.peers) && 0.0 <= g.score <= 1.0
    ensures g.target !in g.peers
    ensures forall x :: x in g.peers ==> x in a.swarm.nodes && !Edge(a.swarm.adj, g.target, x)
  {
    hide Density, Reachable2, Centrality, PeerGraph, RankedAll, Descending;
    var m := a.swarm;
    assert Advice(m, g);
    forall x | x in g.peers ensures x in m.nodes && x != g.target && !Edge(m.adj, g.target, x) {
      assert x in NodeSet(g.peers);
      if !InMain(m, g.target) {
        assert x in MainNodes(m);
        if Edge(m.adj, g.target, x) { ComponentClosed(m.adj, m.components[m.largest], g.target, x); }
      } else {
        assert x in Elsewhere(m, g.target);
      }
    }
  }

  /** The active nodes at distance two. */
  ghost function AtTwo(m: Swarm, v: Node): set<Node>
  {
    set x | x in m.nodes && Dist(m.adj, v, x) == 2
  }

  lemma AtTwoIsTwoHops(m: Swarm, v: Node)
    requires ClosedGraph(m.nodes, m.adj) && v in m.nodes
    ensures AtTwo(m, v) == TwoHops(m.adj, v)
  {
    forall x ensures x in AtTwo(m, v) <==> x in TwoHops(m.adj, v) {
      TwoHopsIsDistanceTwo(m.adj, v, x);
      if x in TwoHops(m.adj, v) {
        var n :| n in Neighbors(m.adj, v) && x in Neighbors(m.adj, n);
        assert Edge(m.adj, v, n) && Edge(m.adj, n, x);
      }
    }
  }

  lemma Scales(x: real, y: real, c: real)
    requires c > 0.0
    ensures x < y <==> x * c < y * c
  {
    if x < y { assert (y - x) * c > 0.0; }
    if x > y { assert (x - y) * c > 0.0; }
  }

  lemma Ratio(a: real, b: real, c: real)
    requires b > 0.0
    ensures a / b < c <==> a < c * b
    ensures a / b > c <==> a > c * b
  {
    var q := a / b;
    assert q * b == a;
    Scales(q, c, b);
    Scales(c, q, b);
  }

  lemma MoreThan(a: nat, b: nat)
    requires b > 0
    ensures a as real / b as real > 0.8 <==> 10 * a > 8 * b
    ensures a as real / b as real < 0.3 <==> 10 * a < 3 * b
  {
    Ratio(a as real, b as real, 0.8);
    Ratio(a as real, b as real, 0.3);
  }

  lemma ScoreProduct(e: nat, m: nat, r: nat, t: nat, score: real)
    requires m > 0 && t > 0 && score == (e as real / m as real) * (1.0 - r as real / t as real)
    ensures score * (m * t) as real == e as real * (t as real - r as real)
  {
    var d, q := e as real / m as real, r as real / t as real;
    assert d * m as real == e as real && q * t as real == r as real;
    assert (m * t) as real == m as real * t as real;
    assert score * (m as real * t as real) == (d * m as real) * ((1.0 - q) * t as real);
    assert (1.0 - q) * t as real == t as real - r as real;
  }

  /**
   The advice to a node of the largest component in whole numbers. With k
   neighbours, e joined pairs among them, r nodes at distance two and t other
   nodes: it is advised exactly if k < 2, or e is more than 8/10 of all pairs
   while r is less than 3/10 of t. The score is 1 or 1/2 for no or one
   neighbour, and otherwise the product of the share of joined pairs and the
   share of nodes out of reach.
   */
  lemma MemberAdvice(peers: seq<Peer>, a: Analysis, v: Node)
    requires Sound(peers, a) && v in a.swarm.nodes && InMain(a.swarm, v)
    ensures Advised(a.suggestions, v) <==> |Neighbors(a.swarm.adj, v)| < 2 || InwardLooking(a.swarm, v)
    ensures forall g :: g in a.suggestions && g.target == v ==> AdviceInNumbers(a.swarm, g)
  {
    var m := a.swarm;
    hide *;
    MemberAdvised(peers, a, v);
    AtTwoIsTwoHops(m, v);
    NeedyNumbers(m, v);
    forall g | g in a.suggestions && g.target == v ensures AdviceInNumbers(m, g) {
      AdviceNumbers(m, g);
    }
  }

  lemma MemberAdvised(peers: seq<Peer>, a: Analysis, v: Node)
    requires Sound(peers, a) && v in a.swarm.nodes
    ensures Advised(a.suggestions, v) <==> Needy(a.swarm, v)
    ensures forall g :: g in a.suggestions ==> Advice(a.swarm, g)
    ensures ClosedGraph(a.swarm.nodes, a.swarm.adj)
  {
    hide Centrality, PeerGraph, RankedAll, Descending, Partition, LargestFound, InMain, Advice, Needy, Advised, ClosedGraph;
    assert v in NodeSet(a.swarm.nodes);
  }

  ghost predicate InwardLooking(m: Swarm, v: Node)
  {
    var k, e, r, t := |Neighbors(m.adj, v)|, |JoinedPairs(m.adj, Neighbors(m.adj, v))|, |AtTwo(m, v)|, |m.nodes| - 1;
    10 * e > 8 * (k * (k - 1) / 2) && 10 * r < 3 * t
  }

  ghost predicate AdviceInNumbers(m: Swarm, g: Suggestion)
  {
    var ns := Neighbors(m.adj, g.target);
    var k, e, r, t := |ns|, |JoinedPairs(m.adj, ns)|, |AtTwo(m, g.target)|, |m.nodes| - 1;
    && (k == 0 ==> g.reason == LowConnectivity && g.score == 1.0)
    && (k == 1 ==> g.reason == LowConnectivity && g.score == 0.5)
    && (k >= 2 ==> g.reason == IsolatedClique && g.score * (k * (k - 1) / 2 * t) as real == e as real * (t as real - r as real))
  }

  lemma AdviceNumbers(m: Swarm, g: Suggestion)
    requires Advice(m, g) && InMain(m, g.target) && ClosedGraph(m.nodes, m.adj)
    ensures AdviceInNumbers(m, g)
  {
    var ns := Neighbors(m.adj, g.target);
    hide IsTop, Neighbors, JoinedPairs, TwoHops, AtTwo, Density, Reachable2, InMain, ClosedGraph, Cliquish;
    AtTwoIsTwoHops(m, g.target);
    if |ns| >= 2 {
      CliqueNumbers(m, g.target);
      ScoreProduct(|JoinedPairs(m.adj, ns)|, |ns| * (|ns| - 1) / 2, |TwoHops(m.adj, g.target)|, |m.nodes| - 1, g.score);
    }
  }

  lemma NeedyNumbers(m: Swarm, v: Node)
    requires ClosedGraph(m.nodes, m.adj) && v in m.nodes && InMain(m, v)
    ensures Needy(m, v) <==> |Neighbors(m.adj, v)| < 2 || InwardLooking(m, v)
  {
    hide Neighbors, JoinedPairs, TwoHops, AtTwo, InMain, ClosedGraph, Cliquish;
    AtTwoIsTwoHops(m, v);
    if |Neighbors(m.adj, v)| >= 2 { CliqueNumbers(m, v); }
  }

  lemma CliqueNumbers(m: Swarm, v: Node)
    requires ClosedGraph(m.nodes, m.adj) && v in m.nodes && |Neighbors(m.adj, v)| >= 2
    ensures var k, e, r, t := |Neighbors(m.adj, v)|, |JoinedPairs(m.adj, Neighbors(m.adj, v))|, |TwoHops(m.adj, v)|, |m.nodes| - 1;
            && k * (k - 1) / 2 > 0 && t > 0
            && Density(m.adj, Neighbors(m.adj, v)) == e as real / (k * (k - 1) / 2) as real
            && Reachable2(m.adj, |m.nodes|, v) == r as real / t as real
            && (Cliquish(m, v) <==> 10 * e > 8 * (k * (k - 1) / 2) && 10 * r < 3 * t)
  {
    hide ClosedGraph, Neighbors, JoinedPairs, TwoHops;
    var ns := Neighbors(m.adj, v);
    SomePairs(|ns|);
    OthersExist(m, v);
    MoreThan(|JoinedPairs(m.adj, ns)|, |ns| * (|ns| - 1) / 2);
    MoreThan(|TwoHops(m.adj, v)|, |m.nodes| - 1);
  }

  lemma SomePairs(k: nat)
    requires k >= 2
    ensures k * (k - 1) / 2 > 0
  {
    assert k * (k - 1) >= 2 * (k - 1);
  }

  lemma OthersExist(m: Swarm, v: Node)
    requires ClosedGraph(m.nodes, m.adj) && v in m.nodes && |Neighbors(m.adj, v)| >= 2
    ensures |m.nodes| > 1
  {
    var ns := Neighbors(m.adj, v);
    forall x | x in ns ensures x in NodeSet(m.nodes) { assert Edge(m.adj, v, x); }
    hide Neighbors, NodeSet;
    SubsetSize(ns, NodeSet(m.nodes));
    SetSize(m.nodes);
  }

  /** Targets outside the largest component are always given somewhere to go, inside it. */
  lemma OutsidersGetPeers(peers: seq<Peer>, a: Analysis, v: Node)
    requires Sound(peers, a) && v in a.swarm.nodes && !InMain(a.swarm, v)
    ensures exists g :: g in a.suggestions && g.target == v && g.peers != []
    ensures forall g :: g in a.suggestions && g.target == v ==> g.peers != [] && forall x :: x in g.peers ==> InMain(a.swarm, x)
  {
    hide Density, Reachable2, Centrality, PeerGraph, RankedAll, Descending;
    var m := a.swarm;
    assert Needy(m, v) && Advised(a.suggestions, v);
    assert MainNodes(m) != {} by { MainInhabited(peers, m); }
    forall g | g in a.suggestions && g.target == v ensures g.peers != [] && forall x :: x in g.peers ==> InMain(m, x) {
      assert Advice(m, g);
      assert |g.peers| > 0;
      forall x | x in g.peers ensures InMain(m, x) { assert x in NodeSet(g.peers); }
    }
  }

  /** Whom a target may be pointed to: the largest component from outside it, any stranger from inside. */
  ghost predicate Candidate(m: Swarm, target: Node, x: Node)
  {
    x in m.nodes && if InMain(m, target) then x != target && !Edge(m.adj, target, x) else InMain(m, x)
  }

  /**
   Every suggestion names the best candidates by betweenness, best first: three,
   or all if there are fewer, and none left out is better. Outside the largest
   component the reason is isolation and the score 1.
   */
  lemma SuggestsTheBest(peers: seq<Peer>, a: Analysis, g: Suggestion)
    requires Sound(peers, a) && g in a.suggestions
    ensures forall x :: x in g.peers ==> Candidate(a.swarm, g.target, x)
    ensures forall i, j :: 0 <= i < j < |g.peers| ==>
              Centrality(a.swarm.nodes, a.swarm.adj, g.peers[i]) >= Centrality(a.swarm.nodes, a.swarm.adj, g.peers[j])
    ensures forall x, y :: Candidate(a.swarm, g.target, x) && x !in g.peers && y in g.peers ==>
              |g.peers| == 3 && Centrality(a.swarm.nodes, a.swarm.adj, x) <= Centrality(a.swarm.nodes, a.swarm.adj, y)
    ensures !InMain(a.swarm, g.target) ==> g.reason == IsolatedClique && g.score == 1.0
  {
    hide *;
    AdviceIn(peers, a, g);
    var candidates := Choices(a.swarm, g.target);
    AdviceNamesTop(a.swarm, g);
    CandidatesAre(a.swarm, g.target);
    TopIsBest(a.swarm, candidates, g.peers);
  }

  ghost function Choices(m: Swarm, target: Node): set<Node>
  {
    if InMain(m, target) then Elsewhere(m, target) else MainNodes(m)
  }

  lemma AdviceNamesTop(m: Swarm, g: Suggestion)
    requires Advice(m, g)
    ensures IsTop(m.betweenness, Choices(m, g.target), 3, g.peers)
    ensures !InMain(m, g.target) ==> g.reason == IsolatedClique && g.score == 1.0
  {
    hide IsTop, InMain, Elsewhere, MainNodes, Cliquish, Density, Reachable2, Neighbors;
  }

  lemma CandidatesAre(m: Swarm, target: Node)
    requires m.betweenness.Keys == NodeSet(m.nodes)
    ensures forall x :: x in Choices(m, target) <==> Candidate(m, target, x)
  {
    hide InMain;
    assert forall x :: x in NodeSet(m.nodes) <==> x in m.nodes;
  }

  lemma TopIsBest(m: Swarm, candidates: set<Node>, top: seq<Node>)
    requires IsTop(m.betweenness, candidates, 3, top) && m.betweenness.Keys == NodeSet(m.nodes)
    requires forall v :: v in m.nodes ==> v in m.betweenness && m.betweenness[v] == Centrality(m.nodes, m.adj, v)
    ensures forall x :: x in top ==> x in candidates
    ensures forall i, j :: 0 <= i < j < |top| ==> Centrality(m.nodes, m.adj, top[i]) >= Centrality(m.nodes, m.adj, top[j])
    ensures forall x, y :: x in candidates && x !in top && y in top ==>
              |top| == 3 && Centrality(m.nodes, m.adj, x) <= Centrality(m.nodes, m.adj, y)
  {
    hide Centrality, Distinct;
    assert forall x :: x in top ==> x in NodeSet(top);
    assert forall x :: x in candidates ==> x in m.nodes && m.betweenness[x] == Centrality(m.nodes, m.adj, x);
    forall x | x in candidates && x !in top ensures |top| == 3 {
      TopIsFull(candidates, top, x);
    }
  }

  lemma TopIsFull(candidates: set<Node>, top: seq<Node>, x: Node)
    requires x in candidates && x !in top && Distinct(top) && NodeSet(top) <= candidates
    requires |top| == if |candidates| < 3 then |candidates| else 3
    ensures |top| == 3
  {
    DistinctSize(top);
    SubsetSize(NodeSet(top), candidates - {x});
  }

  lemma AdviceIn(peers: seq<Peer>, a: Analysis, g: Suggestion)
    requires Sound(peers, a) && g in a.suggestions
    ensures Advice(a.swarm, g) && a.swarm.betweenness.Keys == NodeSet(a.swarm.nodes)
    ensures forall v :: v in a.swarm.nodes ==> v in a.swarm.betweenness && a.swarm.betweenness[v] == Centrality(a.swarm.nodes, a.swarm.adj, v)
  {
    hide Advice, Centrality, PeerGraph, RankedAll, Descending, Partition, LargestFound, ClosedGraph;
    assert forall v :: v in a.swarm.nodes ==> v in NodeSet(a.swarm.nodes);
  }

  lemma MainInhabited(peers: seq<Peer>, m: Swarm)
    requires Mapped(peers, m) && m.nodes != []
    ensures MainNodes(m) != {}
  {
    var main := m.components[m.largest];
    assert IsComponent(m.adj, main);
    assert main[0] in main;
    assert main[0] in MainNodes(m);
  }

  ghost predicate Extends(adj: Adj, more: Adj)
  {
    forall u, w :: Edge(adj, u, w) ==> Edge(more, u, w)
  }

  /** In `more`, some node of component `i` has linked to one of the peers suggested to it. */
  ghost predicate Follows(a: Analysis, more: Adj, i: nat)
    requires i < |a.swarm.components|
  {
    exists g, x :: g in a.suggestions && g.target in a.swarm.components[i] && x in g.peers && Edge(more, g.target, x)
  }

  lemma JoinedInMore(adj: Adj, more: Adj, x: Node, y: Node)
    requires Extends(adj, more) && Joined(adj, x, y)
    ensures Joined(more, x, y)
  {
    var p :| WalkBetween(adj, p, x, y);
    forall i | 0 <= i < |p| - 1 ensures Edge(more, p[i], p[i + 1]) {
      assert Edge(adj, p[i], p[i + 1]);
    }
    assert WalkBetween(more, p, x, y);
  }

  lemma JoinsMain(peers: seq<Peer>, a: Analysis, more: Adj, x: Node, hub: Node)
    requires Sound(peers, a) && Extends(a.swarm.adj, more)
    requires forall i :: 0 <= i < |a.swarm.components| && i != a.swarm.largest ==> Follows(a, more, i)
    requires x in a.swarm.nodes && InMain(a.swarm, hub)
    ensures Joined(more, x, hub)
  {
    hide Density, Reachable2, Centrality, PeerGraph, RankedAll, Descending, Advice, Needy;
    var m := a.swarm;
    var main := m.components[m.largest];
    assert IsComponent(m.adj, main);
    var i :| 0 <= i < |m.components| && x in m.components[i];
    assert IsComponent(m.adj, m.components[i]);
    if i == m.largest {
      JoinedInMore(m.adj, more, x, hub);
    } else {
      assert Follows(a, more, i);
      var g, y :| g in a.suggestions && g.target in m.components[i] && y in g.peers && Edge(more, g.target, y);
      assert g.target in m.nodes && !InMain(m, g.target);
      OutsidersGetPeers(peers, a, g.target);
      JoinedInMore(m.adj, more, x, g.target);
      assert WalkBetween(more, [g.target, y], g.target, y);
      JoinedTrans(more, x, g.target, y);
      JoinedInMore(m.adj, more, y, hub);
      JoinedTrans(more, x, y, hub);
    }
  }

  /**
   If, in each component other than the largest, at least one node links to any
   one of the peers suggested to it, all active nodes become connected.
   */
  lemma SuggestionsConnect(peers: seq<Peer>, a: Analysis, more: Adj, x: Node, y: Node)
    requires Sound(peers, a) && Extends(a.swarm.adj, more) && Symmetric(more)
    requires forall i :: 0 <= i < |a.swarm.components| && i != a.swarm.largest ==> Follows(a, more, i)
    requires x in a.swarm.nodes && y in a.swarm.nodes
    ensures Joined(more, x, y)
  {
    hide Density, Reachable2, Centrality, PeerGraph, RankedAll, Descending, Advising;
    MainInhabited(peers, a.swarm);
    var hub :| hub in MainNodes(a.swarm);
    JoinsMain(peers, a, more, x, hub);
    JoinsMain(peers, a, more, y, hub);
    JoinedSym(more, y, hub);
    JoinedTrans(more, x, hub, y);
  }
}
