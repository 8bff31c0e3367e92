/** Stable sorting by descending score, and the best-scored choice of a few nodes. */
module Ranking {
  import opened Sums
  import opened Graph
  import opened ForwardPass

  ghost predicate Descending<T>(xs: seq<T>, key: T -> real)
  {
    forall i, j :: 0 <= i < j < |xs| ==> key(xs[i]) >= key(xs[j])
  }

  /** Places `x` in front of the first element that does not outscore it. */
  function Insert<T>(x: T, xs: seq<T>, key: T -> real): (r: seq<T>)
    ensures multiset(r) == multiset([x]) + multiset(xs)
  {
    if xs == [] then [x]
    else if key(xs[0]) <= key(x) then [x] + xs
    else
      assert xs == [xs[0]] + xs[1..];
      [xs[0]] + Insert(x, xs[1..], key)
  }

  function SortDescending<T>(xs: seq<T>, key: T -> real): (r: seq<T>)
    ensures multiset(r) == multiset(xs)
  {
    if xs == [] then []
    else
      assert xs == [xs[0]] + xs[1..];
      Insert(xs[0], SortDescending(xs[1..], key), key)
  }

  lemma {:induction false} InsertKeepsOrder<T>(x: T, xs: seq<T>, key: T -> real)
    requires Descending(xs, key)
    ensures Descending(Insert(x, xs, key), key)
  {
    if xs == [] || key(xs[0]) <= key(x) {
      assert Insert(x, xs, key) == [x] + xs;
    } else {
      var tail := Insert(x, xs[1..], key);
      assert Insert(x, xs, key) == [xs[0]] + tail;
      assert Descending(xs[1..], key) && forall y :: y in xs[1..] ==> key(xs[0]) >= key(y);
      hide Insert, Descending;
      InsertKeepsOrder(x, xs[1..], key);
      InsertedMembers(x, xs[1..], key);
      FirstIsBest(xs[0], tail, key);
    }
  }

  lemma InsertedMembers<T>(x: T, xs: seq<T>, key: T -> real)
    ensures forall y :: y in Insert(x, xs, key) ==> y == x || y in xs
  {
    hide Insert;
    forall y | y in Insert(x, xs, key) ensures y == x || y in xs {
      assert y in multiset(Insert(x, xs, key));
      assert y in multiset([x]) || y in multiset(xs);
    }
  }

  lemma FirstIsBest<T>(x: T, xs: seq<T>, key: T -> real)
    requires Descending(xs, key) && forall y :: y in xs ==> key(x) >= key(y)
    ensures Descending([x] + xs, key)
  {
  }

  lemma {:induction false} SortIsDescending<T>(xs: seq<T>, key: T -> real)
    ensures Descending(SortDescending(xs, key), key)
  {
    if xs != [] {
      SortIsDescending(xs[1..], key);
      InsertKeepsOrder(xs[0], SortDescending(xs[1..], key), key);
    }
  }

  /** The elements of score `k`, in order. */
  ghost function Scoring<T>(xs: seq<T>, key: T -> real, k: real): seq<T>
  {
    if xs == [] then []
    else (if key(xs[0]) == k then [xs[0]] else []) + Scoring(xs[1..], key, k)
  }

  lemma ScoringCons<T>(x: T, xs: seq<T>, key: T -> real, k: real)
    ensures Scoring([x] + xs, key, k) == (if key(x) == k then [x] else []) + Scoring(xs, key, k)
  {
    assert ([x] + xs)[1..] == xs;
  }

  lemma {:induction false} ScoringInsert<T>(x: T, xs: seq<T>, key: T -> real, k: real)
    ensures Scoring(Insert(x, xs, key), key, k) == (if key(x) == k then [x] else []) + Scoring(xs, key, k)
  {
    if xs != [] && key(xs[0]) > key(x) {
      var y, rest := xs[0], xs[1..];
      ScoringInsert(x, rest, key, k);
      ScoringCons(y, Insert(x, rest, key), key, k);
      assert Insert(x, xs, key) == [y] + Insert(x, rest, key);
      hide Insert, Scoring;
      ScoringCons(y, rest, key, k);
      assert xs == [y] + rest;
      if key(y) == k {
        assert [] + Scoring(rest, key, k) == Scoring(rest, key, k);
      }
    } else {
      ScoringCons(x, xs, key, k);
      assert Insert(x, xs, key) == [x] + xs;
    }
  }

  /** Elements of equal score keep their order. */
  lemma {:induction false} SortIsStable<T>(xs: seq<T>, key: T -> real, k: real)
    ensures Scoring(SortDescending(xs, key), key, k) == Scoring(xs, key, k)
  {
    if xs != [] {
      SortIsStable(xs[1..], key, k);
      ScoringInsert(xs[0], SortDescending(xs[1..], key), key, k);
    }
  }

  // ----- the best few

  /** Lists a set in some order. */
  method Listed(s: set<Node>) returns (xs: seq<Node>)
    ensures Distinct(xs) && NodeSet(xs) == s && |xs| == |s|
  {
    xs := [];
    var rest := s;
    while rest != {}
      invariant Distinct(xs) && NodeSet(xs) + rest == s && NodeSet(xs) !! rest && |xs| + |rest| == |s|
      decreases rest
    {
      var x :| x in rest;
      rest := rest - {x};
      xs := xs + [x];
    }
  }

  type Entry = (Node, real)

  function Score(e: Entry): real
  {
    e.1
  }

  ghost predicate Entries(scores: map<Node, real>, keys: seq<Node>, es: seq<Entry>)
  {
    |es| == |keys| && forall i :: 0 <= i < |es| ==> keys[i] in scores && es[i] == (keys[i], scores[keys[i]])
  }

  /** The entries of a score table, as (node, score) pairs ordered by descending score. */
  method Ranked(scores: map<Node, real>, keep: set<Node>) returns (es: seq<Entry>)
    requires keep <= scores.Keys
    ensures Descending(es, Score) && |es| == |keep|
    ensures Distinct(Names(es)) && NodeSet(Names(es)) == keep
    ensures forall e :: e in es ==> e.0 in scores && e.1 == scores[e.0]
  {
    var keys := Listed(keep);
    var unsorted: seq<Entry> := [];
    for i := 0 to |keys|
      invariant Entries(scores, keys[..i], unsorted)
    {
      assert keys[i] in NodeSet(keys);
      unsorted := unsorted + [(keys[i], scores[keys[i]])];
    }
    assert keys[..|keys|] == keys;
    es := SortDescending(unsorted, Score);
    SortIsDescending(unsorted, Score);
    RankedNames(scores, keys, unsorted, es);
  }

  function Names(es: seq<Entry>): (r: seq<Node>)
    ensures |r| == |es| && forall i :: 0 <= i < |es| ==> r[i] == es[i].0
  {
    if es == [] then [] else [es[0].0] + Names(es[1..])
  }

  lemma SameMembers(xs: seq<Entry>, ys: seq<Entry>, e: Entry)
    requires multiset(xs) == multiset(ys)
    ensures e in xs <==> e in ys
  {
    assert e in xs <==> e in multiset(xs);
    assert e in ys <==> e in multiset(ys);
  }

  lemma RankedNames(scores: map<Node, real>, keys: seq<Node>, unsorted: seq<Entry>, es: seq<Entry>)
    requires Distinct(keys) && Entries(scores, keys, unsorted) && multiset(es) == multiset(unsorted)
    ensures |es| == |keys| && Distinct(Names(es)) && NodeSet(Names(es)) == NodeSet(keys)
    ensures forall e :: e in es ==> e.0 in scores && e.1 == scores[e.0]
  {
    assert |es| == |multiset(es)| == |unsorted|;
    forall e ensures e in es <==> e in unsorted { SameMembers(es, unsorted, e); }
    forall x ensures x in Names(es) <==> x in keys {
      RankedMember(scores, keys, unsorted, es, x);
    }
    SameCounts(unsorted, es);
    forall i, j | 0 <= i < j < |es| ensures Names(es)[i] != Names(es)[j] {
      assert es[i] in unsorted && es[j] in unsorted && es[i] != es[j];
    }
  }

  lemma RankedMember(scores: map<Node, real>, keys: seq<Node>, unsorted: seq<Entry>, es: seq<Entry>, x: Node)
    requires Entries(scores, keys, unsorted) && forall e :: e in es <==> e in unsorted
    ensures x in Names(es) <==> x in keys
  {
    if x in keys {
      var i :| 0 <= i < |keys| && keys[i] == x;
      assert unsorted[i] in es;
      var j :| 0 <= j < |es| && es[j] == unsorted[i];
      assert Names(es)[j] == x;
    }
    if x in Names(es) {
      var j :| 0 <= j < |es| && Names(es)[j] == x;
      assert es[j] in unsorted;
    }
  }

  lemma {:induction false} NoRepeats(es: seq<Entry>)
    ensures Distinct(es) <==> forall e :: multiset(es)[e] <= 1
  {
    if es != [] {
      var rest := es[1..];
      assert es == [es[0]] + rest;
      assert multiset(es) == multiset{es[0]} + multiset(rest);
      NoRepeats(rest);
      if Distinct(es) {
        assert es[0] !in rest;
        assert es[0] !in multiset(rest);
        assert Distinct(rest);
      }
      if forall e :: multiset(es)[e] <= 1 {
        forall e ensures multiset(rest)[e] <= 1 { assert multiset(es)[e] <= 1; }
        assert multiset(es)[es[0]] <= 1;
        assert es[0] !in multiset(rest);
        assert es[0] !in rest;
      }
    }
  }

  lemma SameCounts(xs: seq<Entry>, ys: seq<Entry>)
    requires Distinct(xs) && multiset(xs) == multiset(ys)
    ensures Distinct(ys)
  {
    NoRepeats(xs);
    NoRepeats(ys);
  }

  /** `top` lists, best first, `count` of the candidates (all of them if fewer), and none left out scores higher. */
  ghost predicate IsTop(scores: map<Node, real>, candidates: set<Node>, count: nat, top: seq<Node>)
  {
    && candidates <= scores.Keys && Distinct(top) && NodeSet(top) <= candidates
    && |top| == (if |candidates| < count then |candidates| else count)
    && (forall i, j :: 0 <= i < j < |top| ==> scores[top[i]] >= scores[top[j]])
    && (forall x, y :: x in candidates && x !in top && y in top ==> scores[x] <= scores[y])
  }

  method TopBetweenness(scores: map<Node, real>, exclude: set<Node>, count: nat) returns (top: seq<Node>)
    ensures IsTop(scores, scores.Keys - exclude, count, top)
  {
    var candidates := Ranked(scores, scores.Keys - exclude);
    var n := if |candidates| < count then |candidates| else count;
    top := Names(candidates)[..n];
    TopPrefix(scores, scores.Keys - exclude, candidates, n);
  }

  lemma TopPrefix(scores: map<Node, real>, keep: set<Node>, es: seq<Entry>, n: nat)
    requires n <= |es| && Descending(es, Score)
    requires Distinct(Names(es)) && NodeSet(Names(es)) == keep && keep <= scores.Keys
    requires forall e :: e in es ==> e.0 in scores && e.1 == scores[e.0]
    ensures var top := Names(es)[..n];
            && Distinct(top) && NodeSet(top) <= keep
            && (forall i, j :: 0 <= i < j < |top| ==> scores[top[i]] >= scores[top[j]])
            && (forall x, y :: x in keep && x !in top && y in top ==> scores[x] <= scores[y])
  {
    var names, top := Names(es), Names(es)[..n];
    forall i | 0 <= i < |names| ensures names[i] in keep && scores[names[i]] == Score(es[i]) {
      assert es[i] in es;
      assert names[i] in NodeSet(names);
    }
    forall x, y | x in keep && x !in top && y in top ensures scores[x] <= scores[y] {
      var i := Position(names, n, x);
      var j :| 0 <= j < n && top[j] == y;
      assert Score(es[j]) >= Score(es[i]);
    }
  }

  lemma Position(names: seq<Node>, n: nat, x: Node) returns (i: nat)
    requires n <= |names| && x in NodeSet(names) && x !in names[..n]
    ensures n <= i < |names| && names[i] == x
  {
    i :| 0 <= i < |names| && names[i] == x;
    assert forall k :: 0 <= k < n ==> names[..n][k] == names[k] && names[k] in names[..n];
  }
}
