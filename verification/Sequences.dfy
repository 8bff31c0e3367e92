/** Facts about sequences that several components share. */
module Sequences {

  ghost function Reversed<T>(p: seq<T>): (q: seq<T>)
    ensures |q| == |p| && forall i :: 0 <= i < |p| ==> q[i] == p[|p| - 1 - i]
  {
    seq(|p|, i requires 0 <= i < |p| => p[|p| - 1 - i])
  }

  lemma ReversedTwice<T>(p: seq<T>)
    ensures Reversed(Reversed(p)) == p
  {
  }

  lemma ReversedMembers<T>(p: seq<T>, x: T)
    requires x in p
    ensures x in Reversed(p)
  {
    var i :| 0 <= i < |p| && p[i] == x;
    assert Reversed(p)[|p| - 1 - i] == x;
  }

  lemma ReversedFront<T>(x: T, p: seq<T>)
    ensures Reversed([x] + p) == Reversed(p) + [x]
  {
  }

  lemma ReversedBack<T>(p: seq<T>)
    requires p != []
    ensures Reversed(p) == [p[|p| - 1]] + Reversed(p[..|p| - 1])
  {
  }

  lemma Regroup<T>(xs: seq<T>, y: T, zs: seq<T>)
    ensures xs + ([y] + zs) == xs + [y] + zs
  {
  }

  ghost predicate Increasing(ns: seq<int>)
  {
    forall i, j :: 0 <= i < j < |ns| ==> ns[i] < ns[j]
  }

  /** Every finite set can be listed. */
  lemma {:induction false} SomeListing<T>(s: set<T>) returns (xs: seq<T>)
    ensures (set x | x in xs) == s
    decreases |s|
  {
    if s == {} {
      xs := [];
    } else {
      var k :| k in s;
      var ys := SomeListing(s - {k});
      xs := ys + [k];
      assert (set x | x in xs) == (set x | x in ys) + {k};
    }
  }
}
