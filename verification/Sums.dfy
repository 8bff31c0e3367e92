/** Finite sums of reals over the elements of a sequence. */
module Sums {

  ghost predicate Distinct<T>(xs: seq<T>)
  {
    forall i, j :: 0 <= i < j < |xs| ==> xs[i] != xs[j]
  }

  ghost function Sum<T>(xs: seq<T>, f: T -> real): real
  {
    if xs == [] then 0.0 else f(xs[0]) + Sum(xs[1..], f)
  }

  lemma {:induction false} SumEq<T>(xs: seq<T>, f: T -> real, g: T -> real)
    requires forall x :: x in xs ==> f(x) == g(x)
    ensures Sum(xs, f) == Sum(xs, g)
  {
    if xs != [] {
      SumEq(xs[1..], f, g);
    }
  }

  lemma {:induction false} SumZero<T>(xs: seq<T>, f: T -> real)
    requires forall x :: x in xs ==> f(x) == 0.0
    ensures Sum(xs, f) == 0.0
  {
    if xs != [] {
      SumZero(xs[1..], f);
    }
  }

  lemma {:induction false} SumAdd<T>(xs: seq<T>, f: T -> real, g: T -> real, h: T -> real)
    requires forall x :: x in xs ==> h(x) == f(x) + g(x)
    ensures Sum(xs, h) == Sum(xs, f) + Sum(xs, g)
  {
    if xs != [] {
      SumAdd(xs[1..], f, g, h);
    }
  }

  lemma {:induction false} SumScale<T>(xs: seq<T>, c: real, f: T -> real, g: T -> real)
    requires forall x :: x in xs ==> g(x) == c * f(x)
    ensures Sum(xs, g) == c * Sum(xs, f)
  {
    if xs != [] {
      SumScale(xs[1..], c, f, g);
    }
  }

  lemma {:induction false} SumQuotient<T>(xs: seq<T>, c: real, f: T -> real, g: T -> real)
    requires c != 0.0 && forall x :: x in xs ==> g(x) == f(x) / c
    ensures Sum(xs, g) == Sum(xs, f) / c
  {
    if xs != [] {
      SumQuotient(xs[1..], c, f, g);
    }
  }

  lemma {:induction false} SumAppend<T>(xs: seq<T>, ys: seq<T>, f: T -> real)
    ensures Sum(xs + ys, f) == Sum(xs, f) + Sum(ys, f)
  {
    if xs == [] {
      assert xs + ys == ys;
    } else {
      SumAppend(xs[1..], ys, f);
      assert (xs + ys)[1..] == xs[1..] + ys;
    }
  }

  /** Two functions that agree away from `x` have sums that differ by their difference at `x`. */
  lemma {:induction false} SumUpdate<T>(xs: seq<T>, x: T, f: T -> real, g: T -> real)
    requires Distinct(xs) && x in xs
    requires forall y :: y in xs && y != x ==> f(y) == g(y)
    ensures Sum(xs, g) == Sum(xs, f) + g(x) - f(x)
  {
    if xs[0] == x {
      SumEq(xs[1..], f, g);
    } else {
      SumUpdate(xs[1..], x, f, g);
    }
  }

  lemma SumSingle<T>(xs: seq<T>, x: T, f: T -> real)
    requires Distinct(xs) && x in xs
    requires forall y :: y in xs && y != x ==> f(y) == 0.0
    ensures Sum(xs, f) == f(x)
  {
    var z: T -> real := y => 0.0;
    SumUpdate(xs, x, z, f);
    SumZero(xs, z);
  }

  ghost function At<T, U>(f: (T, U) -> real, x: T): U -> real
  {
    y => f(x, y)
  }

  ghost function Across<T, U>(f: (T, U) -> real, y: U): T -> real
  {
    x => f(x, y)
  }

  /** The inner sum of `f(x, y)` over `ys`, as a function of `x`. */
  ghost function Row<T, U>(ys: seq<U>, f: (T, U) -> real): T -> real
  {
    x => Sum(ys, At(f, x))
  }

  /** The inner sum of `f(x, y)` over `xs`, as a function of `y`. */
  ghost function Col<T, U>(xs: seq<T>, f: (T, U) -> real): U -> real
  {
    y => Sum(xs, Across(f, y))
  }

  lemma {:induction false} SumSwap<T, U>(xs: seq<T>, ys: seq<U>, f: (T, U) -> real)
    ensures Sum(xs, Row(ys, f)) == Sum(ys, Col(xs, f))
  {
    if xs == [] {
      SumZero(ys, Col(xs, f));
    } else {
      SumSwap(xs[1..], ys, f);
      SumAdd(ys, At(f, xs[0]), Col(xs[1..], f), Col(xs, f));
    }
  }

  // ----- weighted sums

  ghost function Times<T>(a: T -> real, f: T -> real): T -> real
  {
    x => a(x) * f(x)
  }

  /** The sum of `f` weighted by `a`. */
  ghost function Dot<T>(xs: seq<T>, a: T -> real, f: T -> real): real
  {
    Sum(xs, Times(a, f))
  }

  lemma {:induction false} DotEq<T>(xs: seq<T>, a: T -> real, f: T -> real, g: T -> real)
    requires forall x :: x in xs && a(x) != 0.0 ==> f(x) == g(x)
    ensures Dot(xs, a, f) == Dot(xs, a, g)
  {
    if xs != [] {
      DotEq(xs[1..], a, f, g);
    }
  }

  lemma {:induction false} DotZero<T>(xs: seq<T>, a: T -> real, f: T -> real)
    requires forall x :: x in xs && a(x) != 0.0 ==> f(x) == 0.0
    ensures Dot(xs, a, f) == 0.0
  {
    if xs != [] {
      DotZero(xs[1..], a, f);
    }
  }

  lemma {:induction false} DotAdd<T>(xs: seq<T>, a: T -> real, f: T -> real, g: T -> real, h: T -> real)
    requires forall x :: x in xs ==> h(x) == f(x) + g(x)
    ensures Dot(xs, a, h) == Dot(xs, a, f) + Dot(xs, a, g)
  {
    if xs != [] {
      DotAdd(xs[1..], a, f, g, h);
      var x := xs[0];
      assert a(x) * h(x) == a(x) * f(x) + a(x) * g(x);
    }
  }

  lemma {:induction false} DotQuotient<T>(xs: seq<T>, a: T -> real, f: T -> real, g: T -> real, c: real)
    requires c != 0.0 && forall x :: x in xs ==> g(x) == f(x) / c
    ensures Dot(xs, a, g) == Dot(xs, a, f) / c
  {
    if xs != [] {
      DotQuotient(xs[1..], a, f, g, c);
      var x := xs[0];
      assert a(x) * g(x) == a(x) * f(x) / c;
    }
  }

  /** `c` at `x`, zero elsewhere. */
  ghost function Spike<T>(x: T, c: real): T -> real
  {
    y => if y == x then c else 0.0
  }

  lemma SumSpike<T>(xs: seq<T>, x: T, c: real)
    requires Distinct(xs) && x in xs
    ensures Sum(xs, Spike(x, c)) == c
  {
    SumSingle(xs, x, Spike(x, c));
  }

  lemma DotSpike<T>(xs: seq<T>, a: T -> real, x: T, c: real)
    requires Distinct(xs) && x in xs
    ensures Dot(xs, a, Spike(x, c)) == a(x) * c
  {
    SumSingle(xs, x, Times(a, Spike(x, c)));
  }

  ghost function DotAcross<T, U>(xs: seq<T>, a: T -> real, b: (T, U) -> real): U -> real
  {
    y => Dot(xs, a, Across(b, y))
  }

  ghost function Weighted<T, U>(a: T -> real, b: (T, U) -> real): (T, U) -> real
  {
    (x, y) => a(x) * b(x, y)
  }

  lemma WeightedRow<T, U>(ys: seq<U>, a: T -> real, b: (T, U) -> real, x: T)
    ensures Row(ys, Weighted(a, b))(x) == Times(a, Row(ys, b))(x)
  {
    SumScale(ys, a(x), At(b, x), At(Weighted(a, b), x));
  }

  lemma WeightedCol<T, U>(xs: seq<T>, a: T -> real, b: (T, U) -> real, y: U)
    ensures Col(xs, Weighted(a, b))(y) == DotAcross(xs, a, b)(y)
  {
    SumEq(xs, Across(Weighted(a, b), y), Times(a, Across(b, y)));
  }

  /** A weighted sum of row sums is the sum of the weighted column sums. */
  lemma DotSwap<T, U>(xs: seq<T>, ys: seq<U>, a: T -> real, b: (T, U) -> real)
    ensures Dot(xs, a, Row(ys, b)) == Sum(ys, DotAcross(xs, a, b))
  {
    hide Weighted, Row, Col, DotAcross, Times, Sum;
    var w := Weighted(a, b);
    SumSwap(xs, ys, w);
    forall x | x in xs ensures Row(ys, w)(x) == Times(a, Row(ys, b))(x) { WeightedRow(ys, a, b, x); }
    SumEq(xs, Row(ys, w), Times(a, Row(ys, b)));
    forall y | y in ys ensures Col(xs, w)(y) == DotAcross(xs, a, b)(y) { WeightedCol(xs, a, b, y); }
    SumEq(ys, Col(xs, w), DotAcross(xs, a, b));
  }
}
