/** The sample statistics of a comparison, over exact reals. */
module Statistics {

  // Products and quotients are named so that proofs can reason about them as terms.

  function Times(a: real, b: real): real {
    a * b
  }

  function Quotient(s: real, n: nat): real
    requires n > 0
  {
    s / n as real
  }

  function Square(x: real): real {
    Times(x, x)
  }

  function Sum(xs: seq<real>): real {
    if xs == [] then 0.0 else Sum(xs[..|xs| - 1]) + xs[|xs| - 1]
  }

  function Mean(xs: seq<real>): real
    requires xs != []
  {
    Quotient(Sum(xs), |xs|)
  }

  /** The second pass: squared distances from a centre m. */
  function Deviations(xs: seq<real>, m: real): real {
    if xs == [] then 0.0 else Deviations(xs[..|xs| - 1], m) + Square(xs[|xs| - 1] - m)
  }

  function Variance(xs: seq<real>): real
    requires xs != []
  {
    if |xs| == 1 then 0.0 else Quotient(Deviations(xs, Mean(xs)), |xs| - 1)
  }

  // ---------- The loops of the source ----------

  method ComputeMean(xs: seq<real>) returns (mean: real)
    requires xs != []
    ensures mean == Mean(xs)
  {
    mean := 0.0;
    for i := 0 to |xs|
      invariant mean == Sum(xs[..i])
    {
      assert xs[..i + 1][..i] == xs[..i];
      mean := mean + xs[i];
    }
    assert xs[..|xs|] == xs;
    mean := Quotient(mean, |xs|);
  }

  method ComputeVariance(xs: seq<real>, mean: real) returns (variance: real)
    requires xs != [] && mean == Mean(xs)
    ensures variance == Variance(xs)
  {
    variance := 0.0;
    if |xs| > 1 {
      var s := 0.0;
      for i := 0 to |xs|
        invariant s == Deviations(xs[..i], mean)
      {
        assert xs[..i + 1][..i] == xs[..i];
        var d := xs[i] - mean;
        s := s + Times(d, d);
      }
      assert xs[..|xs|] == xs;
      variance := Quotient(s, |xs| - 1);
    }
  }

  // ---------- Products ----------

  lemma TimesPositive(a: real, b: real)
    requires a > 0.0 && b > 0.0
    ensures Times(a, b) > 0.0
  {
  }

  lemma TimesDistributes(a: real, b: real, c: real)
    ensures Times(a, b + c) == Times(a, b) + Times(a, c)
    ensures Times(b + c, a) == Times(b, a) + Times(c, a)
    ensures Times(a, b - c) == Times(a, b) - Times(a, c)
    ensures Times(b - c, a) == Times(b, a) - Times(c, a)
  {
  }

  lemma TimesAssociates(a: real, b: real, c: real)
    ensures Times(a, Times(b, c)) == Times(Times(a, b), c)
    ensures Times(a, b) == Times(b, a)
  {
  }

  lemma TimesUnit(a: real)
    ensures Times(1.0, a) == a && Times(0.0, a) == 0.0 && Times(a, 0.0) == 0.0
  {
  }

  lemma TimesMonotone(k: real, a: real, b: real)
    requires k >= 0.0 && a <= b
    ensures Times(k, a) <= Times(k, b)
  {
  }

  lemma Cancel(n: real, a: real, b: real)
    requires n > 0.0 && Times(n, a) <= Times(n, b)
    ensures a <= b
  {
    if b < a {
      TimesPositive(n, a - b);
      TimesDistributes(n, a, b);
    }
  }

  lemma CancelEqual(n: real, a: real, b: real)
    requires n > 0.0 && Times(n, a) == Times(n, b)
    ensures a == b
  {
    Cancel(n, a, b);
    Cancel(n, b, a);
  }

  lemma QuotientTimes(s: real, n: nat)
    requires n > 0
    ensures Times(n as real, Quotient(s, n)) == s
  {
  }

  lemma SquareSign(x: real)
    ensures Square(x) >= 0.0 && (Square(x) == 0.0 <==> x == 0.0)
  {
    TimesUnit(x);
    if x > 0.0 {
      TimesPositive(x, x);
    } else if x < 0.0 {
      TimesPositive(-x, -x);
      SquareNegated(x);
    }
  }

  lemma SquareNegated(x: real)
    ensures Times(-x, -x) == Times(x, x)
  {
  }

  // ---------- The mean ----------

  lemma {:induction false} SumBetween(xs: seq<real>, lo: real, hi: real)
    requires forall i :: 0 <= i < |xs| ==> lo <= xs[i] <= hi
    ensures Times(|xs| as real, lo) <= Sum(xs) <= Times(|xs| as real, hi)
  {
    TimesUnit(lo);
    TimesUnit(hi);
    if xs != [] {
      SumBetween(xs[..|xs| - 1], lo, hi);
      TimesDistributes(lo, (|xs| - 1) as real, 1.0);
      TimesDistributes(hi, (|xs| - 1) as real, 1.0);
    }
  }

  /** The mean lies between any bounds of the samples. */
  lemma MeanBetween(xs: seq<real>, lo: real, hi: real)
    requires xs != [] && forall i :: 0 <= i < |xs| ==> lo <= xs[i] <= hi
    ensures lo <= Mean(xs) <= hi
  {
    SumBetween(xs, lo, hi);
    QuotientTimes(Sum(xs), |xs|);
    Cancel(|xs| as real, lo, Mean(xs));
    Cancel(|xs| as real, Mean(xs), hi);
  }

  function Scale(k: real, xs: seq<real>): (ys: seq<real>)
    ensures |ys| == |xs|
  {
    if xs == [] then [] else Scale(k, xs[..|xs| - 1]) + [Times(k, xs[|xs| - 1])]
  }

  lemma {:induction false} SumScale(k: real, xs: seq<real>)
    ensures Sum(Scale(k, xs)) == Times(k, Sum(xs))
  {
    TimesUnit(k);
    if xs != [] {
      SumScale(k, xs[..|xs| - 1]);
      assert Scale(k, xs)[..|xs| - 1] == Scale(k, xs[..|xs| - 1]);
      TimesDistributes(k, Sum(xs[..|xs| - 1]), xs[|xs| - 1]);
    }
  }

  lemma MeanScale(k: real, xs: seq<real>)
    requires xs != []
    ensures Mean(Scale(k, xs)) == Times(k, Mean(xs))
  {
    var n := |xs| as real;
    SumScale(k, xs);
    QuotientTimes(Sum(xs), |xs|);
    QuotientTimes(Times(k, Sum(xs)), |xs|);
    TimesAssociates(k, n, Mean(xs));
    TimesAssociates(n, k, Mean(xs));
    CancelEqual(n, Mean(Scale(k, xs)), Times(k, Mean(xs)));
  }

  // ---------- Order does not matter ----------

  function Without<T>(xs: seq<T>, i: nat): (ys: seq<T>)
    requires i < |xs|
    ensures |ys| == |xs| - 1
  {
    xs[..i] + xs[i + 1..]
  }

  lemma {:induction false} SumWithout(xs: seq<real>, i: nat)
    requires i < |xs|
    ensures Sum(xs) == Sum(Without(xs, i)) + xs[i]
  {
    var n := |xs| - 1;
    if i == n {
      assert Without(xs, i) == xs[..n];
    } else {
      SumWithout(xs[..n], i);
      var rest := Without(xs, i);
      assert rest[..|rest| - 1] == Without(xs[..n], i);
    }
  }

  lemma {:induction false} DeviationsWithout(xs: seq<real>, m: real, i: nat)
    requires i < |xs|
    ensures Deviations(xs, m) == Deviations(Without(xs, i), m) + Square(xs[i] - m)
  {
    var n := |xs| - 1;
    if i == n {
      assert Without(xs, i) == xs[..n];
    } else {
      DeviationsWithout(xs[..n], m, i);
      var rest := Without(xs, i);
      assert rest[..|rest| - 1] == Without(xs[..n], i);
    }
  }

  lemma RemoveOne<T>(xs: seq<T>, i: nat)
    requires i < |xs|
    ensures multiset(Without(xs, i)) == multiset(xs) - multiset{xs[i]}
  {
    assert xs == xs[..i] + [xs[i]] + xs[i + 1..];
  }

  lemma PermutedSize<T>(xs: seq<T>, ys: seq<T>)
    requires multiset(xs) == multiset(ys)
    ensures |xs| == |ys|
  {
    assert |xs| == |multiset(xs)| && |ys| == |multiset(ys)|;
  }

  /** The first element of one ordering, found in the other and removed from both. */
  lemma PermutedHead<T>(xs: seq<T>, ys: seq<T>) returns (i: nat)
    requires xs != [] && multiset(xs) == multiset(ys)
    ensures i < |ys| && ys[i] == xs[0]
    ensures multiset(Without(xs, 0)) == multiset(Without(ys, i))
  {
    assert xs[0] in multiset(ys);
    i :| 0 <= i < |ys| && ys[i] == xs[0];
    RemoveOne(xs, 0);
    RemoveOne(ys, i);
  }

  lemma {:induction false} SumPermuted(xs: seq<real>, ys: seq<real>)
    requires multiset(xs) == multiset(ys)
    ensures Sum(xs) == Sum(ys)
    decreases |xs|
  {
    PermutedSize(xs, ys);
    if xs != [] {
      var i := PermutedHead(xs, ys);
      SumPermuted(Without(xs, 0), Without(ys, i));
      SumWithout(xs, 0);
      SumWithout(ys, i);
    }
  }

  lemma {:induction false} DeviationsPermuted(xs: seq<real>, ys: seq<real>, m: real)
    requires multiset(xs) == multiset(ys)
    ensures Deviations(xs, m) == Deviations(ys, m)
    decreases |xs|
  {
    PermutedSize(xs, ys);
    if xs != [] {
      var i := PermutedHead(xs, ys);
      DeviationsPermuted(Without(xs, 0), Without(ys, i), m);
      DeviationsWithout(xs, m, 0);
      DeviationsWithout(ys, m, i);
    }
  }

  /** Mean and variance depend on the samples only as a bag. */
  lemma StatisticsPermuted(xs: seq<real>, ys: seq<real>)
    requires xs != [] && multiset(xs) == multiset(ys)
    ensures |ys| == |xs| && Mean(xs) == Mean(ys) && Variance(xs) == Variance(ys)
  {
    PermutedSize(xs, ys);
    SumPermuted(xs, ys);
    DeviationsPermuted(xs, ys, Mean(xs));
  }

  // ---------- The variance ----------

  lemma {:induction false} DeviationsSign(xs: seq<real>, m: real)
    ensures Deviations(xs, m) >= 0.0
    ensures Deviations(xs, m) == 0.0 <==> forall i :: 0 <= i < |xs| ==> xs[i] == m
  {
    if xs != [] {
      DeviationsSign(xs[..|xs| - 1], m);
      SquareSign(xs[|xs| - 1] - m);
      assert forall i :: 0 <= i < |xs| - 1 ==> xs[..|xs| - 1][i] == xs[i];
    }
  }

  lemma QuotientSign(s: real, n: nat)
    requires n > 0 && s >= 0.0
    ensures Quotient(s, n) >= 0.0 && (Quotient(s, n) == 0.0 <==> s == 0.0)
  {
    QuotientTimes(s, n);
    TimesUnit(n as real);
    Cancel(n as real, 0.0, Quotient(s, n));
  }

  predicate AllEqual(xs: seq<real>) {
    forall i, j :: 0 <= i < |xs| && 0 <= j < |xs| ==> xs[i] == xs[j]
  }

  /** The variance is never negative, and zero exactly when the samples agree. */
  lemma VarianceSign(xs: seq<real>)
    requires xs != []
    ensures Variance(xs) >= 0.0
    ensures Variance(xs) == 0.0 <==> AllEqual(xs)
  {
    if |xs| > 1 {
      DeviationsSign(xs, Mean(xs));
      QuotientSign(Deviations(xs, Mean(xs)), |xs| - 1);
      if AllEqual(xs) {
        MeanBetween(xs, xs[0], xs[0]);
      }
    }
  }

  function SumOfSquares(xs: seq<real>): real {
    if xs == [] then 0.0 else SumOfSquares(xs[..|xs| - 1]) + Square(xs[|xs| - 1])
  }

  lemma SquareOfDifference(x: real, m: real)
    ensures Square(x - m) == Square(x) - Times(2.0, Times(m, x)) + Square(m)
  {
    TimesDistributes(x - m, x, m);
    TimesDistributes(x, x, m);
    TimesDistributes(m, x, m);
    TimesAssociates(x, m, m);
  }

  lemma {:induction false} DeviationsExpanded(xs: seq<real>, m: real)
    ensures Deviations(xs, m)
         == SumOfSquares(xs) - Times(2.0, Times(m, Sum(xs))) + Times(|xs| as real, Square(m))
  {
    TimesUnit(m);
    TimesUnit(Square(m));
    if xs != [] {
      var n := |xs| - 1;
      DeviationsExpanded(xs[..n], m);
      SquareOfDifference(xs[n], m);
      TimesDistributes(m, Sum(xs[..n]), xs[n]);
      TimesDistributes(2.0, Times(m, Sum(xs[..n])), Times(m, xs[n]));
      TimesDistributes(Square(m), n as real, 1.0);
    }
  }

  /** The two-pass form equals the textbook one-pass form. */
  lemma VarianceOnePass(xs: seq<real>)
    requires |xs| > 1
    ensures Variance(xs)
         == Quotient(SumOfSquares(xs) - Times(|xs| as real, Square(Mean(xs))), |xs| - 1)
  {
    var n, m := |xs| as real, Mean(xs);
    QuotientTimes(Sum(xs), |xs|);
    DeviationsExpanded(xs, m);
    TimesAssociates(m, n, m);
    TimesAssociates(n, m, m);
    assert Times(m, Sum(xs)) == Times(n, Square(m));
  }
}
