/** How far a histogram is from uniform. */
module ChiSquare {
  import Common
  import opened RealAlgebra
  import opened RealSums

  /** Sum of squared distances from `c`, each divided by `c`. */
  function Deviation(x: seq<real>, c: real): real
    requires c != 0.0
  {
    if x == [] then 0.0 else Deviation(x[..|x| - 1], c) + Over(Square(x[|x| - 1] - c), c)
  }

  lemma {:induction false} TotalIsSum(hist: seq<nat>)
    ensures Common.Sum(hist) as real == Sum(Reals(hist))
  {
    if hist != [] {
      TotalIsSum(hist[..|hist| - 1]);
      assert Reals(hist)[..|hist| - 1] == Reals(hist[..|hist| - 1]);
    }
  }

  lemma {:induction false} DeviationIsDistance(x: seq<real>, c: real)
    requires c != 0.0
    ensures Times(c, Deviation(x, c)) == SquaredDistance(x, c)
  {
    if x == [] {
      TimesZero(c);
    } else {
      var front, last := x[..|x| - 1], x[|x| - 1];
      assert Deviation(x, c) == Deviation(front, c) + Over(Square(last - c), c);
      assert SquaredDistance(x, c) == SquaredDistance(front, c) + Square(last - c);
      hide *;
      DeviationIsDistance(front, c);
      Divide(Square(last - c), c);
      Distribute(c, Deviation(front, c), Over(Square(last - c), c));
    }
  }

  predicate Constant(x: seq<real>, c: real)
  {
    forall i :: 0 <= i < |x| ==> x[i] == c
  }

  lemma {:induction false} ZeroDistance(x: seq<real>, c: real)
    ensures SquaredDistance(x, c) >= 0.0
    ensures SquaredDistance(x, c) == 0.0 <==> Constant(x, c)
  {
    if x != [] {
      var front, last := x[..|x| - 1], x[|x| - 1];
      ZeroDistance(front, c);
      assert SquaredDistance(x, c) == SquaredDistance(front, c) + Square(last - c);
      assert Constant(x, c) <==> Constant(front, c) && last == c;
      hide *;
      SquareNonNegative(last - c);
      SquareZero();
      if last != c {
        SquarePositive(last - c);
      }
    }
  }

  /** The statistic is 0 for an empty histogram.  Otherwise it is not negative, 0 exactly if all bins
      are equal, and total times it is `n * sum(h*h) - total^2`. */
  method CalcChiSquareUniform(hist: seq<nat>) returns (chiSq: real)
    ensures Common.Sum(hist) == 0 ==> chiSq == 0.0
    ensures Common.Sum(hist) > 0 ==>
              && chiSq >= 0.0
              && (chiSq == 0.0 <==> forall i, j :: 0 <= i < j < |hist| ==> hist[i] == hist[j])
              && Times(Common.Sum(hist) as real, chiSq) ==
                 Times(|hist| as real, SumSquares(Reals(hist))) - Square(Common.Sum(hist) as real)
  {
    var total, i := 0, 0;
    while i < |hist|
      invariant 0 <= i <= |hist| && total == Common.Sum(hist[..i]) >= 0
    {
      assert hist[..i + 1][..i] == hist[..i];
      total := total + hist[i];
      i := i + 1;
    }
    assert hist[..i] == hist;
    if total == 0 {
      return 0.0;
    }
    var expected := Over(total as real, |hist| as real);
    ExpectedPositive(total as real, |hist| as real);
    ghost var x := Reals(hist);
    chiSq, i := 0.0, 0;
    while i < |hist|
      invariant 0 <= i <= |hist| && chiSq == Deviation(x[..i], expected)
    {
      assert x[..i + 1][..i] == x[..i] && x[i] == ToReal(hist[i]);
      hide Over, Square, Reals;
      var diff := ToReal(hist[i]) - expected;
      chiSq := chiSq + Over(Square(diff), expected);
      i := i + 1;
    }
    assert x[..i] == x;
    UniformIfZero(hist, expected, chiSq);
  }

  lemma ExpectedPositive(total: real, n: real)
    requires total > 0.0 && n > 0.0
    ensures Over(total, n) > 0.0
  {
    hide *;
    Divide(total, n);
    TimesZero(n);
    FactorNonNegative(n, Over(total, n));
  }

  lemma UniformIfZero(hist: seq<nat>, expected: real, chiSq: real)
    requires Common.Sum(hist) > 0 && expected > 0.0 && expected == Over(Common.Sum(hist) as real, |hist| as real)
    requires chiSq == Deviation(Reals(hist), expected)
    ensures chiSq >= 0.0
    ensures chiSq == 0.0 <==> Uniform(hist)
    ensures Times(Common.Sum(hist) as real, chiSq) ==
            Times(|hist| as real, SumSquares(Reals(hist))) - Square(Common.Sum(hist) as real)
  {
    var x, n := Reals(hist), |hist| as real;
    TotalIsSum(hist);
    DeviationIsDistance(x, expected);
    ZeroDistance(x, expected);
    EqualBins(hist, expected);
    DistanceExpanded(x, expected);
    Divide(Common.Sum(hist) as real, n);
    ChiAlgebra(n, expected, chiSq, SumSquares(x));
    hide *;
    TimesZero(expected);
    FactorNonNegative(expected, chiSq);
    if Times(expected, chiSq) == 0.0 {
      Cancel(expected, chiSq, 0.0);
    }
  }

  lemma ChiAlgebra(n: real, e: real, chi: real, squares: real)
    requires Times(e, chi) == squares - 2.0 * Times(e, Times(n, e)) + Times(n, Square(e))
    ensures Times(Times(n, e), chi) == Times(n, squares) - Square(Times(n, e))
  {
    Associate(n, e, chi);
    assert Times(e, Times(n, e)) == Times(n, Square(e)) && Times(n, Times(n, Square(e))) == Square(Times(n, e));
    Distribute(n, squares, -Times(n, Square(e)));
    assert Times(n, -Times(n, Square(e))) == -Times(n, Times(n, Square(e)));
    hide *;
  }

  predicate Uniform(hist: seq<nat>)
  {
    forall i, j :: 0 <= i < j < |hist| ==> hist[i] == hist[j]
  }

  /** All bins are equal exactly if all equal the average. */
  lemma EqualBins(hist: seq<nat>, expected: real)
    requires hist != [] && expected == Over(Common.Sum(hist) as real, |hist| as real)
    ensures Constant(Reals(hist), expected) <==> Uniform(hist)
  {
    var x := Reals(hist);
    assert forall i :: 0 <= i < |x| ==> x[i] == hist[i] as real;
    hide Reals, Over;
    if Uniform(hist) {
      TotalOfConstant(hist, hist[0]);
      Divide(Common.Sum(hist) as real, |hist| as real);
      Cancel(|hist| as real, expected, hist[0] as real);
    }
    if Constant(x, expected) {
      forall i, j | 0 <= i < j < |hist| ensures hist[i] == hist[j] {
        assert x[i] == x[j];
      }
    }
  }

  lemma {:induction false} TotalOfConstant(hist: seq<nat>, c: nat)
    requires forall i :: 0 <= i < |hist| ==> hist[i] == c
    ensures Common.Sum(hist) as real == Times(|hist| as real, c as real)
  {
    if hist == [] {
      TimesZero(c as real);
    } else {
      TotalOfConstant(hist[..|hist| - 1], c);
      Distribute(c as real, (|hist| - 1) as real, 1.0);
      TimesOne(c as real);
      hide Times;
    }
  }
}
