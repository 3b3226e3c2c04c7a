/** Sums over sequences of reals, and the sum of squared distances from a point. */
module RealSums {
  import opened RealAlgebra

  function Sum(x: seq<real>): real
  {
    if x == [] then 0.0 else Sum(x[..|x| - 1]) + x[|x| - 1]
  }

  function SumSquares(x: seq<real>): real
  {
    if x == [] then 0.0 else SumSquares(x[..|x| - 1]) + Square(x[|x| - 1])
  }

  lemma OneMore(x: seq<real>)
    requires |x| > 0
    ensures var n := |x| - 1;
            && Sum(x) == Sum(x[..n]) + x[n]
            && SumSquares(x) == SumSquares(x[..n]) + Square(x[n])
            && |x| as real == |x[..n]| as real + 1.0
  {
  }

  /** `sum((x - c)^2)`. */
  function SquaredDistance(x: seq<real>, c: real): real
  {
    if x == [] then 0.0 else SquaredDistance(x[..|x| - 1], c) + Square(x[|x| - 1] - c)
  }

  lemma {:induction false} DistanceExpanded(x: seq<real>, c: real)
    ensures SquaredDistance(x, c) == SumSquares(x) - 2.0 * Times(c, Sum(x)) + Times(|x| as real, Square(c))
    ensures SquaredDistance(x, c) >= 0.0
  {
    if x == [] {
      TimesZero(c);
      TimesZero(Square(c));
      hide Times;
    } else {
      var front, last := x[..|x| - 1], x[|x| - 1];
      assert SquaredDistance(x, c) == SquaredDistance(front, c) + Square(last - c);
      hide *;
      OneMore(x);
      DistanceExpanded(front, c);
      SquareNonNegative(last - c);
      SquareOfDifference(last, c);
      Distribute(c, Sum(front), last);
      Distribute(Square(c), |front| as real, 1.0);
      TimesOne(Square(c));
    }
  }

  function ToReal(v: int): real
  {
    v as real
  }

  function Reals(s: seq<int>): (r: seq<real>)
    ensures |r| == |s|
  {
    seq(|s|, i requires 0 <= i < |s| => ToReal(s[i]))
  }

  predicate Sorted(s: seq<real>)
  {
    forall i, j :: 0 <= i < j < |s| ==> s[i] <= s[j]
  }
}
