/** Correlation coefficients between lengths and directions, and lengths and inter-arrival times. */
module Pearson {
  import opened RealAlgebra
  import opened RealSums

  // --- Sums ---

  function Dot(x: seq<real>, y: seq<real>): real
    requires |x| == |y|
  {
    if x == [] then 0.0 else Dot(x[..|x| - 1], y[..|y| - 1]) + Times(x[|x| - 1], y[|y| - 1])
  }

  /** `n * sum(x*y) - sum(x) * sum(y)`. */
  function Covariance(x: seq<real>, y: seq<real>): real
    requires |x| == |y|
  {
    Times(|x| as real, Dot(x, y)) - Times(Sum(x), Sum(y))
  }

  /** `n * sum(x*x) - sum(x) * sum(x)`, which is n squared times the variance. */
  function Variance(x: seq<real>): real
  {
    Times(|x| as real, SumSquares(x)) - Square(Sum(x))
  }

  // --- Variance is not negative ---

  lemma {:induction false} VarianceNonNegative(x: seq<real>)
    ensures Variance(x) >= 0.0
  {
    if x == [] {
      TimesZero(0.0);
    } else {
      var front, last := x[..|x| - 1], x[|x| - 1];
      VarianceNonNegative(front);
      var n, q, s := |front| as real, SumSquares(front), Sum(front);
      assert Variance(front) == Times(n, q) - Square(s);
      assert Variance(x) == Times(|x| as real, SumSquares(x)) - Square(Sum(x));
      hide *;
      OneMore(x);
      DistanceExpanded(front, last);
      VarianceStep(n, q, s, last);
    }
  }

  lemma VarianceStep(n: real, q: real, s: real, c: real)
    ensures Times(n + 1.0, q + Square(c)) - Square(s + c) ==
            (Times(n, q) - Square(s)) + (q - 2.0 * Times(c, s) + Times(n, Square(c)))
  {
  }

  // --- Cauchy-Schwarz ---

  /** `a*x + b*y`, element by element. */
  function Mix(a: real, x: seq<real>, b: real, y: seq<real>): (z: seq<real>)
    requires |x| == |y|
    ensures |z| == |x|
  {
    if x == [] then []
    else Mix(a, x[..|x| - 1], b, y[..|y| - 1]) + [Times(a, x[|x| - 1]) + Times(b, y[|y| - 1])]
  }

  /** The quadratic form that squares of a mix add up to. */
  function Quadratic(a: real, b: real, xx: real, xy: real, yy: real): real
  {
    Times(Square(a), xx) + 2.0 * Times(Times(a, b), xy) + Times(Square(b), yy)
  }

  lemma {:induction false} MixSums(a: real, x: seq<real>, b: real, y: seq<real>)
    requires |x| == |y|
    ensures var z := Mix(a, x, b, y);
            && Sum(z) == Times(a, Sum(x)) + Times(b, Sum(y))
            && SumSquares(z) == Quadratic(a, b, SumSquares(x), Dot(x, y), SumSquares(y))
  {
    if x == [] {
      QuadraticOfZero(a, b);
      hide Times, Square, Quadratic;
    } else {
      var n := |x| - 1;
      var z := Mix(a, x, b, y);
      assert z[..n] == Mix(a, x[..n], b, y[..n]) && z[n] == Times(a, x[n]) + Times(b, y[n]);
      assert Dot(x, y) == Dot(x[..n], y[..n]) + Times(x[n], y[n]);
      hide *;
      MixSums(a, x[..n], b, y[..n]);
      OneMore(x);
      OneMore(y);
      OneMore(z);
      QuadraticStep(a, b, x[n], y[n], SumSquares(x[..n]), Dot(x[..n], y[..n]), SumSquares(y[..n]));
      Distribute(a, Sum(x[..n]), x[n]);
      Distribute(b, Sum(y[..n]), y[n]);
    }
  }

  lemma QuadraticOfZero(a: real, b: real)
    ensures Quadratic(a, b, 0.0, 0.0, 0.0) == 0.0 && Times(a, 0.0) == 0.0 && Times(b, 0.0) == 0.0
  {
  }

  lemma QuadraticStep(a: real, b: real, x: real, y: real, xx: real, xy: real, yy: real)
    ensures Quadratic(a, b, xx, xy, yy) + Square(Times(a, x) + Times(b, y)) ==
            Quadratic(a, b, xx + Square(x), xy + Times(x, y), yy + Square(y))
  {
    hide Times, Square;
    SquareOfSum(Times(a, x), Times(b, y));
    SquareOfProduct(a, x);
    SquareOfProduct(b, y);
    Regroup(a, x, b, y);
    Distribute(Square(a), xx, Square(x));
    Distribute(Times(a, b), xy, Times(x, y));
    Distribute(Square(b), yy, Square(y));
  }

  lemma MixVariance(a: real, x: seq<real>, b: real, y: seq<real>)
    requires |x| == |y|
    ensures Quadratic(a, b, Variance(x), Covariance(x, y), Variance(y)) >= 0.0
  {
    var z := Mix(a, x, b, y);
    hide Sum, SumSquares, Dot, Mix, Quadratic, Times, Square;
    MixSums(a, x, b, y);
    VarianceNonNegative(z);
    VarianceOfMix(a, b, |x| as real, Sum(x), Sum(y), SumSquares(x), Dot(x, y), SumSquares(y));
  }

  lemma VarianceOfMix(a: real, b: real, n: real, sx: real, sy: real, xx: real, xy: real, yy: real)
    ensures Times(n, Quadratic(a, b, xx, xy, yy)) - Square(Times(a, sx) + Times(b, sy)) ==
            Quadratic(a, b, Times(n, xx) - Square(sx), Times(n, xy) - Times(sx, sy), Times(n, yy) - Square(sy))
  {
  }

  /** The covariance of two sequences never exceeds what their variances allow. */
  lemma CauchySchwarz(x: seq<real>, y: seq<real>)
    requires |x| == |y|
    ensures Square(Covariance(x, y)) <= Times(Variance(x), Variance(y))
  {
    hide *;
    var p, q, c := Variance(x), Variance(y), Covariance(x, y);
    VarianceNonNegative(x);
    VarianceNonNegative(y);
    if q > 0.0 {
      MixVariance(q, x, -c, y);
      Discriminant(p, q, c);
    } else if c != 0.0 {
      MixVariance(1.0, x, Over(-(p + 1.0), c), y);
      NegativeMix(p, c);
    } else {
      BothZero(p);
    }
  }

  lemma BothZero(p: real)
    ensures Square(0.0) <= Times(p, 0.0)
  {
  }

  lemma NegativeMix(p: real, c: real)
    requires p >= 0.0 && c != 0.0
    ensures Quadratic(1.0, Over(-(p + 1.0), c), p, c, 0.0) < 0.0
  {
    var b := Over(-(p + 1.0), c);
    Divide(-(p + 1.0), c);
    TimesOne(b);
    TimesOne(p);
    TimesZero(Square(b));
    assert Square(1.0) == 1.0;
    hide Times, Square;
  }

  lemma Discriminant(p: real, q: real, c: real)
    requires q > 0.0 && Quadratic(q, -c, p, c, q) >= 0.0
    ensures Square(c) <= Times(p, q)
  {
    assert Quadratic(q, -c, p, c, q) == Times(q, Times(p, q) - Square(c));
    hide *;
    FactorNonNegative(q, Times(p, q) - Square(c));
  }

  // --- The coefficient ---

  function Coefficient(x: seq<real>, y: seq<real>, sqrt: real -> real): real
    requires |x| == |y|
  {
    var den := sqrt(Times(Variance(x), Variance(y)));
    if den > 0.0 then Over(Covariance(x, y), den) else 0.0
  }

  /** A correlation coefficient is between -1 and 1. */
  lemma CoefficientInRange(x: seq<real>, y: seq<real>, sqrt: real -> real)
    requires |x| == |y| && IsSqrt(sqrt)
    ensures -1.0 <= Coefficient(x, y, sqrt) <= 1.0
  {
    hide Variance, Covariance, Times, Square;
    CauchySchwarz(x, y);
    VarianceNonNegative(x);
    VarianceNonNegative(y);
    ProductNonNegative(Variance(x), Variance(y));
    var den := sqrt(Times(Variance(x), Variance(y)));
    assert den >= 0.0 && Square(den) == Times(Variance(x), Variance(y));
    hide IsSqrt;
    if den > 0.0 {
      RatioInRange(Covariance(x, y), den);
    }
  }

  lemma RatioInRange(num: real, den: real)
    requires den > 0.0 && Square(num) <= Square(den)
    ensures -1.0 <= Over(num, den) <= 1.0
  {
    hide *;
    SquareBounds(num, den);
    var r := Over(num, den);
    Divide(num, den);
    if r > 1.0 {
      TimesIncreases(r, 1.0, den);
      TimesOne(den);
    } else if r < -1.0 {
      TimesIncreases(-1.0, r, den);
      MinusOne(den);
    }
  }

  lemma MinusOne(x: real)
    ensures Times(-1.0, x) == -x
  {
  }

  lemma {:induction false} DotSelf(x: seq<real>)
    ensures Dot(x, x) == SumSquares(x) && Covariance(x, x) == Variance(x)
  {
    if x != [] {
      DotSelf(x[..|x| - 1]);
    }
  }

  /** The bound is attained: a sequence that is not constant correlates fully with itself. */
  lemma SelfCorrelation(x: seq<real>, sqrt: real -> real)
    requires IsSqrt(sqrt) && Variance(x) > 0.0
    ensures Coefficient(x, x, sqrt) == 1.0
  {
    var v := Variance(x);
    DotSelf(x);
    assert Times(v, v) == Square(v);
    SquareNonNegative(v);
    var den := sqrt(Times(v, v));
    assert den >= 0.0 && Square(den) == Square(v);
    hide IsSqrt, Variance, Covariance, Times, Square;
    SquareBounds(den, v);
    SquareBounds(v, den);
    OverSelf(v);
    hide Over;
  }

  /** What makes a number the coefficient of two sequences: it has the sign of `n * sum(x*y) - sum(x) * sum(y)`,
      and its square, times both variance factors, is the square of that. */
  predicate Correlates(r: real, x: seq<real>, y: seq<real>)
    requires |x| == |y|
  {
    var n := |x| as real;
    var num := Times(n, Dot(x, y)) - Times(Sum(x), Sum(y));
    var varX, varY := Times(n, SumSquares(x)) - Square(Sum(x)), Times(n, SumSquares(y)) - Square(Sum(y));
    && (r > 0.0 <==> num > 0.0) && (r < 0.0 <==> num < 0.0)
    && Times(Square(r), Times(varX, varY)) == Square(num)
  }

  lemma CorrelatesIs(r: real, x: seq<real>, y: seq<real>)
    requires |x| == |y|
    ensures Correlates(r, x, y) <==> Quotes(r, Covariance(x, y), Times(Variance(x), Variance(y)))
  {
  }

  /** The same for a numerator and the square of a denominator. */
  predicate Quotes(r: real, num: real, square: real)
  {
    (r > 0.0 <==> num > 0.0) && (r < 0.0 <==> num < 0.0) && Times(Square(r), square) == Square(num)
  }

  lemma CoefficientCorrelates(x: seq<real>, y: seq<real>, sqrt: real -> real)
    requires |x| == |y| && IsSqrt(sqrt)
    ensures Correlates(Coefficient(x, y, sqrt), x, y)
  {
    var num, square := Covariance(x, y), Times(Variance(x), Variance(y));
    CoefficientIs(x, y, sqrt);
    hide Variance, Covariance, Times, Square, Coefficient, Correlates, Quotes;
    CauchySchwarz(x, y);
    VarianceNonNegative(x);
    VarianceNonNegative(y);
    ProductNonNegative(Variance(x), Variance(y));
    var den := sqrt(square);
    assert den >= 0.0 && Square(den) == square;
    hide IsSqrt;
    QuotientQuotes(num, den);
    CorrelatesIs(Coefficient(x, y, sqrt), x, y);
  }

  lemma CoefficientIs(x: seq<real>, y: seq<real>, sqrt: real -> real)
    requires |x| == |y|
    ensures var den := sqrt(Times(Variance(x), Variance(y)));
            Coefficient(x, y, sqrt) == if den > 0.0 then Over(Covariance(x, y), den) else 0.0
  {
  }

  lemma QuotientQuotes(num: real, den: real)
    requires den >= 0.0 && Square(num) <= Square(den)
    ensures Quotes(if den > 0.0 then Over(num, den) else 0.0, num, Square(den))
  {
    hide Times, Square, Over;
    SquareZero();
    if den > 0.0 {
      var r := Over(num, den);
      Divide(num, den);
      SquareOfProduct(r, den);
      TimesZero(den);
      if r > 0.0 {
        TimesIncreases(r, 0.0, den);
      } else if r < 0.0 {
        TimesIncreases(0.0, r, den);
      }
    } else {
      SquareBounds(num, den);
      TimesZero(Square(den));
    }
  }

  /** There is only one such number. */
  lemma CoefficientIsUnique(x: seq<real>, y: seq<real>, r: real, r': real)
    requires |x| == |y| && Correlates(r, x, y) && Correlates(r', x, y)
    ensures r == r'
  {
    hide *;
    CorrelatesIs(r, x, y);
    CorrelatesIs(r', x, y);
    QuotesOnce(r, r', Covariance(x, y), Times(Variance(x), Variance(y)));
  }

  lemma QuotesOnce(r: real, r': real, num: real, square: real)
    requires Quotes(r, num, square) && Quotes(r', num, square)
    ensures r == r'
  {
    hide Times, Square;
    if num != 0.0 {
      SquarePositive(num);
      TimesZero(Square(r));
      Commute(Square(r), square);
      Commute(Square(r'), square);
      Cancel(square, Square(r), Square(r'));
      EqualSquares(r, r');
    }
  }

  lemma EqualSquares(r: real, r': real)
    requires Square(r) == Square(r') && (r > 0.0 <==> r' > 0.0) && (r < 0.0 <==> r' < 0.0)
    ensures r == r'
  {
    SquareOfNegative(r);
    SquareOfNegative(r');
    hide *;
    if r > 0.0 {
      SquareBounds(r, r');
      SquareBounds(r', r);
    } else if r < 0.0 {
      SquareBounds(-r, -r');
      SquareBounds(-r', -r);
    }
  }

  lemma SquareOfNegative(r: real)
    ensures Square(-r) == Square(r)
  {
  }

  function Negated(x: seq<real>): (z: seq<real>)
    ensures |z| == |x|
  {
    seq(|x|, i requires 0 <= i < |x| => -x[i])
  }

  lemma {:induction false} NegatedSums(x: seq<real>, y: seq<real>)
    requires |x| == |y|
    ensures Sum(Negated(x)) == -Sum(x) && SumSquares(Negated(x)) == SumSquares(x)
    ensures Dot(Negated(x), y) == -Dot(x, y) && Dot(y, Negated(x)) == -Dot(y, x)
  {
    if x != [] {
      var n := |x| - 1;
      assert Negated(x)[..n] == Negated(x[..n]) && Negated(x)[n] == -x[n];
      NegatedSums(x[..n], y[..n]);
      SquareOfNegative(x[n]);
      Negate(y[n], x[n]);
      hide Negated, Times, Square;
    }
  }

  /** Turning the sign of every element of one sequence turns the sign of the coefficient. */
  lemma OpposedSequences(x: seq<real>, y: seq<real>, r: real, r': real)
    requires |x| == |y| && Correlates(r, x, y) && (Correlates(r', Negated(x), y) || Correlates(r', x, Negated(y)))
    ensures r' == -r
  {
    NegatedVariances(x, y);
    NegatedVariances(y, x);
    hide *;
    CorrelatesIs(r, x, y);
    CorrelatesIs(r', Negated(x), y);
    CorrelatesIs(r', x, Negated(y));
    NegatedQuotes(r, Covariance(x, y), Times(Variance(x), Variance(y)));
    QuotesOnce(-r, r', -Covariance(x, y), Times(Variance(x), Variance(y)));
  }

  lemma NegatedVariances(x: seq<real>, y: seq<real>)
    requires |x| == |y|
    ensures Variance(Negated(x)) == Variance(x)
    ensures Covariance(Negated(x), y) == -Covariance(x, y) && Covariance(y, Negated(x)) == -Covariance(y, x)
  {
    NegatedSums(x, y);
    SquareOfNegative(Sum(x));
    Negate(|x| as real, Dot(x, y));
    Negate(|x| as real, Dot(y, x));
    Negate(Sum(y), Sum(x));
    hide Times, Square, Sum, SumSquares, Dot;
  }

  lemma NegatedQuotes(r: real, num: real, square: real)
    requires Quotes(r, num, square)
    ensures Quotes(-r, -num, square)
  {
    SquareOfNegative(r);
    SquareOfNegative(num);
    hide Square, Times;
  }

  /** What the loop has added up after `n` elements. */
  datatype Sums = Sums(x: real, y: real, xy: real, x2: real, y2: real)

  function SumsOf(x: seq<real>, y: seq<real>): Sums
    requires |x| == |y|
  {
    Sums(Sum(x), Sum(y), Dot(x, y), SumSquares(x), SumSquares(y))
  }

  lemma NextSums(xs: seq<int>, ys: seq<int>, n: nat)
    requires n < |xs| && n < |ys|
    ensures var s, x, y := SumsOf(Reals(xs[..n]), Reals(ys[..n])), ToReal(xs[n]), ToReal(ys[n]);
            SumsOf(Reals(xs[..n + 1]), Reals(ys[..n + 1])) ==
            Sums(s.x + x, s.y + y, s.xy + Times(x, y), s.x2 + Square(x), s.y2 + Square(y))
  {
    assert Reals(xs[..n + 1])[..n] == Reals(xs[..n]) && Reals(ys[..n + 1])[..n] == Reals(ys[..n]);
    hide Reals, Times, Square;
  }

  /** The accumulation loop of both coefficients, over the first `n` elements. */
  method Correlate(xs: seq<int>, ys: seq<int>, n: nat, sqrt: real -> real) returns (r: real)
    requires n <= |xs| && n <= |ys| && IsSqrt(sqrt)
    ensures r == Coefficient(Reals(xs[..n]), Reals(ys[..n]), sqrt)
    ensures -1.0 <= r <= 1.0 && Correlates(r, Reals(xs[..n]), Reals(ys[..n]))
  {
    CoefficientCorrelates(Reals(xs[..n]), Reals(ys[..n]), sqrt);
    hide Correlates;
    CoefficientInRange(Reals(xs[..n]), Reals(ys[..n]), sqrt);
    hide Times, Square, Dot, Sum, SumSquares, Reals, IsSqrt, ToReal;
    var sumX, sumY, sumXY, sumX2, sumY2 := 0.0, 0.0, 0.0, 0.0, 0.0;
    NoSums(xs, ys);
    var i := 0;
    while i < n
      invariant 0 <= i <= n
      invariant Sums(sumX, sumY, sumXY, sumX2, sumY2) == SumsOf(Reals(xs[..i]), Reals(ys[..i]))
    {
      NextSums(xs, ys, i);
      hide *;
      var x, y := ToReal(xs[i]), ToReal(ys[i]);
      sumX := sumX + x;
      sumY := sumY + y;
      sumXY := sumXY + Times(x, y);
      sumX2 := sumX2 + Square(x);
      sumY2 := sumY2 + Square(y);
      i := i + 1;
    }
    var num := Times(n as real, sumXY) - Times(sumX, sumY);
    var den := sqrt(Times(Times(n as real, sumX2) - Square(sumX), Times(n as real, sumY2) - Square(sumY)));
    return if den > 0.0 then Over(num, den) else 0.0;
  }

  lemma NoSums(xs: seq<int>, ys: seq<int>)
    ensures SumsOf(Reals(xs[..0]), Reals(ys[..0])) == Sums(0.0, 0.0, 0.0, 0.0, 0.0)
  {
  }

  /** Lengths against directions; 0 unless there are equally many of both, and some. */
  method LengthDirectionCorrelation(lens: seq<int>, dirs: seq<int>, sqrt: real -> real) returns (r: real)
    requires IsSqrt(sqrt)
    ensures -1.0 <= r <= 1.0
    ensures r == if |lens| == 0 || |lens| != |dirs| then 0.0
                 else Coefficient(Reals(lens), Reals(dirs), sqrt)
    ensures if |lens| == 0 || |lens| != |dirs| then r == 0.0 else Correlates(r, Reals(lens), Reals(dirs))
  {
    if |lens| == 0 || |lens| != |dirs| {
      return 0.0;
    }
    assert lens[..|lens|] == lens && dirs[..|lens|] == dirs;
    r := Correlate(lens, dirs, |lens|, sqrt);
  }

  /** Lengths against the time to the next packet; 0 unless there is one length more. */
  method LengthIatCorrelation(lens: seq<int>, iats: seq<int>, sqrt: real -> real) returns (r: real)
    requires IsSqrt(sqrt)
    ensures -1.0 <= r <= 1.0
    ensures r == if |lens| != |iats| + 1 then 0.0 else Coefficient(Reals(lens[..|iats|]), Reals(iats), sqrt)
    ensures if |lens| != |iats| + 1 then r == 0.0 else Correlates(r, Reals(lens[..|iats|]), Reals(iats))
  {
    if |lens| != |iats| + 1 {
      return 0.0;
    }
    assert iats[..|iats|] == iats;
    r := Correlate(lens, iats, |iats|, sqrt);
  }
}
