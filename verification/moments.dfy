/** Moments of a spectrum: the formulas on power sums against those on distances from the mean. */
module Moments {
  import opened RealAlgebra
  import opened RealSums

  function SumCubes(x: seq<real>): real
  {
    if x == [] then 0.0 else SumCubes(x[..|x| - 1]) + Cube(x[|x| - 1])
  }

  function SumFourths(x: seq<real>): real
  {
    if x == [] then 0.0 else SumFourths(x[..|x| - 1]) + Fourth(x[|x| - 1])
  }

  function Mean(x: seq<real>): real
    requires x != []
  {
    Over(Sum(x), |x| as real)
  }

  /** Sums of third and fourth powers of the distances from `c`, each divided by `scale`. */
  function Scores3(x: seq<real>, c: real, scale: real): real
    requires scale != 0.0
  {
    if x == [] then 0.0 else Scores3(x[..|x| - 1], c, scale) + Cube(Over(x[|x| - 1] - c, scale))
  }

  function Scores4(x: seq<real>, c: real, scale: real): real
    requires scale != 0.0
  {
    if x == [] then 0.0 else Scores4(x[..|x| - 1], c, scale) + Fourth(Over(x[|x| - 1] - c, scale))
  }

  // --- Powers of distances ---

  /** Sums of third and fourth powers of the distances from `c`. */
  function CubedDistance(x: seq<real>, c: real): real
  {
    if x == [] then 0.0 else CubedDistance(x[..|x| - 1], c) + Cube(x[|x| - 1] - c)
  }

  function FourthDistance(x: seq<real>, c: real): real
  {
    if x == [] then 0.0 else FourthDistance(x[..|x| - 1], c) + Fourth(x[|x| - 1] - c)
  }

  /** Sum of the distances themselves. */
  function Offset(x: seq<real>, c: real): real
  {
    Sum(x) - Times(|x| as real, c)
  }

  lemma DistancesOfOneMore(x: seq<real>, c: real)
    requires x != []
    ensures var n := |x| - 1;
            && Offset(x, c) == Offset(x[..n], c) + (x[n] - c)
            && SquaredDistance(x, c) == SquaredDistance(x[..n], c) + Square(x[n] - c)
            && CubedDistance(x, c) == CubedDistance(x[..n], c) + Cube(x[n] - c)
            && FourthDistance(x, c) == FourthDistance(x[..n], c) + Fourth(x[n] - c)
            && |x| as real == |x[..n]| as real + 1.0
  {
    Distribute(c, |x[..|x| - 1]| as real, 1.0);
    TimesOne(c);
    hide Times, Square, Cube, Fourth;
  }

  lemma NoDistances(c: real)
    ensures Offset([], c) == 0.0 && CubedDistance([], c) == 0.0 && FourthDistance([], c) == 0.0
  {
    TimesZero(c);
  }

  /** Third powers of the distances from a point that is `e` further on. */
  lemma {:induction false} CubedShift(x: seq<real>, c: real, e: real)
    ensures CubedDistance(x, c + e) == CubedDistance(x, c) - 3.0 * Times(e, SquaredDistance(x, c))
                                       + 3.0 * Times(Square(e), Offset(x, c)) - Times(Cube(e), |x| as real)
  {
    if x == [] {
      NoDistances(c);
      TimesZero(e);
      TimesZero(Square(e));
      TimesZero(Cube(e));
      hide Times, Cube, Square, Offset;
    } else {
      hide *;
      var front, d := x[..|x| - 1], x[|x| - 1] - c;
      CubedShift(front, c, e);
      DistancesOfOneMore(x, c);
      DistancesOfOneMore(x, c + e);
      CubeOfDifference(d, e);
      assert x[|x| - 1] - (c + e) == d - e;
      Distribute(e, SquaredDistance(front, c), Square(d));
      Distribute(Square(e), Offset(front, c), d);
      Distribute(Cube(e), |front| as real, 1.0);
      TimesOne(Cube(e));
    }
  }

  lemma {:induction false} FourthShift(x: seq<real>, c: real, e: real)
    ensures FourthDistance(x, c + e) == FourthDistance(x, c) - 4.0 * Times(e, CubedDistance(x, c))
                                        + 6.0 * Times(Square(e), SquaredDistance(x, c))
                                        - 4.0 * Times(Cube(e), Offset(x, c)) + Times(Fourth(e), |x| as real)
  {
    if x == [] {
      NoDistances(c);
      TimesZero(e);
      TimesZero(Square(e));
      TimesZero(Cube(e));
      TimesZero(Fourth(e));
      hide Times, Cube, Square, Fourth, Offset;
    } else {
      hide *;
      var front, d := x[..|x| - 1], x[|x| - 1] - c;
      FourthShift(front, c, e);
      DistancesOfOneMore(x, c);
      DistancesOfOneMore(x, c + e);
      FourthOfDifference(d, e);
      assert x[|x| - 1] - (c + e) == d - e;
      Distribute(e, CubedDistance(front, c), Cube(d));
      Distribute(Square(e), SquaredDistance(front, c), Square(d));
      Distribute(Cube(e), Offset(front, c), d);
      Distribute(Fourth(e), |front| as real, 1.0);
      TimesOne(Fourth(e));
    }
  }

  /** Distances from 0 are the values. */
  lemma {:induction false} DistancesFromZero(x: seq<real>)
    ensures Offset(x, 0.0) == Sum(x) && SquaredDistance(x, 0.0) == SumSquares(x)
    ensures CubedDistance(x, 0.0) == SumCubes(x) && FourthDistance(x, 0.0) == SumFourths(x)
  {
    TimesZero(|x| as real);
    if x != [] {
      DistancesFromZero(x[..|x| - 1]);
    }
    hide Times, Square, Cube, Fourth;
  }

  // --- Scores ---

  lemma PowersOfQuotient(x: real, d: real)
    requires d != 0.0
    ensures Times(Cube(d), Cube(Over(x, d))) == Cube(x)
    ensures Times(Fourth(d), Fourth(Over(x, d))) == Fourth(x)
  {
    hide *;
    Divide(x, d);
    PowersOfProduct(d, Over(x, d));
  }

  /** Scores are distances over the scale. */
  lemma {:induction false} ScoresAreDistances(x: seq<real>, c: real, d: real)
    requires d != 0.0
    ensures Times(Cube(d), Scores3(x, c, d)) == CubedDistance(x, c)
    ensures Times(Fourth(d), Scores4(x, c, d)) == FourthDistance(x, c)
  {
    if x == [] {
      TimesZero(Cube(d));
      TimesZero(Fourth(d));
      hide Times, Cube, Fourth;
    } else {
      var front, last := x[..|x| - 1], x[|x| - 1];
      assert Scores3(x, c, d) == Scores3(front, c, d) + Cube(Over(last - c, d));
      assert Scores4(x, c, d) == Scores4(front, c, d) + Fourth(Over(last - c, d));
      hide *;
      ScoresAreDistances(front, c, d);
      DistancesOfOneMore(x, c);
      PowersOfQuotient(last - c, d);
      Distribute(Cube(d), Scores3(front, c, d), Cube(Over(last - c, d)));
      Distribute(Fourth(d), Scores4(front, c, d), Fourth(Over(last - c, d)));
    }
  }

  /** Scaled distances in terms of power sums. */
  lemma Scores3Expanded(x: seq<real>, c: real, d: real)
    requires d != 0.0
    ensures Times(Cube(d), Scores3(x, c, d)) ==
            SumCubes(x) - 3.0 * Times(c, SumSquares(x)) + 3.0 * Times(Square(c), Sum(x)) - Times(Cube(c), |x| as real)
  {
    hide *;
    ScoresAreDistances(x, c, d);
    DistancesFromZero(x);
    CubedShift(x, 0.0, c);
    assert 0.0 + c == c;
  }

  lemma Scores4Expanded(x: seq<real>, c: real, d: real)
    requires d != 0.0
    ensures Times(Fourth(d), Scores4(x, c, d)) ==
            SumFourths(x) - 4.0 * Times(c, SumCubes(x)) + 6.0 * Times(Square(c), SumSquares(x))
            - 4.0 * Times(Cube(c), Sum(x)) + Times(Fourth(c), |x| as real)
  {
    hide *;
    ScoresAreDistances(x, c, d);
    DistancesFromZero(x);
    FourthShift(x, 0.0, c);
    assert 0.0 + c == c;
  }

  // --- The formulas ---

  /** Sums of the first four powers. */
  datatype Powers = Powers(n: real, s1: real, s2: real, s3: real, s4: real)

  function PowersOf(x: seq<real>): Powers
  {
    Powers(|x| as real, Sum(x), SumSquares(x), SumCubes(x), SumFourths(x))
  }

  /** The sample variance, from two of the sums. */
  function OnePassVariance(p: Powers, mean: real): real
  {
    if p.n > 1.0 then Over(p.s2 - Times(p.n, Square(mean)), p.n - 1.0) else 0.0
  }

  /** The third and fourth central moments, from the sums. */
  function ThirdMoment(p: Powers, mean: real): real
    requires p.n != 0.0
  {
    Over(p.s3, p.n) - Over(3.0 * Times(mean, p.s2), p.n) + 2.0 * Cube(mean)
  }

  function FourthMoment(p: Powers, mean: real): real
    requires p.n != 0.0
  {
    Over(p.s4, p.n) - Over(4.0 * Times(mean, p.s3), p.n) + Over(6.0 * Times(Square(mean), p.s2), p.n) - 3.0 * Fourth(mean)
  }

  lemma SumIsMean(x: seq<real>)
    requires x != []
    ensures Sum(x) == Times(|x| as real, Mean(x))
  {
    Divide(Sum(x), |x| as real);
  }

  /** The variance formula is the mean squared distance, so it is never negative and clamping it has
      no effect. */
  lemma OnePassVarianceIsExact(x: seq<real>)
    requires x != []
    ensures var v := OnePassVariance(PowersOf(x), Mean(x));
            v >= 0.0 && (|x| > 1 ==> Times(|x| as real - 1.0, v) == SquaredDistance(x, Mean(x)))
  {
    var n, m := |x| as real, Mean(x);
    SumIsMean(x);
    DistanceExpanded(x, m);
    MeanSquares(n, m);
    hide Times, Square, Over, Mean, Sum, SumSquares, SquaredDistance, SumCubes, SumFourths;
    if |x| > 1 {
      Divide(SumSquares(x) - Times(n, Square(m)), n - 1.0);
      FactorNonNegative(n - 1.0, OnePassVariance(PowersOf(x), m));
    }
  }

  lemma MeanSquares(n: real, m: real)
    ensures Times(m, Times(n, m)) == Times(n, Square(m))
    ensures Times(Square(m), Times(n, m)) == Times(n, Cube(m)) == Times(Cube(m), n)
    ensures Times(Cube(m), Times(n, m)) == Times(n, Fourth(m)) == Times(Fourth(m), n)
  {
  }

  lemma PowersAre(x: seq<real>)
    ensures PowersOf(x) == Powers(|x| as real, Sum(x), SumSquares(x), SumCubes(x), SumFourths(x))
  {
  }

  /** The moment formulas, freed of their denominators. */
  lemma ThirdMomentTimes(p: Powers, mean: real)
    requires p.n != 0.0
    ensures Times(p.n, ThirdMoment(p, mean)) == p.s3 - 3.0 * Times(mean, p.s2) + 2.0 * Times(p.n, Cube(mean))
  {
    var n, a, b := p.n, Over(p.s3, p.n), Over(3.0 * Times(mean, p.s2), p.n);
    assert ThirdMoment(p, mean) == a - b + 2.0 * Cube(mean);
    hide *;
    Divide(p.s3, n);
    Divide(3.0 * Times(mean, p.s2), n);
    Distribute(n, a - b, 2.0 * Cube(mean));
    Distribute(n, a, -b);
    Negate(n, b);
    Multiples(n, Cube(mean));
  }

  lemma FourthMomentTimes(p: Powers, mean: real)
    requires p.n != 0.0
    ensures Times(p.n, FourthMoment(p, mean)) ==
            p.s4 - 4.0 * Times(mean, p.s3) + 6.0 * Times(Square(mean), p.s2) - 3.0 * Times(p.n, Fourth(mean))
  {
    var n, a, b := p.n, Over(p.s4, p.n), Over(4.0 * Times(mean, p.s3), p.n);
    var c := Over(6.0 * Times(Square(mean), p.s2), p.n);
    assert FourthMoment(p, mean) == a - b + c - 3.0 * Fourth(mean);
    hide *;
    Divide(p.s4, n);
    Divide(4.0 * Times(mean, p.s3), n);
    Divide(6.0 * Times(Square(mean), p.s2), n);
    Distribute(n, a - b + c, -(3.0 * Fourth(mean)));
    Distribute(n, a - b, c);
    Distribute(n, a, -b);
    Negate(n, b);
    Negate(n, 3.0 * Fourth(mean));
    Multiples(n, Fourth(mean));
  }

  /** The skewness formula equals the mean cubed score. */
  lemma OnePassSkewIsExact(x: seq<real>, std: real)
    requires x != [] && std != 0.0 && Cube(std) != 0.0
    ensures PowersOf(x).n == |x| as real
    ensures Over(ThirdMoment(PowersOf(x), Mean(x)), Cube(std)) == Over(Scores3(x, Mean(x), std), |x| as real)
  {
    hide *;
    var n, m, p := |x| as real, Mean(x), PowersOf(x);
    PowersAre(x);
    SumIsMean(x);
    MeanSquares(n, m);
    Scores3Expanded(x, m, std);
    ThirdMomentTimes(p, m);
    CrossQuotients(ThirdMoment(p, m), Cube(std), Scores3(x, m, std), n);
  }

  /** The kurtosis formula equals the mean fourth power of the scores. */
  lemma OnePassKurtIsExact(x: seq<real>, std: real)
    requires x != [] && std != 0.0 && Fourth(std) != 0.0
    ensures PowersOf(x).n == |x| as real
    ensures Over(FourthMoment(PowersOf(x), Mean(x)), Fourth(std)) == Over(Scores4(x, Mean(x), std), |x| as real)
  {
    hide *;
    var n, m, p := |x| as real, Mean(x), PowersOf(x);
    PowersAre(x);
    SumIsMean(x);
    MeanSquares(n, m);
    Scores4Expanded(x, m, std);
    FourthMomentTimes(p, m);
    CrossQuotients(FourthMoment(p, m), Fourth(std), Scores4(x, m, std), n);
  }

  // --- The two-pass functions ---

  function TwoPassSkew(x: seq<real>, mean: real, std: real): real
  {
    if |x| < 3 || std == 0.0 then 0.0 else Over(Scores3(x, mean, std), |x| as real)
  }

  function TwoPassKurt(x: seq<real>, mean: real, std: real): real
  {
    if |x| < 4 || std == 0.0 then 0.0 else Over(Scores4(x, mean, std), |x| as real) - 3.0
  }

  /** What the quotients mean: powers of distances, spread over the values and in units of the deviation. */
  lemma SkewTimes(x: seq<real>, mean: real, std: real)
    ensures |x| < 3 || std == 0.0 ==> TwoPassSkew(x, mean, std) == 0.0
    ensures |x| >= 3 && std != 0.0 ==>
              Times(Times(|x| as real, Cube(std)), TwoPassSkew(x, mean, std)) == CubedDistance(x, mean)
  {
    if |x| >= 3 && std != 0.0 {
      ScoresAreDistances(x, mean, std);
      QuotientTimes(Scores3(x, mean, std), |x| as real, Cube(std));
      hide Scores3, CubedDistance, Cube, Times, Over;
    }
  }

  lemma KurtTimes(x: seq<real>, mean: real, std: real)
    ensures |x| < 4 || std == 0.0 ==> TwoPassKurt(x, mean, std) == 0.0
    ensures |x| >= 1 && std != 0.0 ==>
              Times(Times(|x| as real, Fourth(std)), Over(Scores4(x, mean, std), |x| as real)) == FourthDistance(x, mean)
    ensures |x| >= 4 && std != 0.0 ==>
              Times(Times(|x| as real, Fourth(std)), TwoPassKurt(x, mean, std) + 3.0) == FourthDistance(x, mean)
  {
    if |x| >= 1 && std != 0.0 {
      ScoresAreDistances(x, mean, std);
      QuotientTimes(Scores4(x, mean, std), |x| as real, Fourth(std));
      hide Scores4, FourthDistance, Fourth, Times, Over;
    }
  }

  lemma QuotientTimes(sum: real, n: real, unit: real)
    requires n != 0.0
    ensures Times(Times(n, unit), Over(sum, n)) == Times(unit, sum)
  {
    hide *;
    Divide(sum, n);
    Commute(n, unit);
    Associate(unit, n, Over(sum, n));
  }

  lemma VarianceTimes(x: seq<real>)
    requires x != []
    ensures var variance := OnePassVariance(PowersOf(x), Mean(x));
            && Times(|x| as real, Mean(x)) == Sum(x) && variance >= 0.0
            && (|x| == 1 ==> variance == 0.0)
            && (|x| > 1 ==> Times(|x| as real - 1.0, variance) == SquaredDistance(x, Mean(x)))
  {
    OnePassVarianceIsExact(x);
    Divide(Sum(x), |x| as real);
    hide Times, Square, Over, SquaredDistance, Sum, SumSquares, SumCubes, SumFourths;
  }

  method CalcSkewness(arr: seq<real>, mean: real, std: real) returns (skew: real)
    ensures skew == TwoPassSkew(arr, mean, std)
    ensures |arr| < 3 || std == 0.0 ==> skew == 0.0
    ensures |arr| >= 3 && std != 0.0 ==> Times(Times(|arr| as real, Cube(std)), skew) == CubedDistance(arr, mean)
  {
    SkewTimes(arr, mean, std);
    hide CubedDistance;
    if |arr| < 3 || std == 0.0 {
      return 0.0;
    }
    var sum, i := 0.0, 0;
    while i < |arr|
      invariant 0 <= i <= |arr| && sum == Scores3(arr[..i], mean, std)
    {
      assert arr[..i + 1][..i] == arr[..i];
      hide Cube, Over;
      var z := Over(arr[i] - mean, std);
      sum := sum + Cube(z);
      i := i + 1;
    }
    assert arr[..i] == arr;
    return Over(sum, |arr| as real);
  }

  method CalcKurtosis(arr: seq<real>, mean: real, std: real) returns (kurt: real)
    ensures kurt == TwoPassKurt(arr, mean, std)
    ensures |arr| < 4 || std == 0.0 ==> kurt == 0.0
    ensures |arr| >= 4 && std != 0.0 ==> Times(Times(|arr| as real, Fourth(std)), kurt + 3.0) == FourthDistance(arr, mean)
  {
    KurtTimes(arr, mean, std);
    hide FourthDistance;
    if |arr| < 4 || std == 0.0 {
      return 0.0;
    }
    var sum, i := 0.0, 0;
    while i < |arr|
      invariant 0 <= i <= |arr| && sum == Scores4(arr[..i], mean, std)
    {
      assert arr[..i + 1][..i] == arr[..i];
      hide Fourth, Over;
      var z := Over(arr[i] - mean, std);
      sum := sum + Fourth(z);
      i := i + 1;
    }
    assert arr[..i] == arr;
    return Over(sum, |arr| as real) - 3.0;
  }

  // --- The statistics of a spectrum ---

  datatype FftStats = FftStats(mean: real, std: real, min: real, max: real, median: real, q1: real, q3: real,
                               skew: real, kurt: real)

  const NO_FFT_STATS := FftStats(0.0, 0.0, 0.0, 0.0, 0.0, 0.0, 0.0, 0.0, 0.0)

  /** The standard deviation of a sequence, given its mean. */
  ghost predicate IsDeviation(x: seq<real>, std: real)
    requires x != []
  {
    std >= 0.0 && Square(std) == OnePassVariance(PowersOf(x), Mean(x))
  }

  /** `qsort` as far as it matters: a sorted permutation. */
  ghost predicate IsSort(qsort: seq<real> -> seq<real>)
  {
    forall s: seq<real> :: Sorted(qsort(s)) && multiset(qsort(s)) == multiset(s)
  }

  /** The smallest and the largest value, and the values at one, two and three quarters of the order. */
  ghost predicate IsSpread(x: seq<real>, sorted: seq<real>, r: FftStats)
  {
    && 0 < |sorted| == |x|
    && r.min == sorted[0] && r.max == sorted[|x| - 1]
    && r.q1 == sorted[|x| / 4] && r.median == sorted[|x| / 2] && r.q3 == sorted[3 * |x| / 4]
    && r.min <= r.q1 <= r.median <= r.q3 <= r.max
  }

  /** One pass over the magnitudes, and a sorted copy; -1 if there are none, or no memory for the copy. */
  method ComputeStatistics(x: seq<real>, sqrt: real -> real, qsort: seq<real> -> seq<real>, mallocOk: bool)
    returns (status: int, r: FftStats)
    requires IsSqrt(sqrt) && IsSort(qsort)
    ensures status == if x == [] || !mallocOk then -1 else 0
    ensures status == 0 ==> && r.mean == Mean(x) && IsDeviation(x, r.std)
                            && IsSpread(x, qsort(x), r)
                            && r.skew == TwoPassSkew(x, r.mean, r.std)
                            && r.kurt == if r.std == 0.0 then 0.0 else Over(Scores4(x, r.mean, r.std), |x| as real) - 3.0
    ensures status == 0 ==>
              var n, sorted := |x| as real, qsort(x);
              && Times(n, r.mean) == Sum(x) && r.std >= 0.0
              && (if |x| == 1 then r.std == 0.0 else Times(n - 1.0, Square(r.std)) == SquaredDistance(x, r.mean))
              && |sorted| == |x| && r.min == sorted[0] && r.max == sorted[|x| - 1]
              && r.q1 == sorted[|x| / 4] && r.median == sorted[|x| / 2] && r.q3 == sorted[3 * |x| / 4]
              && (if |x| < 3 || r.std == 0.0 then r.skew == 0.0
                  else Times(Times(n, Cube(r.std)), r.skew) == CubedDistance(x, r.mean))
              && (if r.std == 0.0 then r.kurt == 0.0
                  else Times(Times(n, Fourth(r.std)), r.kurt + 3.0) == FourthDistance(x, r.mean))
  {
    status, r := SpectrumStatistics(x, sqrt, qsort, mallocOk);
    if status == 0 {
      DeviationTimes(x, r.std);
      SkewTimes(x, r.mean, r.std);
      KurtTimes(x, r.mean, r.std);
      hide *;
      SpreadIs(x, qsort(x), r);
    }
  }

  lemma DeviationTimes(x: seq<real>, std: real)
    requires x != [] && IsDeviation(x, std)
    ensures Times(|x| as real, Mean(x)) == Sum(x) && std >= 0.0
    ensures if |x| == 1 then std == 0.0 else Times(|x| as real - 1.0, Square(std)) == SquaredDistance(x, Mean(x))
  {
    VarianceTimes(x);
    SquareSigns(std);
    hide OnePassVariance, Mean, Times, Square, SquaredDistance, Sum;
  }

  lemma SpreadIs(x: seq<real>, sorted: seq<real>, r: FftStats)
    requires IsSpread(x, sorted, r)
    ensures |sorted| == |x| > 0 && r.min == sorted[0] && r.max == sorted[|x| - 1]
    ensures r.q1 == sorted[|x| / 4] && r.median == sorted[|x| / 2] && r.q3 == sorted[3 * |x| / 4]
  {
  }

  method SpectrumStatistics(x: seq<real>, sqrt: real -> real, qsort: seq<real> -> seq<real>, mallocOk: bool)
    returns (status: int, r: FftStats)
    requires IsSqrt(sqrt) && IsSort(qsort)
    ensures status == if x == [] || !mallocOk then -1 else 0
    ensures status == 0 ==> && r.mean == Mean(x) && IsDeviation(x, r.std)
                            && IsSpread(x, qsort(x), r)
                            && r.skew == TwoPassSkew(x, r.mean, r.std)
                            && r.kurt == if r.std == 0.0 then 0.0 else Over(Scores4(x, r.mean, r.std), |x| as real) - 3.0
  {
    if |x| == 0 || !mallocOk {
      return -1, NO_FFT_STATS;
    }
    var sorted := qsort(x);
    SortedIsPermutation(x, qsort);
    var p, min, max := Accumulate(x);
    EndsOfSorted(x, sorted, min, max);
    var mean := Over(p.s1, p.n);
    var variance := OnePassVariance(p, mean);
    OnePassVarianceIsExact(x);
    if variance < 0.0 {
      variance := 0.0;
    }
    var std := sqrt(variance);
    assert IsDeviation(x, std) by {
      hide IsSort, Sorted, Mean, OnePassVariance;
    }
    var skew, kurt := SkewAndKurt(x, p, mean, variance, std);
    hide IsSqrt, IsSort, OnePassVariance, Mean, TwoPassSkew, Scores4;
    r := FftStats(mean, std, min, max, sorted[|x| / 2], sorted[|x| / 4], sorted[3 * |x| / 4], skew, kurt);
    return 0, r;
  }

  /** The quotients for skewness and kurtosis, both 0 without spread. */
  method SkewAndKurt(x: seq<real>, p: Powers, mean: real, variance: real, std: real) returns (skew: real, kurt: real)
    requires x != [] && p == PowersOf(x) && mean == Mean(x) && IsDeviation(x, std)
    requires variance == OnePassVariance(p, mean)
    ensures skew == TwoPassSkew(x, mean, std)
    ensures kurt == if std == 0.0 then 0.0 else Over(Scores4(x, mean, std), |x| as real) - 3.0
  {
    SquareSigns(std);
    PowersAre(x);
    hide OnePassVariance, Mean, Over, Times, Square, Scores3, Scores4, Cube, Fourth, PowersOf, ThirdMoment, FourthMoment;
    skew, kurt := 0.0, 0.0;
    if std > 0.0 {
      skew := Over(ThirdMoment(p, mean), Cube(std));
      OnePassSkewIsExact(x, std);
      ShortSkew(x, std);
    }
    if variance > 0.0 {
      kurt := Over(FourthMoment(p, mean), Square(variance)) - 3.0;
      OnePassKurtIsExact(x, std);
    }
  }

  lemma SortedIsPermutation(x: seq<real>, qsort: seq<real> -> seq<real>)
    requires IsSort(qsort)
    ensures Sorted(qsort(x)) && multiset(qsort(x)) == multiset(x) && |qsort(x)| == |x|
  {
    assert |multiset(qsort(x))| == |qsort(x)| && |multiset(x)| == |x|;
  }

  /** A sorted permutation starts with the minimum and ends with the maximum. */
  lemma EndsOfSorted(x: seq<real>, sorted: seq<real>, min: real, max: real)
    requires Sorted(sorted) && multiset(sorted) == multiset(x) && 0 < |sorted| == |x|
    requires min in x && max in x && forall v <- x :: min <= v <= max
    ensures sorted[0] == min && sorted[|x| - 1] == max
  {
    assert sorted[0] in multiset(sorted) && sorted[|x| - 1] in multiset(sorted);
    assert min in multiset(x) && max in multiset(x) && min in multiset(sorted) && max in multiset(sorted);
    assert sorted[0] in multiset(x) && sorted[|x| - 1] in multiset(x);
    assert sorted[0] in x && sorted[|x| - 1] in x;
    var i :| 0 <= i < |sorted| && sorted[i] == min;
    var j :| 0 <= j < |sorted| && sorted[j] == max;
  }

  lemma SquareSigns(d: real)
    requires d >= 0.0
    ensures Square(d) > 0.0 <==> d > 0.0
    ensures d > 0.0 ==> Cube(d) > 0.0 && Fourth(d) > 0.0
    ensures Fourth(d) == Square(Square(d))
  {
    assert Fourth(d) == Square(Square(d)) && Cube(d) == Times(Square(d), d);
    hide *;
    SquareZero();
    if d > 0.0 {
      SquarePositive(d);
      SquarePositive(Square(d));
      ProductPositive(Square(d), d);
    }
  }

  method Accumulate(x: seq<real>) returns (p: Powers, min: real, max: real)
    requires x != []
    ensures p == PowersOf(x)
    ensures min in x && max in x && forall v <- x :: min <= v <= max
  {
    var sum, sumSq, sumCube, sumQuad := 0.0, 0.0, 0.0, 0.0;
    min, max := x[0], x[0];
    var i := 0;
    while i < |x|
      invariant 0 <= i <= |x|
      invariant Powers(i as real, sum, sumSq, sumCube, sumQuad) == PowersOf(x[..i])
      invariant min in x && max in x && forall j :: 0 <= j < i ==> min <= x[j] <= max
    {
      assert x[..i + 1][..i] == x[..i];
      hide Square, Cube, Fourth;
      var v := x[i];
      sum := sum + v;
      sumSq := sumSq + Square(v);
      sumCube := sumCube + Cube(v);
      sumQuad := sumQuad + Fourth(v);
      if v < min {
        min := v;
      }
      if v > max {
        max := v;
      }
      i := i + 1;
    }
    assert x[..i] == x;
    p := Powers(|x| as real, sum, sumSq, sumCube, sumQuad);
  }

  // --- Short inputs ---

  lemma TwoTerms(x: seq<real>, c: real, d: real)
    requires |x| == 2 && d != 0.0
    ensures Sum(x) == x[0] + x[1]
    ensures SquaredDistance(x, c) == Square(x[0] - c) + Square(x[1] - c)
    ensures Scores3(x, c, d) == Cube(Over(x[0] - c, d)) + Cube(Over(x[1] - c, d))
    ensures Scores4(x, c, d) == Fourth(Over(x[0] - c, d)) + Fourth(Over(x[1] - c, d))
  {
    var y := x[..1];
    assert x[..|x| - 1] == y && y[..|y| - 1] == [] && y[0] == x[0];
    hide Square, Cube, Fourth, Over;
    assert Sum([]) == 0.0 && SquaredDistance([], c) == 0.0 && Scores3([], c, d) == 0.0 && Scores4([], c, d) == 0.0;
    assert Sum(y) == x[0] && SquaredDistance(y, c) == Square(x[0] - c);
    assert Scores3(y, c, d) == Cube(Over(x[0] - c, d)) && Scores4(y, c, d) == Fourth(Over(x[0] - c, d));
  }

  lemma ThreeTerms(x: seq<real>, c: real, d: real)
    requires |x| == 3 && d != 0.0
    ensures Sum(x) == x[0] + x[1] + x[2]
    ensures SquaredDistance(x, c) == Square(x[0] - c) + Square(x[1] - c) + Square(x[2] - c)
    ensures Scores4(x, c, d) == Fourth(Over(x[0] - c, d)) + Fourth(Over(x[1] - c, d)) + Fourth(Over(x[2] - c, d))
  {
    TwoTerms(x[..2], c, d);
    hide Square, Fourth, Over;
  }

  /** Scores of one or two values balance, so guarding the skewness against short inputs changes
      nothing. */
  lemma ShortSkew(x: seq<real>, std: real)
    requires 1 <= |x| && std > 0.0 && IsDeviation(x, std)
    ensures |x| < 3 ==> Over(Scores3(x, Mean(x), std), |x| as real) == 0.0
  {
    var m := Mean(x);
    SumIsMean(x);
    if |x| == 1 {
      SquareSigns(std);
    } else if |x| == 2 {
      TwoTerms(x, m, std);
      Opposite(x[0] - m, std);
      TimesTwo(m);
      OverTwo(0.0);
      assert x[1] - m == -(x[0] - m);
      hide *;
    }
  }

  lemma TimesTwo(m: real)
    ensures Times(2.0, m) == m + m && Times(3.0, m) == m + m + m
  {
  }

  lemma OverTwo(x: real)
    ensures Over(x, 2.0) == 0.5 * x
  {
  }

  lemma Opposite(a: real, d: real)
    requires d != 0.0
    ensures Cube(Over(a, d)) + Cube(Over(-a, d)) == 0.0
  {
    assert -a / d == -(a / d);
  }

  /** The guard of the kurtosis does matter: the unguarded formula agrees with the guarded one for four
      values or more, and is off by a constant for two and for three. */
  lemma KurtosisAgreesFromFour(x: seq<real>, std: real)
    requires x != [] && std > 0.0 && IsDeviation(x, std)
    ensures var kurt := Over(Scores4(x, Mean(x), std), |x| as real) - 3.0;
            && |x| >= 2
            && (|x| == 2 ==> kurt == -2.75)
            && (|x| == 3 ==> kurt == -7.0 / 3.0)
            && (kurt == TwoPassKurt(x, Mean(x), std) <==> |x| >= 4)
  {
    SquareSigns(std);
    if |x| == 2 {
      KurtosisOfTwo(x, std);
    } else if |x| == 3 {
      KurtosisOfThree(x, std);
    }
    hide Over, Scores4, Mean, Square, Fourth, Cube;
  }

  lemma TwoFourths(u: real, v: real)
    requires u + v == 0.0
    ensures 2.0 * (Fourth(u) + Fourth(v)) == Square(Square(u) + Square(v))
  {
    assert v == -u;
  }

  lemma ThreeFourths(u: real, v: real, w: real)
    requires u + v + w == 0.0
    ensures 2.0 * (Fourth(u) + Fourth(v) + Fourth(w)) == Square(Square(u) + Square(v) + Square(w))
  {
    assert w == -(u + v);
  }

  lemma KurtosisOfTwo(x: seq<real>, std: real)
    requires |x| == 2 && std > 0.0 && IsDeviation(x, std)
    ensures Over(Scores4(x, Mean(x), std), 2.0) == 0.25
  {
    var m, d2 := Mean(x), SquaredDistance(x, Mean(x));
    var u, v := x[0] - m, x[1] - m;
    OnePassVarianceIsExact(x);
    SumIsMean(x);
    TwoTerms(x, m, std);
    SquareSigns(std);
    TimesOne(Square(std));
    assert Square(std) == d2;
    hide *;
    TimesTwo(m);
    TwoFourths(u, v);
    PowersOfQuotient(u, std);
    PowersOfQuotient(v, std);
    Distribute(Fourth(std), Fourth(Over(u, std)), Fourth(Over(v, std)));
    Multiples(Fourth(std), 1.0);
    TimesOne(Fourth(std));
    Cancel(Fourth(std), Scores4(x, m, std), 0.5);
    OverTwo(0.5);
  }

  lemma KurtosisOfThree(x: seq<real>, std: real)
    requires |x| == 3 && std > 0.0 && IsDeviation(x, std)
    ensures Over(Scores4(x, Mean(x), std), 3.0) == 2.0 / 3.0
  {
    var m, d2 := Mean(x), SquaredDistance(x, Mean(x));
    var u, v, w := x[0] - m, x[1] - m, x[2] - m;
    OnePassVarianceIsExact(x);
    SumIsMean(x);
    ThreeTerms(x, m, std);
    SquareSigns(std);
    TwiceSquared(std, d2);
    hide *;
    TimesTwo(m);
    ThreeFourths(u, v, w);
    PowersOfQuotient(u, std);
    PowersOfQuotient(v, std);
    PowersOfQuotient(w, std);
    Distribute(Fourth(std), Fourth(Over(u, std)) + Fourth(Over(v, std)), Fourth(Over(w, std)));
    Distribute(Fourth(std), Fourth(Over(u, std)), Fourth(Over(v, std)));
    Multiples(Fourth(std), 1.0);
    TimesOne(Fourth(std));
    Cancel(Fourth(std), Scores4(x, m, std), 2.0);
    OverThree();
  }

  lemma TwiceSquared(std: real, d2: real)
    requires Times(3.0 - 1.0, Square(std)) == d2
    ensures Square(d2) == 4.0 * Fourth(std)
  {
  }

  lemma OverThree()
    ensures Over(2.0, 3.0) == 2.0 / 3.0
  {
  }
}
