/** Running mean and variance, updated value by value, against the batch formulas. */
module RunningStatistics {
  import opened RealAlgebra
  import opened RealSums
  import opened Moments

  datatype Stats = Stats(count: nat, mean: real, m2: real, m3: real, m4: real, min: real, max: real)

  const FAR: real := 1000000000000000000.0
  const NO_STATS := Stats(0, 0.0, 0.0, 0.0, 0.0, FAR, -FAR)

  function Step(s: Stats, x: real): Stats
  {
    var n := (s.count + 1) as real;
    var delta := x - s.mean;
    var mean := s.mean + Over(delta, n);
    var delta2 := x - mean;
    var delta3 := Times(delta, delta2);
    Stats(s.count + 1, mean, s.m2 + Times(delta, delta2),
          s.m3 + Times(delta3, delta2) - Over(3.0 * Times(Square(delta2), delta), n),
          s.m4 + Times(delta3, Square(delta2)) - Over(4.0 * Times(Times(delta3, delta2), delta), n)
          + Over(6.0 * Cube(delta2), Square(n)),
          if x < s.min then x else s.min, if x > s.max then x else s.max)
  }

  /** The statistics after all of `x`. */
  function StatsOf(x: seq<real>): Stats
  {
    if x == [] then NO_STATS else Step(StatsOf(x[..|x| - 1]), x[|x| - 1])
  }

  // --- The running values are the batch values ---

  /** The mean times the count is the sum, and `M2` is the sum of squared distances from the mean. */
  lemma {:induction false} RunningIsBatch(x: seq<real>)
    ensures var s := StatsOf(x);
            && s.count == |x|
            && Times(|x| as real, s.mean) == Sum(x)
            && s.m2 == SquaredDistance(x, s.mean) == SumSquares(x) - Times(|x| as real, Square(s.mean))
            && s.m2 >= 0.0
  {
    if x == [] {
      TimesZero(0.0);
    } else {
      var front, last := x[..|x| - 1], x[|x| - 1];
      var s, t := StatsOf(front), StatsOf(x);
      var n := |x| as real;
      RunningIsBatch(front);
      assert t.mean == s.mean + Over(last - s.mean, n) && t.m2 == s.m2 + Times(last - s.mean, last - t.mean);
      assert t.count == s.count + 1;
      hide *;
      OneMore(x);
      MeanMoves(|front| as real, s.mean, last);
      DistanceFromMean(x, t.mean);
      WelfordStep(n, s.mean, t.mean, last, SumSquares(front));
    }
  }

  lemma MeanMoves(n: real, mean: real, x: real)
    requires n >= 0.0
    ensures Times(n + 1.0, mean + Over(x - mean, n + 1.0)) == Times(n, mean) + x
  {
    Divide(x - mean, n + 1.0);
    Distribute(n + 1.0, mean, Over(x - mean, n + 1.0));
    Distribute(mean, n, 1.0);
    TimesOne(mean);
    hide *;
  }

  lemma DistanceFromMean(x: seq<real>, mean: real)
    requires Times(|x| as real, mean) == Sum(x)
    ensures SquaredDistance(x, mean) == SumSquares(x) - Times(|x| as real, Square(mean)) >= 0.0
  {
    DistanceExpanded(x, mean);
    MeanSquares(|x| as real, mean);
    hide *;
  }

  /** Both factors of an update are multiples of the move of the mean. */
  lemma WelfordStep(n: real, mean: real, mean': real, x: real, squares: real)
    requires Times(n, mean') == Times(n - 1.0, mean) + x
    ensures squares - Times(n - 1.0, Square(mean)) + Times(x - mean, x - mean') ==
            squares + Square(x) - Times(n, Square(mean'))
  {
    var e := mean' - mean;
    var d := Times(n, e);
    MoveOfValue(n, mean, mean', x);
    MoveProducts(n, mean, e);
    SquareOfSum(mean, d);
    SquareOfSum(mean, e);
    Distribute(n, Square(mean) + 2.0 * Times(mean, e), Square(e));
    Distribute(n, Square(mean), 2.0 * Times(mean, e));
    Multiples(n, Times(mean, e));
    Distribute(Square(mean), n, -1.0);
    assert mean' == mean + e;
    hide *;
  }

  lemma MoveOfValue(n: real, mean: real, mean': real, x: real)
    requires Times(n, mean') == Times(n - 1.0, mean) + x
    ensures x == mean + Times(n, mean' - mean)
  {
  }

  lemma MoveProducts(n: real, mean: real, e: real)
    ensures Times(Times(n, e), Times(n, e) - e) == Square(Times(n, e)) - Times(n, Square(e))
    ensures Times(mean, Times(n, e)) == Times(n, Times(mean, e))
    ensures Times(-1.0, Square(mean)) == -Square(mean)
  {
  }

  /** The running variance is the batch variance. */
  lemma RunningVarianceIsBatch(x: seq<real>)
    requires x != []
    ensures var s := StatsOf(x);
            && s.mean == Mean(x)
            && OnePassVariance(PowersOf(x), Mean(x)) == if |x| > 1 then Over(s.m2, |x| as real - 1.0) else 0.0
  {
    var s := StatsOf(x);
    RunningIsBatch(x);
    SumIsMean(x);
    hide StatsOf, Step, Mean, Times, Square, Over, Sum, SumSquares, SumCubes, SumFourths;
    Cancel(|x| as real, s.mean, Mean(x));
  }

  // --- Extremes ---

  /** The extremes bound all values, and are among them unless all values are far out. */
  lemma {:induction false} ExtremesBound(x: seq<real>)
    ensures var s := StatsOf(x);
            && (forall v <- x :: s.min <= v <= s.max) && s.min <= 1000000000000000000.0 && s.max >= -1000000000000000000.0
            && (s.min in x || s.min == 1000000000000000000.0) && (s.max in x || s.max == -1000000000000000000.0)
  {
    if x != [] {
      var front, last := x[..|x| - 1], x[|x| - 1];
      ExtremesBound(front);
      assert x == front + [last];
      var s, t := StatsOf(front), StatsOf(x);
      assert t.min == (if last < s.min then last else s.min) && t.max == if last > s.max then last else s.max;
      hide StatsOf, Step;
    }
  }

  lemma {:induction false} SumBounds(x: seq<real>, low: real, high: real)
    requires forall v <- x :: low <= v <= high
    ensures Times(|x| as real, low) <= Sum(x) <= Times(|x| as real, high)
  {
    if x == [] {
      TimesZero(low);
      TimesZero(high);
    } else {
      var front, last := x[..|x| - 1], x[|x| - 1];
      assert x == front + [last] && last in x && forall v <- front :: v in x;
      hide *;
      SumBounds(front, low, high);
      OneMore(x);
      Distribute(low, |front| as real, 1.0);
      Distribute(high, |front| as real, 1.0);
      TimesOne(low);
      TimesOne(high);
    }
  }

  /** The mean lies between the extremes. */
  lemma MeanBetweenExtremes(x: seq<real>)
    requires x != []
    ensures var s := StatsOf(x); s.min <= s.mean <= s.max
  {
    var s, n := StatsOf(x), |x| as real;
    RunningIsBatch(x);
    ExtremesBound(x);
    hide *;
    SumBounds(x, s.min, s.max);
    Distribute(n, s.mean, -s.min);
    Distribute(n, s.max, -s.mean);
    Negate(n, s.min);
    Negate(n, s.mean);
    FactorNonNegative(n, s.mean - s.min);
    FactorNonNegative(n, s.max - s.mean);
  }

  // --- The batch formula ---

  /** Mean and variance of an array in two sums. */
  method BatchVariance(x: seq<real>) returns (mean: real, variance: real)
    requires x != []
    ensures mean == Mean(x) && variance == OnePassVariance(PowersOf(x), Mean(x))
    ensures Times(|x| as real, mean) == Sum(x)
    ensures if |x| == 1 then variance == 0.0 else Times(|x| as real - 1.0, variance) == SquaredDistance(x, mean)
  {
    VarianceTimes(x);
    var sum, sumSq, i := 0.0, 0.0, 0;
    while i < |x|
      invariant 0 <= i <= |x| && sum == Sum(x[..i]) && sumSq == SumSquares(x[..i])
    {
      assert x[..i + 1][..i] == x[..i];
      hide Square;
      sum := sum + x[i];
      sumSq := sumSq + Square(x[i]);
      i := i + 1;
    }
    assert x[..i] == x;
    var count := |x| as real;
    mean := Over(sum, count);
    variance := if |x| > 1 then Over(sumSq - Times(count, Square(mean)), count - 1.0) else 0.0;
  }

  // --- The class ---

  class RunningStats {
    var mean: real
    var m2: real
    var m3: real
    var m4: real
    var minVal: real
    var maxVal: real
    var count: nat

    function AsStats(): Stats
      reads this
    {
      Stats(count, mean, m2, m3, m4, minVal, maxVal)
    }

    method Init()
      modifies this
      ensures AsStats() == NO_STATS
    {
      mean, m2, m3, m4 := 0.0, 0.0, 0.0, 0.0;
      minVal, maxVal := FAR, -FAR;
      count := 0;
    }

    method Update(x: real)
      modifies this
      ensures AsStats() == Step(old(AsStats()), x)
    {
      count := count + 1;
      var n := count as real;
      var delta := x - mean;
      mean := mean + Over(delta, n);
      var delta2 := x - mean;
      var delta3 := Times(delta, delta2);
      SquarePositive(n);
      m2 := m2 + Times(delta, delta2);
      m3 := m3 + (Times(delta3, delta2) - Over(3.0 * Times(Square(delta2), delta), n));
      m4 := m4 + (Times(delta3, Square(delta2)) - Over(4.0 * Times(Times(delta3, delta2), delta), n)
                  + Over(6.0 * Cube(delta2), Square(n)));
      if x < minVal {
        minVal := x;
      }
      if x > maxVal {
        maxVal := x;
      }
    }

    /** The sample variance; for statistics of `x`, exactly what the batch formula gives for `x`. */
    method Variance(ghost x: seq<real>) returns (v: real)
      requires AsStats() == StatsOf(x)
      ensures x == [] ==> v == 0.0
      ensures x != [] ==> v == OnePassVariance(PowersOf(x), Mean(x)) >= 0.0
      ensures |x| == 1 ==> v == 0.0
      ensures |x| > 1 ==> Times(|x| as real - 1.0, v) == SquaredDistance(x, Mean(x))
    {
      if x != [] {
        VarianceTimes(x);
      }
      RunningIsBatch(x);
      if x != [] {
        RunningVarianceIsBatch(x);
        OnePassVarianceIsExact(x);
      }
      hide *;
      return if count > 1 then Over(m2, count as real - 1.0) else 0.0;
    }
  }
}
