/** What the running sums `M3` and `M4` hold: not the sums of third and fourth powers of the distances
    from the mean, but those plus a drift. */
module HigherMoments {
  import opened RealAlgebra
  import opened RealSums
  import opened Moments
  import opened RunningStatistics

  /** How far the mean moves when `x` arrives. */
  function Move(s: Stats, x: real): real
  {
    Over(x - s.mean, s.count as real + 1.0)
  }

  /** What the arrival of `x` adds to the error of `M3`. */
  function ThirdDriftStep(s: Stats, x: real): real
  {
    var n, e := s.count as real, Move(s, x);
    3.0 * Times(e, s.m2) - Times(Times(n, 2.0 * n - 1.0), Cube(e))
  }

  function ThirdDrift(x: seq<real>): real
  {
    if x == [] then 0.0
    else
      var front := x[..|x| - 1];
      ThirdDrift(front) + ThirdDriftStep(StatsOf(front), x[|x| - 1])
  }

  /** What the arrival of `x` adds to the error of `M4`, given the sum of cubed distances before it. */
  function FourthDriftStep(s: Stats, cubes: real, x: real): real
  {
    var n, e := s.count as real, Move(s, x);
    SquarePositive(n + 1.0);
    4.0 * Times(e, cubes) - 6.0 * Times(Square(e), s.m2) - FourthCoefficient(n, Fourth(e))
    + Over(6.0 * Times(Cube(n), Cube(e)), Square(n + 1.0))
  }

  /** `(3n^3 + 4n^2 + n) * f`. */
  function FourthCoefficient(n: real, f: real): real
  {
    3.0 * Times(Cube(n), f) + 4.0 * Times(Square(n), f) + Times(n, f)
  }

  function FourthDrift(x: seq<real>): real
  {
    if x == [] then 0.0
    else
      var front := x[..|x| - 1];
      FourthDrift(front) + FourthDriftStep(StatsOf(front), CubedDistance(front, StatsOf(front).mean), x[|x| - 1])
  }

  // --- One update ---

  /** Both distances of an arriving value are multiples of the move of the mean. */
  lemma MoveFacts(s: Stats, x: real)
    ensures var n, e := s.count as real, Move(s, x);
            && Step(s, x).mean == s.mean + e
            && x - s.mean == Times(n + 1.0, e)
            && x - Step(s, x).mean == Times(n, e)
  {
    var n, e := s.count as real, Move(s, x);
    assert Step(s, x).mean == s.mean + e && e == Over(x - s.mean, n + 1.0);
    hide *;
    Divide(x - s.mean, n + 1.0);
    Distribute(e, n, 1.0);
    TimesOne(e);
  }

  /** What an update adds to `M3` and to `M4`. */
  lemma UpdateGains(s: Stats, x: real)
    ensures var n, e := s.count as real, Move(s, x);
            && Square(n + 1.0) != 0.0
            && Step(s, x).m3 == s.m3 + Times(Times(n + 1.0, Square(n)), Cube(e)) - 3.0 * Times(Square(n), Cube(e))
            && Step(s, x).m4 == s.m4 + Times(Times(n + 1.0, Cube(n)), Fourth(e))
                                - 4.0 * Times(Times(n + 1.0, Square(n)), Fourth(e))
                                + Over(6.0 * Times(Cube(n), Cube(e)), Square(n + 1.0))
  {
    var n, e := s.count as real, Move(s, x);
    var delta, delta2 := x - s.mean, x - Step(s, x).mean;
    var delta3 := Times(delta, delta2);
    SquarePositive(n + 1.0);
    assert Step(s, x).m3 == s.m3 + (Times(delta3, delta2) - Over(3.0 * Times(Square(delta2), delta), n + 1.0));
    assert Step(s, x).m4 == s.m4 + (Times(delta3, Square(delta2)) - Over(4.0 * Times(Times(delta3, delta2), delta), n + 1.0)
                                    + Over(6.0 * Cube(delta2), Square(n + 1.0)));
    hide *;
    MoveFacts(s, x);
    GainMonomials(n, n + 1.0, e);
    OverTimes(n + 1.0, 3.0 * Times(Square(n), Cube(e)));
    OverTimes(n + 1.0, 4.0 * Times(Times(n + 1.0, Square(n)), Fourth(e)));
  }

  lemma GainMonomials(n: real, k: real, e: real)
    ensures var delta, delta2 := Times(k, e), Times(n, e);
            var delta3 := Times(delta, delta2);
            && Times(delta3, delta2) == Times(Times(k, Square(n)), Cube(e))
            && 3.0 * Times(Square(delta2), delta) == Times(k, 3.0 * Times(Square(n), Cube(e)))
            && Times(delta3, Square(delta2)) == Times(Times(k, Cube(n)), Fourth(e))
            && 4.0 * Times(Times(delta3, delta2), delta) == Times(k, 4.0 * Times(Times(k, Square(n)), Fourth(e)))
            && Cube(delta2) == Times(Cube(n), Cube(e))
  {
    var delta, delta2 := Times(k, e), Times(n, e);
    var delta3 := Times(delta, delta2);
    hide *;
    PowersOfProduct(n, e);
    PowersAsProducts(n);
    PowersAsProducts(e);
    Regroup(k, e, n, e);
    Regroup(Times(k, n), Square(e), n, e);
    Associate(k, n, n);
    Regroup(Square(n), Square(e), k, e);
    Commute(Square(n), k);
    Associate(k, Square(n), Cube(e));
    Multiples(k, Times(Square(n), Cube(e)));
    Regroup(Times(k, n), Square(e), Square(n), Square(e));
    Associate(k, n, Square(n));
    Regroup(Times(k, Square(n)), Cube(e), k, e);
    Commute(Times(k, Square(n)), k);
    Associate(k, Times(k, Square(n)), Fourth(e));
    Multiples(k, Times(Times(k, Square(n)), Fourth(e)));
  }

  // --- Whole runs ---

  /** The sum of distances from the mean is 0. */
  lemma OffsetFromMean(x: seq<real>)
    ensures Offset(x, StatsOf(x).mean) == 0.0 && StatsOf(x).m2 == SquaredDistance(x, StatsOf(x).mean)
    ensures StatsOf(x).count == |x|
  {
    RunningIsBatch(x);
    hide StatsOf, Times, Sum, SumSquares, Square;
  }

  /** Third powers of the distances, after an arrival. */
  lemma CubesAfter(x: seq<real>)
    requires x != []
    ensures var front, last := x[..|x| - 1], x[|x| - 1];
            var s, n, e := StatsOf(front), |front| as real, Move(StatsOf(front), last);
            && s.count == |front|
            && CubedDistance(x, StatsOf(x).mean) ==
               CubedDistance(front, s.mean) - 3.0 * Times(e, s.m2) - Times(n, Cube(e)) + Times(Cube(n), Cube(e))
            && FourthDistance(x, StatsOf(x).mean) ==
               FourthDistance(front, s.mean) - 4.0 * Times(e, CubedDistance(front, s.mean)) + 6.0 * Times(Square(e), s.m2)
               + Times(n, Fourth(e)) + Times(Fourth(n), Fourth(e))
  {
    var front, last := x[..|x| - 1], x[|x| - 1];
    var s, e := StatsOf(front), Move(StatsOf(front), last);
    assert StatsOf(x) == Step(s, last);
    hide *;
    OffsetFromMean(front);
    MoveFacts(s, last);
    DistancesOfOneMore(x, s.mean + e);
    CubedShift(front, s.mean, e);
    FourthShift(front, s.mean, e);
    PowersOfProduct(s.count as real, e);
    TimesZero(Square(e));
    TimesZero(Cube(e));
    Commute(Cube(e), |front| as real);
    Commute(Fourth(e), |front| as real);
  }

  lemma ThirdCoefficients(n: real, f: real)
    ensures Times(Times(n + 1.0, Square(n)), f) - 3.0 * Times(Square(n), f) ==
            Times(Cube(n), f) - Times(n, f) - Times(Times(n, 2.0 * n - 1.0), f)
  {
    hide *;
    PowersAsProducts(n);
    Distribute(Square(n), n, 1.0);
    TimesOne(Square(n));
    Distribute(f, Cube(n), Square(n));
    Distribute(n, 2.0 * n, -1.0);
    Multiples(n, n);
    Negate(n, 1.0);
    TimesOne(n);
    Distribute(f, 2.0 * Square(n), -n);
    Multiples(f, Square(n));
    Negate(f, n);
  }

  lemma FourthCoefficients(n: real, f: real)
    ensures Times(Times(n + 1.0, Cube(n)), f) - 4.0 * Times(Times(n + 1.0, Square(n)), f) ==
            Times(n, f) + Times(Fourth(n), f) - FourthCoefficient(n, f)
  {
    assert FourthCoefficient(n, f) == 3.0 * Times(Cube(n), f) + 4.0 * Times(Square(n), f) + Times(n, f);
    hide *;
    PowersAsProducts(n);
    Distribute(Cube(n), n, 1.0);
    TimesOne(Cube(n));
    Distribute(Square(n), n, 1.0);
    TimesOne(Square(n));
    Distribute(f, Fourth(n), Cube(n));
    Distribute(f, Cube(n), Square(n));
  }

  /** After any run `M3` is the sum of cubed distances from the mean plus the drift of the run. */
  lemma {:induction false} ThirdSumDrifts(x: seq<real>)
    ensures StatsOf(x).m3 == CubedDistance(x, StatsOf(x).mean) + ThirdDrift(x)
  {
    if x != [] {
      var front, last := x[..|x| - 1], x[|x| - 1];
      var s, n, e := StatsOf(front), |front| as real, Move(StatsOf(front), last);
      ThirdSumDrifts(front);
      assert StatsOf(x) == Step(s, last) && ThirdDrift(x) == ThirdDrift(front) + ThirdDriftStep(s, last);
      assert ThirdDriftStep(s, last) ==
             var k := s.count as real; 3.0 * Times(e, s.m2) - Times(Times(k, 2.0 * k - 1.0), Cube(e));
      hide *;
      CubesAfter(x);
      UpdateGains(s, last);
      ThirdCoefficients(n, Cube(e));
    }
  }

  /** After any run `M4` is the sum of fourth powers of the distances plus the drift of the run. */
  lemma {:induction false} FourthSumDrifts(x: seq<real>)
    ensures StatsOf(x).m4 == FourthDistance(x, StatsOf(x).mean) + FourthDrift(x)
  {
    if x != [] {
      var front, last := x[..|x| - 1], x[|x| - 1];
      var s, n, e := StatsOf(front), |front| as real, Move(StatsOf(front), last);
      var cubes := CubedDistance(front, s.mean);
      FourthSumDrifts(front);
      FourthDriftAfter(x);
      CubesAfter(x);
      assert StatsOf(x) == Step(s, last);
      hide *;
      UpdateGains(s, last);
      FourthCoefficients(n, Fourth(e));
    }
  }

  lemma FourthDriftAfter(x: seq<real>)
    requires x != []
    ensures var front, last := x[..|x| - 1], x[|x| - 1];
            var s, e := StatsOf(front), Move(StatsOf(front), last);
            var k := s.count as real;
            && Square(k + 1.0) != 0.0
            && FourthDrift(x) == FourthDrift(front) + 4.0 * Times(e, CubedDistance(front, s.mean))
                                 - 6.0 * Times(Square(e), s.m2)
                                 - FourthCoefficient(k, Fourth(e)) + Over(6.0 * Times(Cube(k), Cube(e)), Square(k + 1.0))
  {
    SquarePositive(StatsOf(x[..|x| - 1]).count as real + 1.0);
    hide Times, Square, Cube, Fourth, Over, Move, StatsOf, CubedDistance, FourthCoefficient;
  }

  /** So each is a central moment, up to the count, exactly for runs without drift. */
  lemma CentralIfNoDrift(x: seq<real>)
    ensures StatsOf(x).m3 == CubedDistance(x, StatsOf(x).mean) <==> ThirdDrift(x) == 0.0
    ensures StatsOf(x).m4 == FourthDistance(x, StatsOf(x).mean) <==> FourthDrift(x) == 0.0
  {
    hide *;
    ThirdSumDrifts(x);
    FourthSumDrifts(x);
  }

  /** A single update leaves the error of `M3` as it was exactly if the mean stays, or moves by just the
      right amount for the squares so far. */
  lemma ThirdStepIsExact(s: Stats, x: real)
    ensures var n, e := s.count as real, Move(s, x);
            ThirdDriftStep(s, x) == 0.0 <==>
            e == 0.0 || Times(Times(n, 2.0 * n - 1.0), Square(e)) == 3.0 * s.m2
  {
    var n, e := s.count as real, Move(s, x);
    var r := Times(n, 2.0 * n - 1.0);
    var d := 3.0 * s.m2 - Times(r, Square(e));
    assert ThirdDriftStep(s, x) == 3.0 * Times(e, s.m2) - Times(r, Cube(e));
    hide *;
    PowersAsProducts(e);
    Associate(e, r, Square(e));
    Commute(e, r);
    Associate(r, e, Square(e));
    Distribute(e, 3.0 * s.m2, -Times(r, Square(e)));
    Multiples(e, s.m2);
    Negate(e, Times(r, Square(e)));
    assert ThirdDriftStep(s, x) == Times(e, d);
    TimesZero(e);
    TimesZero(d);
    if e != 0.0 && Times(e, d) == 0.0 {
      Cancel(e, d, 0.0);
    }
  }

  // --- Runs that drift ---

  /** The values 0 and `2e`: `M3` and `M4` ought to be 0 and `2e^4`. */
  lemma PairOfValues(e: real)
    ensures var s := StatsOf([0.0, 2.0 * e]);
            s.mean == e && s.m3 == -Cube(e) && s.m4 == 1.5 * Cube(e) - 6.0 * Fourth(e)
  {
    hide *;
    var s := Step(NO_STATS, 0.0);
    var n := s.count as real;
    FirstTwo(2.0 * e);
    FirstZero(e);
    UnitPowers(Cube(e));
    UnitPowers(Fourth(e));
    MoveFacts(s, 2.0 * e);
    UpdateGains(s, 2.0 * e);
    assert n == 1.0 && n + 1.0 == 2.0;
  }

  lemma FirstTwo(x: real)
    ensures StatsOf([0.0, x]) == Step(Step(NO_STATS, 0.0), x)
  {
    var s := [0.0, x];
    assert s[..1] == [0.0] && [0.0][..0] == [];
    assert StatsOf([0.0]) == Step(NO_STATS, 0.0);
    hide Step;
  }

  lemma FirstZero(e: real)
    ensures var s := Step(NO_STATS, 0.0);
            s.count == 1 && s.mean == 0.0 && s.m3 == 0.0 && s.m4 == 0.0 && Move(s, 2.0 * e) == e
  {
    assert Over(2.0 * e, 2.0) == e;
  }

  lemma UnitPowers(f: real)
    ensures Square(1.0) == 1.0 && Cube(1.0) == 1.0 && Square(2.0) == 4.0 && Times(2.0, 1.0) == 2.0
    ensures Times(1.0, f) == f && Times(2.0, f) == 2.0 * f && Over(6.0 * f, 4.0) == 1.5 * f
  {
  }

  /** For the values 0 and 2 `M3` is -1, though the distances from the mean balance. */
  lemma ThirdSumIsNotCentral()
    ensures StatsOf([0.0, 2.0]).m3 == -1.0
    ensures StatsOf([0.0, 2.0]).mean == 1.0 && Cube(0.0 - 1.0) + Cube(2.0 - 1.0) == 0.0
  {
    PairOfValues(1.0);
    assert 2.0 * 1.0 == 2.0;
    hide StatsOf;
  }

  /** `M4` does not even scale: doubling all values ought to make it 16 times as large, and takes it
      from -4.5 to -84. */
  lemma FourthSumDoesNotScale()
    ensures StatsOf([0.0, 2.0]).m4 == -4.5
    ensures StatsOf([0.0, 4.0]).m4 == -84.0
  {
    PairOfValues(1.0);
    PairOfValues(2.0);
    assert 2.0 * 1.0 == 2.0 && 2.0 * 2.0 == 4.0;
    hide StatsOf;
  }
}
