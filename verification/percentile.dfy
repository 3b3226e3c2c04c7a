/** Medians and interpolated percentiles of sorted arrays. */
module Percentiles {
  import opened RealAlgebra
  import opened RealSums
  import opened Words
  import Common

  /** `calc_median_double`. */
  function Median(arr: seq<real>): real
  {
    var n := |arr|;
    if n <= 0 then 0.0
    else if n == 1 then arr[0]
    else if n % 2 == 0 then (arr[n / 2 - 1] + arr[n / 2]) / 2.0
    else arr[n / 2]
  }

  /** The place of percentile `p`, between positions. */
  function Place(n: nat, p: real): real
  {
    Times(p / 100.0, (n - 1) as real)
  }

  /** The value at a place between positions, on a straight line. */
  function Interpolate(arr: seq<real>, place: real): real
    requires arr != [] && place >= 0.0
  {
    var lower := place.Floor;
    var upper := lower + 1;
    var frac := place - lower as real;
    if upper >= |arr| then arr[|arr| - 1] else Times(arr[lower], 1.0 - frac) + Times(arr[upper], frac)
  }

  /** `calc_percentile_double`. */
  function Percentile(arr: seq<real>, p: real): real
  {
    var n := |arr|;
    if n <= 0 then 0.0
    else if n == 1 then arr[0]
    else if p <= 0.0 then arr[0]
    else if p >= 100.0 then arr[n - 1]
    else
      PlaceInRange(n, p);
      Interpolate(arr, Place(n, p))
  }

  lemma PlaceInRange(n: nat, p: real)
    requires n >= 2 && 0.0 < p < 100.0
    ensures 0.0 < Place(n, p) < (n - 1) as real
  {
    hide Times;
    TimesIncreases(p / 100.0, 0.0, (n - 1) as real);
    TimesIncreases(1.0, p / 100.0, (n - 1) as real);
    TimesZero((n - 1) as real);
    TimesOne((n - 1) as real);
  }

  // --- Interpolation ---

  /** A point of the line from `x` to `y` lies between them, and moves with `frac`. */
  lemma LinePoint(x: real, y: real, f: real, g: real)
    requires x <= y && 0.0 <= f <= g <= 1.0
    ensures x <= Times(x, 1.0 - f) + Times(y, f) <= Times(x, 1.0 - g) + Times(y, g) <= y
  {
    assert Times(x, 1.0 - f) + Times(y, f) == x + Times(y - x, f);
    assert Times(x, 1.0 - g) + Times(y, g) == x + Times(y - x, g);
    assert Times(y - x, g) == Times(y - x, f) + Times(y - x, g - f);
    assert y - x == Times(y - x, g) + Times(y - x, 1.0 - g);
    hide Times;
    ProductNonNegative(y - x, f);
    ProductNonNegative(y - x, g - f);
    ProductNonNegative(y - x, 1.0 - g);
  }

  /** The value lies between those of the neighbouring positions. */
  lemma InterpolateBetween(arr: seq<real>, place: real)
    requires Sorted(arr) && 0.0 <= place < (|arr| - 1) as real
    ensures var k := place.Floor; 0 <= k && k + 1 < |arr| && arr[k] <= Interpolate(arr, place) <= arr[k + 1]
  {
    var k := place.Floor;
    var frac := place - k as real;
    assert k + 1 < |arr|;
    hide Times;
    LinePoint(arr[k], arr[k + 1], frac, frac);
  }

  lemma InterpolateMonotone(arr: seq<real>, a: real, b: real)
    requires Sorted(arr) && 0.0 <= a <= b < (|arr| - 1) as real
    ensures Interpolate(arr, a) <= Interpolate(arr, b)
  {
    var j, k := a.Floor, b.Floor;
    InterpolateBetween(arr, a);
    InterpolateBetween(arr, b);
    if j == k {
      hide Times;
      LinePoint(arr[k], arr[k + 1], a - k as real, b - k as real);
    } else {
      hide Interpolate;
      assert j < k;
    }
  }

  // --- Percentiles ---

  /** Every percentile lies between the first and the last element. */
  lemma PercentileInRange(arr: seq<real>, p: real)
    requires Sorted(arr) && arr != []
    ensures arr[0] <= Percentile(arr, p) <= arr[|arr| - 1]
  {
    if |arr| > 1 && 0.0 < p < 100.0 {
      PlaceInRange(|arr|, p);
      InterpolateBetween(arr, Place(|arr|, p));
      hide Interpolate, Place;
    }
  }

  /** In between, a percentile is on the line through the values of the two positions around its place
      `p * (n - 1) / 100`; beyond either end it is the value at that end. */
  lemma PercentileIsLinear(arr: seq<real>, p: real, k: nat)
    requires k + 1 < |arr| && 0.0 <= p <= 100.0
    requires k as real <= Times(p, (|arr| - 1) as real) / 100.0 <= (k + 1) as real
    ensures Percentile(arr, p) ==
            arr[k] + Times(Times(p, (|arr| - 1) as real) / 100.0 - k as real, arr[k + 1] - arr[k])
  {
    var n, place := |arr|, Place(|arr|, p);
    var f := place - k as real;
    PlaceIs(n, p);
    PlaceInside(n, p, k);
    LineFrom(arr[k], arr[k + 1], f);
    if 0.0 < p < 100.0 {
      InterpolateFrom(arr, place, k);
    }
    hide Place, Times, Interpolate;
    if p == 0.0 || p == 100.0 {
      TimesZero(arr[k + 1] - arr[k]);
      TimesOne(arr[k + 1] - arr[k]);
    }
  }

  lemma PercentileOutside(arr: seq<real>, p: real)
    requires arr != [] && (p <= 0.0 || p >= 100.0)
    ensures Percentile(arr, p) == if p <= 0.0 then arr[0] else arr[|arr| - 1]
  {
  }

  lemma PlaceIs(n: nat, p: real)
    ensures Place(n, p) == Times(p, (n - 1) as real) / 100.0
  {
  }

  lemma PlaceInside(n: nat, p: real, k: nat)
    requires k + 1 < n && 0.0 <= p <= 100.0 && k as real <= Place(n, p) <= (k + 1) as real
    ensures p == 0.0 ==> k == 0 && Place(n, p) == 0.0
    ensures p == 100.0 ==> k == n - 2 && Place(n, p) == (n - 1) as real
    ensures 0.0 < p < 100.0 ==> 0.0 < Place(n, p) < (n - 1) as real
  {
    if 0.0 < p < 100.0 {
      PlaceInRange(n, p);
    }
    TimesZero((n - 1) as real);
    TimesOne((n - 1) as real);
    hide Times;
  }

  lemma LineFrom(x: real, y: real, f: real)
    ensures Times(x, 1.0 - f) + Times(y, f) == x + Times(f, y - x)
  {
  }

  lemma InterpolateFrom(arr: seq<real>, place: real, k: nat)
    requires k + 1 < |arr| && 0.0 < place < (|arr| - 1) as real && k as real <= place <= (k + 1) as real
    ensures var f := place - k as real; Interpolate(arr, place) == Times(arr[k], 1.0 - f) + Times(arr[k + 1], f)
  {
    if place == (k + 1) as real {
      assert place.Floor == k + 1 && k + 2 < |arr|;
      TimesZero(arr[k]);
      TimesOne(arr[k + 1]);
      TimesZero(arr[k + 2]);
    } else {
      assert place.Floor == k;
    }
    hide Times;
  }

  /** A higher percentile has a higher value. */
  lemma PercentileMonotone(arr: seq<real>, p: real, q: real)
    requires Sorted(arr) && p <= q
    ensures Percentile(arr, p) <= Percentile(arr, q)
  {
    if |arr| > 0 {
      PercentileInRange(arr, p);
      PercentileInRange(arr, q);
    }
    if |arr| > 1 && 0.0 < p && q < 100.0 {
      PlaceInRange(|arr|, p);
      PlaceInRange(|arr|, q);
      PlaceMonotone(|arr|, p, q);
      InterpolateMonotone(arr, Place(|arr|, p), Place(|arr|, q));
    }
    hide Interpolate, Place;
  }

  lemma PlaceMonotone(n: nat, p: real, q: real)
    requires n >= 2 && p <= q
    ensures Place(n, p) <= Place(n, q)
  {
    hide Times;
    if p < q {
      TimesIncreases(q / 100.0, p / 100.0, (n - 1) as real);
    }
  }

  /** The 50th percentile is the median, for odd and for even lengths. */
  lemma MedianIs50th(arr: seq<real>)
    ensures Percentile(arr, 50.0) == Median(arr)
  {
    var n := |arr|;
    if n > 1 {
      Half((n - 1) as real);
      var place := Place(n, 50.0);
      var k := place.Floor;
      if n % 2 == 0 {
        assert place == (n / 2 - 1) as real + 0.5 && k == n / 2 - 1;
        Midpoint(arr[k], arr[k + 1]);
      } else {
        assert place == (n / 2) as real && k == n / 2;
        TimesOne(arr[k]);
        TimesZero(arr[k + 1]);
      }
      hide Times, Place;
    }
  }

  lemma Half(x: real)
    ensures Times(50.0 / 100.0, x) == x / 2.0
  {
  }

  lemma Midpoint(x: real, y: real)
    ensures Times(x, 1.0 - 0.5) + Times(y, 0.5) == (x + y) / 2.0
  {
  }

  /** The quartiles lie on either side of the median. */
  lemma QuartilesAroundMedian(arr: seq<real>)
    requires Sorted(arr)
    ensures Percentile(arr, 25.0) <= Median(arr) <= Percentile(arr, 75.0)
  {
    MedianIs50th(arr);
    PercentileMonotone(arr, 25.0, 50.0);
    PercentileMonotone(arr, 50.0, 75.0);
  }

  // --- Unsigned arrays ---

  /** `calc_median_uint`: the sum of the middle elements wraps at 32 bits. */
  function MedianUint(arr: seq<nat>): nat
  {
    var n := |arr|;
    if n <= 0 then 0
    else if n == 1 then arr[0]
    else if n % 2 == 0 then Trunc32(arr[n / 2 - 1] + arr[n / 2]) / 2
    else arr[n / 2]
  }

  /** `calc_percentile_uint`: interpolates like the real version, then drops the fraction. */
  function PercentileUint(arr: seq<nat>, p: real): int
  {
    Percentile(Reals(arr), p).Floor
  }

  predicate Words32(arr: seq<nat>)
  {
    forall i :: 0 <= i < |arr| ==> arr[i] < TWO32
  }

  lemma RealsSorted(arr: seq<nat>)
    requires Common.Sorted(arr)
    ensures Sorted(Reals(arr))
  {
  }

  /** Unsigned percentiles are monotone and in range, too. */
  lemma PercentileUintMonotone(arr: seq<nat>, p: real, q: real)
    requires Common.Sorted(arr) && p <= q && arr != []
    ensures arr[0] <= PercentileUint(arr, p) <= PercentileUint(arr, q) <= arr[|arr| - 1]
  {
    RealsSorted(arr);
    PercentileMonotone(Reals(arr), p, q);
    PercentileInRange(Reals(arr), p);
    PercentileInRange(Reals(arr), q);
    hide Percentile;
  }

  /** The unsigned median is the 50th percentile exactly if its sum does not wrap. */
  lemma MedianUintIs50th(arr: seq<nat>)
    requires Words32(arr)
    ensures MedianUint(arr) == PercentileUint(arr, 50.0) <==>
            |arr| < 2 || |arr| % 2 == 1 || arr[|arr| / 2 - 1] + arr[|arr| / 2] < TWO32
  {
    assert PercentileUint(arr, 50.0) == Percentile(Reals(arr), 50.0).Floor;
    var n := |arr|;
    if n >= 2 && n % 2 == 0 {
      assert arr[n / 2 - 1] < TWO32 && arr[n / 2] < TWO32;
      EvenMedian(arr);
      hide *;
      MedianIs50th(Reals(arr));
      WrappedHalf(arr[n / 2 - 1] + arr[n / 2]);
    } else {
      OddMedian(arr);
      hide *;
      MedianIs50th(Reals(arr));
    }
  }

  lemma OddMedian(arr: seq<nat>)
    requires |arr| < 2 || |arr| % 2 == 1
    ensures MedianUint(arr) == Median(Reals(arr)).Floor
  {
  }

  lemma EvenMedian(arr: seq<nat>)
    requires |arr| >= 2 && |arr| % 2 == 0
    ensures var sum := arr[|arr| / 2 - 1] + arr[|arr| / 2];
            MedianUint(arr) == Trunc32(sum) / 2 && Median(Reals(arr)).Floor == sum / 2
  {
    FloorOfHalf(arr[|arr| / 2 - 1] + arr[|arr| / 2]);
  }

  lemma FloorOfHalf(x: nat)
    ensures (x as real / 2.0).Floor == x / 2
  {
  }

  lemma WrappedHalf(sum: nat)
    requires sum < 2 * TWO32
    ensures Trunc32(sum) / 2 == sum / 2 <==> sum < TWO32
  {
  }

  /** Unless the sum wraps, the unsigned quartiles lie on either side of the median. */
  lemma QuartilesAroundMedianUint(arr: seq<nat>)
    requires Common.Sorted(arr) && arr != [] && Words32(arr)
    requires |arr| % 2 == 0 ==> arr[|arr| / 2 - 1] + arr[|arr| / 2] < TWO32
    ensures PercentileUint(arr, 25.0) <= MedianUint(arr) <= PercentileUint(arr, 75.0)
  {
    MedianUintIs50th(arr);
    PercentileUintMonotone(arr, 25.0, 50.0);
    PercentileUintMonotone(arr, 50.0, 75.0);
    hide PercentileUint, MedianUint;
  }

  /** When it wraps, the median of two equal large values falls below both. */
  lemma MedianUintWraps()
    ensures MedianUint([0x8000_0000, 0x8000_0000]) == 0
  {
  }
}
