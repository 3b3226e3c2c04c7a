/** The strongest frequencies of a spectrum, kept while scanning it once. */
module TopK {
  import opened RealAlgebra

  const FFT_MAX_TOP_K: nat := 5

  /** Magnitudes are lengths of complex numbers. */
  predicate Spectrum(mags: seq<real>)
  {
    forall m <- mags :: m >= 0.0
  }

  // --- All bins, ranked ---

  /** Bin numbers from 1 up to `n`. */
  predicate Bins(s: seq<nat>, n: nat)
  {
    forall i :: 0 <= i < |s| ==> 1 <= s[i] < n
  }

  /** The first entry that bin `b` beats; it does not beat equal ones. */
  function Position(mags: seq<real>, ranked: seq<nat>, b: nat): (j: nat)
    requires 1 <= b < |mags| && Bins(ranked, |mags|)
    ensures j <= |ranked|
    ensures forall i :: 0 <= i < j ==> mags[b] <= mags[ranked[i]]
    ensures j < |ranked| ==> mags[b] > mags[ranked[j]]
  {
    if ranked == [] || mags[b] > mags[ranked[0]] then 0 else 1 + Position(mags, ranked[1..], b)
  }

  function Insert<T>(s: seq<T>, j: nat, x: T): seq<T>
    requires j <= |s|
  {
    s[..j] + [x] + s[j..]
  }

  /** Bins 1 to `n - 1` (0 is the constant part), strongest first. */
  function Ranked(mags: seq<real>, n: nat): (ranked: seq<nat>)
    requires n <= |mags|
    ensures |ranked| == if n == 0 then 0 else n - 1
    ensures Bins(ranked, n) && Bins(ranked, |mags|)
  {
    if n <= 1 then []
    else
      var ranked := Ranked(mags, n - 1);
      Insert(ranked, Position(mags, ranked, n - 1), n - 1)
  }

  /** Stronger first; of equally strong bins, the lower frequency first. */
  predicate Ahead(mags: seq<real>, a: nat, b: nat)
    requires a < |mags| && b < |mags|
  {
    mags[a] > mags[b] || (mags[a] == mags[b] && a < b)
  }

  predicate Ordered(mags: seq<real>, ranked: seq<nat>)
    requires Bins(ranked, |mags|)
  {
    forall i, j :: 0 <= i < j < |ranked| ==> Ahead(mags, ranked[i], ranked[j])
  }

  /** The ranking holds every bin from 1 on exactly once, in strict order. */
  lemma RankedIsSorted(mags: seq<real>, n: nat)
    requires n <= |mags|
    ensures var r := Ranked(mags, n);
            forall i, j :: 0 <= i < j < |r| ==> mags[r[i]] > mags[r[j]] || (mags[r[i]] == mags[r[j]] && r[i] < r[j])
    ensures forall b: nat :: b in Ranked(mags, n) <==> 1 <= b < n
  {
    RankedInOrder(mags, n);
    hide Ranked;
  }

  lemma {:induction false} RankedInOrder(mags: seq<real>, n: nat)
    requires n <= |mags|
    ensures Ordered(mags, Ranked(mags, n))
    ensures forall b: nat :: b in Ranked(mags, n) <==> 1 <= b < n
  {
    if n > 1 {
      var ranked, b := Ranked(mags, n - 1), n - 1;
      var p := Position(mags, ranked, b);
      assert Bins(ranked, b);
      assert Ranked(mags, n) == Insert(ranked, p, b);
      hide *;
      RankedInOrder(mags, n - 1);
      InsertKeepsOrder(mags, ranked, b);
      forall c: nat ensures c in Ranked(mags, n) <==> 1 <= c < n {
        InsertMembers(ranked, p, b, c);
      }
    }
  }

  lemma InsertMembers<T>(s: seq<T>, j: nat, x: T, y: T)
    requires j <= |s|
    ensures y in Insert(s, j, x) <==> y in s || y == x
  {
    assert s == s[..j] + s[j..];
  }

  lemma InsertElements(s: seq<nat>, j: nat, x: nat, n: nat)
    requires j <= |s| && 1 <= x < n && Bins(s, n)
    ensures var after := Insert(s, j, x);
            && |after| == |s| + 1 && after[j] == x && Bins(after, n)
            && (forall i :: 0 <= i < j ==> after[i] == s[i])
            && (forall i :: j < i < |after| ==> after[i] == s[i - 1])
  {
  }

  lemma InsertKeepsOrder(mags: seq<real>, ranked: seq<nat>, b: nat)
    requires 1 <= b < |mags| && Bins(ranked, b) && Ordered(mags, ranked)
    ensures var after := Insert(ranked, Position(mags, ranked, b), b); Bins(after, |mags|) && Ordered(mags, after)
  {
    var p := Position(mags, ranked, b);
    var after := Insert(ranked, p, b);
    assert Bins(ranked, |mags|);
    InsertElements(ranked, p, b, |mags|);
    forall i, j | 0 <= i < j < |after| ensures Ahead(mags, after[i], after[j]) {
      hide Insert, Position, Ordered, Ahead;
      InsertedPair(mags, ranked, after, p, b, i, j);
    }
    hide Insert, Position, Ahead;
  }

  lemma InsertedPair(mags: seq<real>, ranked: seq<nat>, after: seq<nat>, p: nat, b: nat, i: nat, j: nat)
    requires 1 <= b < |mags| && Bins(ranked, b) && Ordered(mags, ranked) && p <= |ranked|
    requires forall k :: 0 <= k < p ==> mags[b] <= mags[ranked[k]]
    requires p < |ranked| ==> mags[b] > mags[ranked[p]]
    requires |after| == |ranked| + 1 && after[p] == b && Bins(after, |mags|)
    requires forall k :: 0 <= k < p ==> after[k] == ranked[k]
    requires forall k :: p < k < |after| ==> after[k] == ranked[k - 1]
    requires i < j < |after|
    ensures Ahead(mags, after[i], after[j])
  {
    hide Ordered;
    if j == p {
      assert mags[b] <= mags[ranked[i]];
    } else if i == p {
      NextAhead(mags, ranked, p, j - 1);
    } else {
      OrderedPair(mags, ranked, if i < p then i else i - 1, if j < p then j else j - 1);
    }
  }

  lemma OrderedPair(mags: seq<real>, ranked: seq<nat>, i: nat, j: nat)
    requires Bins(ranked, |mags|) && Ordered(mags, ranked) && i < j < |ranked|
    ensures Ahead(mags, ranked[i], ranked[j])
  {
  }

  lemma NextAhead(mags: seq<real>, ranked: seq<nat>, p: nat, j: nat)
    requires Bins(ranked, |mags|) && Ordered(mags, ranked) && p <= j < |ranked|
    ensures mags[ranked[j]] <= mags[ranked[p]]
  {
    assert p == j || Ahead(mags, ranked[p], ranked[j]);
  }

  // --- The best `k` ---

  /** Entries beyond the last bin read -1. */
  function Indices(ranked: seq<nat>, k: nat): (s: seq<int>)
    ensures |s| == k
  {
    seq(k, j requires 0 <= j < k => if j < |ranked| then ranked[j] as int else -1)
  }

  function Mags(mags: seq<real>, ranked: seq<nat>, k: nat): (s: seq<real>)
    requires Bins(ranked, |mags|)
    ensures |s| == k
  {
    seq(k, j requires 0 <= j < k => if j < |ranked| then mags[ranked[j]] else -1.0)
  }

  /** Makes room at `j` by dropping the last entry. */
  function ShiftIn<T>(s: seq<T>, j: nat, x: T): seq<T>
    requires j < |s|
  {
    s[..j] + [x] + s[j..|s| - 1]
  }

  /** Inserting into the best `k` gives the best `k` of the longer ranking. */
  lemma ShiftInKeepsBest(mags: seq<real>, ranked: seq<nat>, k: nat, b: nat)
    requires 1 <= b < |mags| && Bins(ranked, |mags|)
    ensures var p := Position(mags, ranked, b);
            var after := Insert(ranked, p, b);
            && Bins(after, |mags|)
            && (p < k ==> Indices(after, k) == ShiftIn(Indices(ranked, k), p, b)
                          && Mags(mags, after, k) == ShiftIn(Mags(mags, ranked, k), p, mags[b]))
            && (p >= k ==> Indices(after, k) == Indices(ranked, k) && Mags(mags, after, k) == Mags(mags, ranked, k))
  {
    var p := Position(mags, ranked, b);
    hide Position;
    ShiftIndices(ranked, p, k, b);
    ShiftMags(mags, ranked, p, k, b);
  }

  lemma ShiftIndices(ranked: seq<nat>, p: nat, k: nat, b: nat)
    requires p <= |ranked|
    ensures Indices(Insert(ranked, p, b), k) == if p < k then ShiftIn(Indices(ranked, k), p, b) else Indices(ranked, k)
  {
  }

  lemma ShiftMags(mags: seq<real>, ranked: seq<nat>, p: nat, k: nat, b: nat)
    requires p <= |ranked| && 1 <= b < |mags| && Bins(ranked, |mags|)
    ensures Bins(Insert(ranked, p, b), |mags|)
    ensures Mags(mags, Insert(ranked, p, b), k) ==
            if p < k then ShiftIn(Mags(mags, ranked, k), p, mags[b]) else Mags(mags, ranked, k)
  {
    var after := Insert(ranked, p, b);
    assert |after| == |ranked| + 1 && after[p] == b;
    assert forall i :: 0 <= i < p ==> after[i] == ranked[i];
    assert forall i :: p < i < |after| ==> after[i] == ranked[i - 1];
    hide Insert;
    assert Bins(after, |mags|);
    if p < k {
      IsShifted(Mags(mags, ranked, k), Mags(mags, after, k), p, mags[b]);
    }
  }

  /** In a padded list, too, the first smaller entry is at the insertion point. */
  lemma PositionInPadded(mags: seq<real>, ranked: seq<nat>, k: nat, b: nat, j: nat)
    requires Spectrum(mags) && 1 <= b < |mags| && Bins(ranked, |mags|) && j < k
    requires forall i :: 0 <= i < j ==> mags[b] <= Mags(mags, ranked, k)[i]
    ensures Position(mags, ranked, b) >= j
    ensures mags[b] > Mags(mags, ranked, k)[j] <==> Position(mags, ranked, b) == j
  {
    var p := Position(mags, ranked, b);
    assert mags[b] in mags;
    assert p < k ==> Mags(mags, ranked, k)[p] == if p < |ranked| then mags[ranked[p]] else -1.0;
  }

  /** `for (l = k - 1; l > j; l--)`, then the two stores. */
  method InsertAt(indices: array<int>, top: array<real>, k: nat, j: nat, index: int, mag: real)
    requires j < k <= indices.Length && k <= top.Length
    modifies indices, top
    ensures indices[..k] == ShiftIn(old(indices[..k]), j, index) && indices[k..] == old(indices[k..])
    ensures top[..k] == ShiftIn(old(top[..k]), j, mag) && top[k..] == old(top[k..])
  {
    ghost var before, topBefore := indices[..k], top[..k];
    var l := k - 1;
    while l > j
      invariant j <= l < k
      invariant forall i :: 0 <= i <= l ==> indices[i] == before[i] && top[i] == topBefore[i]
      invariant forall i :: l < i < k ==> indices[i] == before[i - 1] && top[i] == topBefore[i - 1]
      invariant indices[k..] == old(indices[k..]) && top[k..] == old(top[k..])
    {
      indices[l] := indices[l - 1];
      top[l] := top[l - 1];
      l := l - 1;
    }
    indices[j] := index;
    top[j] := mag;
    hide ShiftIn;
    IsShifted(before, indices[..k], j, index);
    IsShifted(topBefore, top[..k], j, mag);
  }

  lemma IsShifted<T>(before: seq<T>, after: seq<T>, j: nat, x: T)
    requires j < |before| == |after| && after[j] == x
    requires forall i :: 0 <= i < j ==> after[i] == before[i]
    requires forall i :: j < i < |before| ==> after[i] == before[i - 1]
    ensures after == ShiftIn(before, j, x)
  {
  }

  /** Finds the `k` strongest bins; refuses spectra of fewer than two bins, and `k` out of range. */
  method GetTopK(mags: seq<real>, indices: array<int>, top: array<real>, k: int) returns (status: int)
    requires Spectrum(mags) && indices.Length == top.Length == FFT_MAX_TOP_K
    modifies indices, top
    ensures status == if |mags| <= 1 || k <= 0 || k > 5 then -1 else 0
    ensures status == -1 ==> indices[..] == old(indices[..]) && top[..] == old(top[..])
    ensures status == 0 ==> && indices[..k] == Indices(Ranked(mags, |mags|), k) && indices[k..] == old(indices[k..])
                            && top[..k] == Mags(mags, Ranked(mags, |mags|), k) && top[k..] == old(top[k..])
    ensures status == 0 ==>
              var ranked := Ranked(mags, |mags|);
              forall j :: 0 <= j < k ==> && indices[j] == (if j < |ranked| then ranked[j] else -1)
                                         && top[j] == (if j < |ranked| then mags[ranked[j]] else -1.0)
  {
    hide Ranked, Indices, Mags;
    if |mags| <= 1 || k <= 0 || k > FFT_MAX_TOP_K {
      return -1;
    }
    Clear(indices, top, k);
    NoneRanked(mags, k);
    Scan(mags, indices, top, k);
    EntriesOf(mags, indices[..k], top[..k], k);
    assert forall j :: 0 <= j < k ==> indices[j] == indices[..k][j] && top[j] == top[..k][j];
    return 0;
  }

  lemma EntriesOf(mags: seq<real>, indices: seq<int>, top: seq<real>, k: nat)
    requires indices == Indices(Ranked(mags, |mags|), k) && top == Mags(mags, Ranked(mags, |mags|), k)
    ensures var ranked := Ranked(mags, |mags|);
            forall j :: 0 <= j < k ==> && indices[j] == (if j < |ranked| then ranked[j] else -1)
                                       && top[j] == (if j < |ranked| then mags[ranked[j]] else -1.0)
  {
    hide Ranked;
  }

  lemma NoneRanked(mags: seq<real>, k: nat)
    requires |mags| >= 1
    ensures Ranked(mags, 1) == [] && Mags(mags, [], k) == Mags([], [], k)
  {
  }

  /** The scan proper. */
  method Scan(mags: seq<real>, indices: array<int>, top: array<real>, k: nat)
    requires Spectrum(mags) && |mags| > 1 && k <= indices.Length && k <= top.Length
    requires indices[..k] == Indices(Ranked(mags, 1), k) && top[..k] == Mags(mags, Ranked(mags, 1), k)
    modifies indices, top
    ensures indices[..k] == Indices(Ranked(mags, |mags|), k) && indices[k..] == old(indices[k..])
    ensures top[..k] == Mags(mags, Ranked(mags, |mags|), k) && top[k..] == old(top[k..])
  {
    hide *;
    var i := 1;
    while i < |mags|
      invariant 1 <= i <= |mags|
      invariant indices[..k] == Indices(Ranked(mags, i), k) && top[..k] == Mags(mags, Ranked(mags, i), k)
      invariant indices[k..] == old(indices[k..]) && top[k..] == old(top[k..])
    {
      Offer(mags, indices, top, k, i);
      i := i + 1;
    }
  }

  method Clear(indices: array<int>, top: array<real>, k: nat)
    requires k <= indices.Length && k <= top.Length
    modifies indices, top
    ensures indices[..k] == Indices([], k) && top[..k] == Mags([], [], k)
    ensures indices[k..] == old(indices[k..]) && top[k..] == old(top[k..])
  {
    var i := 0;
    while i < k
      invariant 0 <= i <= k
      invariant forall j :: 0 <= j < i ==> indices[j] == -1 && top[j] == -1.0
      invariant indices[k..] == old(indices[k..]) && top[k..] == old(top[k..])
    {
      indices[i] := -1;
      top[i] := -1.0;
      i := i + 1;
    }
  }

  /** The body of the scan: bin `b` takes its place among the best `k`, if it has one. */
  method Offer(mags: seq<real>, indices: array<int>, top: array<real>, k: nat, b: nat)
    requires Spectrum(mags) && 1 <= b < |mags| && k <= indices.Length && k <= top.Length
    requires indices[..k] == Indices(Ranked(mags, b), k) && top[..k] == Mags(mags, Ranked(mags, b), k)
    modifies indices, top
    ensures indices[..k] == Indices(Ranked(mags, b + 1), k) && top[..k] == Mags(mags, Ranked(mags, b + 1), k)
    ensures indices[k..] == old(indices[k..]) && top[k..] == old(top[k..])
  {
    ghost var ranked := Ranked(mags, b);
    ShiftInKeepsBest(mags, ranked, k, b);
    assert Ranked(mags, b + 1) == Insert(ranked, Position(mags, ranked, b), b);
    hide Ranked, Indices, Insert, ShiftIn;
    var mag := mags[b];
    var j := 0;
    while j < k
      invariant 0 <= j <= k
      invariant indices[..k] == Indices(ranked, k) && top[..k] == Mags(mags, ranked, k)
      invariant indices[k..] == old(indices[k..]) && top[k..] == old(top[k..])
      invariant forall i :: 0 <= i < j ==> mag <= Mags(mags, ranked, k)[i]
      invariant Position(mags, ranked, b) >= j
    {
      PositionInPadded(mags, ranked, k, b, j);
      assert top[j] == top[..k][j];
      hide Mags;
      if mag > top[j] {
        InsertAt(indices, top, k, j, b, mag);
        break;
      }
      j := j + 1;
    }
  }

  // --- The peak of the power spectrum ---

  lemma SquareMonotone(x: real, y: real)
    requires x >= 0.0 && y >= 0.0
    ensures Square(x) > Square(y) <==> x > y
  {
    if x > y {
      SquareIncreases(x, y);
    } else if x < y {
      SquareIncreases(y, x);
    }
    hide Square;
  }

  /** The strongest of bins 1 to `n - 1`. */
  function Strongest(mags: seq<real>, n: nat): (b: nat)
    requires 1 < n <= |mags|
    ensures b < n
  {
    Ranked(mags, n)[0]
  }

  /** What the scan for the peak knows after the first bins: the peak is the square of the strongest. */
  ghost predicate PeakOf(mags: seq<real>, n: nat, peak: real)
    requires Spectrum(mags) && n <= |mags|
  {
    if n <= 1 then peak == 0.0
    else
      var best := mags[Strongest(mags, n)];
      best >= 0.0 && peak == Square(best)
  }

  lemma FirstPeak(mags: seq<real>)
    requires Spectrum(mags) && |mags| >= 1
    ensures PeakOf(mags, 1, 0.0)
  {
  }

  lemma NextPeak(mags: seq<real>, b: nat, peak: real)
    requires Spectrum(mags) && 1 <= b < |mags| && PeakOf(mags, b, peak)
    ensures PeakOf(mags, b + 1, if Square(mags[b]) > peak then Square(mags[b]) else peak)
  {
    StrongestAfter(mags, b);
    assert mags[b] in mags;
    assert Square(0.0) == 0.0;
    SquareMonotone(mags[b], if b == 1 then 0.0 else mags[Strongest(mags, b)]);
    hide Square, Strongest;
  }

  lemma FinalPeak(mags: seq<real>, peak: real)
    requires Spectrum(mags) && |mags| > 1 && PeakOf(mags, |mags|, peak)
    ensures peak == Square(mags[Strongest(mags, |mags|)])
  {
  }

  lemma StrongestAfter(mags: seq<real>, b: nat)
    requires 1 <= b < |mags|
    ensures b == 1 ==> Strongest(mags, b + 1) == b
    ensures b > 1 ==> Strongest(mags, b + 1) == if mags[b] > mags[Strongest(mags, b)] then b else Strongest(mags, b)
  {
  }

  /** The peak is the square of the strongest bin, and 0 if there is none. */
  method PsdPeak(mags: seq<real>) returns (peak: real)
    requires Spectrum(mags)
    ensures peak == if |mags| <= 1 then 0.0 else Square(mags[Strongest(mags, |mags|)])
    ensures forall b :: 1 <= b < |mags| ==> Square(mags[b]) <= peak
    ensures |mags| > 1 ==> exists b :: 1 <= b < |mags| && Square(mags[b]) == peak
  {
    hide *;
    var n := |mags|;
    if n <= 1 {
      return 0.0;
    }
    peak := 0.0;
    FirstPeak(mags);
    var i := 1;
    while i < n
      invariant 1 <= i <= n && PeakOf(mags, i, peak)
    {
      NextPeak(mags, i, peak);
      var psd := Square(mags[i]);
      if psd > peak {
        peak := psd;
      }
      i := i + 1;
    }
    FinalPeak(mags, peak);
    StrongestBin(mags);
    forall b | 1 <= b < n ensures Square(mags[b]) <= peak {
      SquaresGrow(mags, b, Strongest(mags, n));
    }
  }

  lemma StrongestBin(mags: seq<real>)
    requires |mags| > 1
    ensures 1 <= Strongest(mags, |mags|) < |mags|
    ensures forall b :: 1 <= b < |mags| ==> mags[b] <= mags[Strongest(mags, |mags|)]
  {
    RankedInOrder(mags, |mags|);
    var ranked := Ranked(mags, |mags|);
    assert ranked[0] in ranked;
    hide Ranked;
    forall b | 1 <= b < |mags| ensures mags[b] <= mags[ranked[0]] {
      assert b in ranked;
      var j: nat :| j < |ranked| && ranked[j] == b;
      if j > 0 {
        OrderedPair(mags, ranked, 0, j);
      }
    }
  }

  lemma SquaresGrow(mags: seq<real>, a: nat, b: nat)
    requires Spectrum(mags) && a < |mags| && b < |mags| && mags[a] <= mags[b]
    ensures Square(mags[a]) <= Square(mags[b])
  {
    assert mags[a] in mags && mags[b] in mags;
    if mags[a] < mags[b] {
      SquareIncreases(mags[b], mags[a]);
    }
  }
}
