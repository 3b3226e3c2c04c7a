/** Quartiles of all payload bytes of a flow, read off a histogram. */
module Quantiles {
  import opened Common

  predicate Bytes(s: seq<nat>)
  {
    forall i :: 0 <= i < |s| ==> s[i] < 256
  }

  // --- Counting ---

  function Count(s: seq<nat>, v: nat): nat
  {
    if s == [] then 0 else Count(s[..|s| - 1], v) + if s[|s| - 1] == v then 1 else 0
  }

  function CountInBin(s: seq<nat>, bin: nat): nat
  {
    if s == [] then 0 else CountInBin(s[..|s| - 1], bin) + if s[|s| - 1] / 16 == bin then 1 else 0
  }

  /** How many elements are below `v`. */
  function Below(s: seq<nat>, v: nat): nat
  {
    if s == [] then 0 else Below(s[..|s| - 1], v) + if s[|s| - 1] < v then 1 else 0
  }

  lemma {:induction false} BelowStep(s: seq<nat>, v: nat)
    ensures Below(s, v + 1) == Below(s, v) + Count(s, v)
    ensures Below(s, 0) == 0
  {
    if s != [] {
      BelowStep(s[..|s| - 1], v);
    }
  }

  lemma {:induction false} AllBelow(s: seq<nat>)
    requires Bytes(s)
    ensures Below(s, 256) == |s|
  {
    if s != [] {
      AllBelow(s[..|s| - 1]);
    }
  }

  lemma {:induction false} CountIsMultiplicity(s: seq<nat>, v: nat)
    ensures Count(s, v) == multiset(s)[v]
  {
    if s != [] {
      CountIsMultiplicity(s[..|s| - 1], v);
      assert s == s[..|s| - 1] + [s[|s| - 1]];
    }
  }

  lemma {:induction false} BinIsRange(s: seq<nat>, bin: nat)
    ensures CountInBin(s, bin) == Below(s, 16 * bin + 16) - Below(s, 16 * bin)
  {
    if s != [] {
      BinIsRange(s[..|s| - 1], bin);
    }
  }

  lemma {:induction false} SumOfCounts(s: seq<nat>, counts: seq<nat>, from: nat, n: nat)
    requires n <= |counts| && forall i :: 0 <= i < |counts| ==> counts[i] == Count(s, from + i)
    ensures Sum(counts[..n]) == Below(s, from + n) - Below(s, from)
  {
    if n > 0 {
      SumOfCounts(s, counts, from, n - 1);
      BelowStep(s, from + n - 1);
      assert counts[..n][..n - 1] == counts[..n - 1];
    }
  }

  lemma CountOneMore(s: seq<nat>, x: nat)
    ensures forall v: nat :: Count(s + [x], v) == Count(s, v) + if v == x then 1 else 0
    ensures forall b: nat :: CountInBin(s + [x], b) == CountInBin(s, b) + if b == x / 16 then 1 else 0
  {
    assert (s + [x])[..|s|] == s;
  }

  // --- Order statistics ---

  /** `v` is the element with `k` elements before it, if the elements are put in order. */
  predicate HasRank(s: seq<nat>, v: nat, k: nat)
  {
    Below(s, v) <= k < Below(s, v + 1)
  }

  /** In any sorted arrangement of `s`, `v` is at position `k`. */
  lemma RankIsPosition(s: seq<nat>, t: seq<nat>, v: nat, k: nat)
    requires HasRank(s, v, k) && Sorted(t) && multiset(t) == multiset(s)
    ensures k < |t| && t[k] == v
  {
    BelowOfPermutation(s, t, v);
    BelowOfPermutation(s, t, v + 1);
    BelowAtMost(t, v + 1, |t|);
    if t[k] < v {
      BelowAtLeast(t, v, k + 1);
    }
    if t[k] > v {
      BelowAtMost(t, v + 1, k);
    }
  }

  lemma {:induction false} BelowAtLeast(t: seq<nat>, v: nat, n: nat)
    requires n <= |t| && forall i :: 0 <= i < n ==> t[i] < v
    ensures Below(t, v) >= n
  {
    if n > 0 {
      BelowAtLeast(t[..|t| - 1], v, if n == |t| then n - 1 else n);
    }
  }

  lemma {:induction false} BelowAtMost(t: seq<nat>, v: nat, n: nat)
    requires n <= |t| && forall i :: n <= i < |t| ==> t[i] >= v
    ensures Below(t, v) <= n
  {
    if t != [] {
      BelowAtMost(t[..|t| - 1], v, if n == |t| then n - 1 else n);
    }
  }

  lemma {:induction false} BelowOfConcat(s: seq<nat>, t: seq<nat>, v: nat)
    ensures Below(s + t, v) == Below(s, v) + Below(t, v)
  {
    if t == [] {
      assert s + t == s;
    } else {
      assert (s + t)[..|s + t| - 1] == s + t[..|t| - 1];
      BelowOfConcat(s, t[..|t| - 1], v);
    }
  }

  function Without(t: seq<nat>, j: nat): (rest: seq<nat>)
    requires j < |t|
    ensures |rest| == |t| - 1
  {
    t[..j] + t[j + 1..]
  }

  lemma BelowWithout(t: seq<nat>, j: nat, v: nat)
    requires j < |t|
    ensures Below(t, v) == Below(Without(t, j), v) + if t[j] < v then 1 else 0
  {
    assert t == t[..j + 1] + t[j + 1..] && t[..j + 1][..j] == t[..j];
    BelowOfConcat(t[..j], t[j + 1..], v);
    BelowOfConcat(t[..j + 1], t[j + 1..], v);
  }

  lemma MultisetWithout(t: seq<nat>, j: nat)
    requires j < |t|
    ensures multiset(Without(t, j)) == multiset(t) - multiset{t[j]}
  {
    assert t == t[..j] + [t[j]] + t[j + 1..];
  }

  lemma {:induction false} BelowOfPermutation(s: seq<nat>, t: seq<nat>, v: nat)
    requires multiset(s) == multiset(t)
    ensures Below(s, v) == Below(t, v) && |s| == |t|
  {
    assert |multiset(s)| == |s| && |multiset(t)| == |t|;
    if s != [] {
      var n := |s| - 1;
      assert s[n] in multiset(t);
      var j: nat :| j < |t| && t[j] == s[n];
      MultisetWithout(s, n);
      MultisetWithout(t, j);
      BelowWithout(s, n, v);
      BelowWithout(t, j, v);
      hide Below, Without;
      BelowOfPermutation(Without(s, n), Without(t, j), v);
    }
  }

  /** Higher ranks have higher values: quartiles come in order. */
  lemma RanksAreMonotone(s: seq<nat>, v: nat, k: nat, w: nat, l: nat)
    requires HasRank(s, v, k) && HasRank(s, w, l) && k <= l
    ensures v <= w
  {
    if w < v {
      BelowMonotone(s, w + 1, v);
    }
  }

  lemma {:induction false} BelowMonotone(s: seq<nat>, v: nat, w: nat)
    requires v <= w
    ensures Below(s, v) <= Below(s, w)
  {
    if s != [] {
      BelowMonotone(s[..|s| - 1], v, w);
    }
  }

  /** Rounded down, the thresholds are quarters in whole numbers. */
  lemma Quarters(n: nat)
    ensures (0.25 * n as real).Floor == n / 4 && (0.50 * n as real).Floor == n / 2 && (0.75 * n as real).Floor == 3 * n / 4
  {
  }

  /** Values with the ranks of the quartiles are at their places in every sorted arrangement. */
  lemma QuartilesInOrder(s: seq<nat>, t: seq<nat>, p25: nat, p50: nat, p75: nat)
    requires s != [] && Sorted(t) && multiset(t) == multiset(s)
    requires HasRank(s, p25, (|s| - 1) / 4) && HasRank(s, p50, (|s| - 1) / 2) && HasRank(s, p75, 3 * (|s| - 1) / 4)
    ensures |t| == |s| && t[(|s| - 1) / 4] == p25 && t[(|s| - 1) / 2] == p50 && t[3 * (|s| - 1) / 4] == p75
  {
    hide *;
    assert |multiset(s)| == |s| && |multiset(t)| == |t|;
    RankIsPosition(s, t, p25, (|s| - 1) / 4);
    RankIsPosition(s, t, p50, (|s| - 1) / 2);
    RankIsPosition(s, t, p75, 3 * (|s| - 1) / 4);
  }

  /** The byte histograms of a flow: 256 exact bins and 16 coarse ones. */
  class PayloadHistogram {
    const hist: array<nat>
    const histFull: array<nat>
    /** All payload bytes so far. */
    ghost var seen: seq<nat>

    ghost predicate Valid()
      reads this, hist, histFull
    {
      && hist.Length == 16 && histFull.Length == 256 && hist != histFull
      && Bytes(seen)
      && (forall v: nat :: v < 256 ==> histFull[v] == Count(seen, v))
      && (forall b: nat :: b < 16 ==> hist[b] == CountInBin(seen, b))
    }

    constructor ()
      ensures Valid() && seen == [] && fresh(hist) && fresh(histFull)
    {
      hist := new nat[16](_ => 0);
      histFull := new nat[256](_ => 0);
      seen := [];
    }

    /** The byte loop of a payload. */
    method AddPayload(payload: seq<nat>)
      requires Valid() && Bytes(payload)
      modifies this, hist, histFull
      ensures Valid() && seen == old(seen) + payload
      ensures forall v: nat :: v < 256 ==> histFull[v] == multiset(seen)[v]
      ensures forall b: nat :: b < 16 ==> hist[b] == Sum(histFull[16 * b..16 * b + 16])
    {
      var i := 0;
      while i < |payload|
        invariant 0 <= i <= |payload|
        invariant Valid() && seen == old(seen) + payload[..i]
      {
        AddByte(payload[i]);
        i := i + 1;
      }
      BinsAre();
    }

    /** An exact bin is how often its byte occurs, a coarse bin sixteen exact ones. */
    lemma BinsAre()
      requires Valid()
      ensures forall v: nat :: v < 256 ==> histFull[v] == multiset(seen)[v]
      ensures forall b: nat :: b < 16 ==> hist[b] == Sum(histFull[16 * b..16 * b + 16])
    {
      forall v: nat | v < 256 ensures histFull[v] == multiset(seen)[v] {
        CountIsMultiplicity(seen, v);
      }
      forall b: nat | b < 16 ensures hist[b] == Sum(histFull[16 * b..16 * b + 16]) {
        BinIsRange(seen, b);
        SumOfCounts(seen, histFull[16 * b..16 * b + 16], 16 * b, 16);
        assert histFull[16 * b..16 * b + 16][..16] == histFull[16 * b..16 * b + 16];
      }
    }

    method AddByte(x: nat)
      requires Valid() && x < 256
      modifies this, hist, histFull
      ensures Valid() && seen == old(seen) + [x]
    {
      var bin := x / 16;
      if bin < 16 {
        hist[bin] := hist[bin] + 1;
      }
      histFull[x] := histFull[x] + 1;
      seen := seen + [x];
      CountOneMore(old(seen), x);
      hide Count, CountInBin;
    }

    /** Total number of bytes, summed over the bins. */
    method Total() returns (total: nat)
      requires Valid()
      ensures total == |seen|
    {
      total := 0;
      BelowStep(seen, 0);
      var v := 0;
      while v < 256
        invariant 0 <= v <= 256 && total == Below(seen, v)
      {
        BelowStep(seen, v);
        total := total + histFull[v];
        v := v + 1;
      }
      AllBelow(seen);
    }

    /** The quartiles are the exact order statistics of all bytes seen; all three are found before the
        scan stops. */
    method Quartiles() returns (p25: nat, p50: nat, p75: nat)
      requires Valid()
      ensures seen == [] ==> p25 == p50 == p75 == 0
      ensures seen != [] ==> && HasRank(seen, p25, (|seen| - 1) / 4)
                             && HasRank(seen, p50, (|seen| - 1) / 2)
                             && HasRank(seen, p75, 3 * (|seen| - 1) / 4)
      ensures seen != [] ==> forall t: seq<nat> :: Sorted(t) && multiset(t) == multiset(seen) ==>
                && |t| == |seen|
                && t[(|seen| - 1) / 4] == p25 && t[(|seen| - 1) / 2] == p50 && t[3 * (|seen| - 1) / 4] == p75
    {
      p25, p50, p75 := ScanBins();
      forall t: seq<nat> | seen != [] && Sorted(t) && multiset(t) == multiset(seen)
        ensures && |t| == |seen|
                && t[(|seen| - 1) / 4] == p25 && t[(|seen| - 1) / 2] == p50 && t[3 * (|seen| - 1) / 4] == p75
      {
        QuartilesInOrder(seen, t, p25, p50, p75);
      }
    }

    method ScanBins() returns (p25: nat, p50: nat, p75: nat)
      requires Valid()
      ensures seen == [] ==> p25 == p50 == p75 == 0
      ensures seen != [] ==> && HasRank(seen, p25, (|seen| - 1) / 4)
                             && HasRank(seen, p50, (|seen| - 1) / 2)
                             && HasRank(seen, p75, 3 * (|seen| - 1) / 4)
    {
      var byteTotal := Total();
      p25, p50, p75 := 0, 0, 0;
      if byteTotal > 0 {
        var cum := 0;
        var has25, has50, has75 := false, false, false;
        var th25 := (0.25 * (byteTotal - 1) as real).Floor;
        var th50 := (0.50 * (byteTotal - 1) as real).Floor;
        var th75 := (0.75 * (byteTotal - 1) as real).Floor;
        Quarters(byteTotal - 1);
        assert 0 <= th25 <= th50 <= th75 < byteTotal;
        BelowStep(seen, 0);
        AllBelow(seen);
        var v := 0;
        while v < 256
          invariant 0 <= v <= 256 && cum == Below(seen, v) && !has75
          invariant if has25 then HasRank(seen, p25, th25) else cum <= th25
          invariant if has50 then HasRank(seen, p50, th50) else cum <= th50
          invariant cum <= th75
        {
          BelowStep(seen, v);
          hide Below, Count;
          cum := cum + histFull[v];
          if cum > th25 && !has25 {
            p25, has25 := v, true;
          }
          if cum > th50 && !has50 {
            p50, has50 := v, true;
          }
          if cum > th75 && !has75 {
            p75, has75 := v, true;
            break;
          }
          v := v + 1;
        }
      }
    }
  }
}
