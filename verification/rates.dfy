/** Bit rates per direction, in windows of 50 milliseconds. */
module Rates {
  import opened Words
  import opened Chunks
  import RealSums

  const RATE_WINDOW_US: nat := 50000

  /** The window a time falls in, counted from the first packet. */
  function WindowOf(t: Trace, i: nat): nat
    requires Usable(t) && i < |t.ts|
  {
    Trunc32(Quotient(Sub64(t.ts[i], t.ts[0]), RATE_WINDOW_US))
  }

  /** How many windows are allocated, as a 32-bit number: one more than the last packet's. */
  function WindowCount(t: Trace): nat
    requires Usable(t)
  {
    Trunc32(WindowOf(t, |t.ts| - 1) + 1)
  }

  /** The window a packet is booked in: its own, or the last one. */
  function Bin(t: Trace, i: nat): nat
    requires Usable(t) && i < |t.ts| && WindowCount(t) > 0
  {
    if WindowOf(t, i) >= WindowCount(t) then WindowCount(t) - 1 else WindowOf(t, i)
  }

  /** The 32-bit number of windows is 0 exactly if the last packet's window has the largest number. */
  lemma WindowsWrap(t: Trace)
    requires Usable(t)
    ensures WindowCount(t) == 0 <==> WindowOf(t, |t.ts| - 1) == TWO32 - 1
  {
  }

  predicate Goes(dir: int, up: bool)
  {
    if up then dir > 0 else dir < 0
  }

  /** Bytes that the first `n` packets send in one direction during window `k`. */
  function BytesIn(t: Trace, n: nat, up: bool, k: nat): nat
    requires Usable(t) && n <= |t.ts| && WindowCount(t) > 0
  {
    if n == 0 then 0
    else BytesIn(t, n - 1, up, k) + if Goes(t.dirs[n - 1], up) && Bin(t, n - 1) == k then t.lens[n - 1] else 0
  }

  /** Bytes that the first `n` packets send in one direction. */
  function BytesOf(t: Trace, n: nat, up: bool): nat
    requires Usable(t) && n <= |t.ts|
  {
    if n == 0 then 0 else BytesOf(t, n - 1, up) + if Goes(t.dirs[n - 1], up) then t.lens[n - 1] else 0
  }

  function BytesBefore(t: Trace, up: bool, m: nat): nat
    requires Usable(t) && WindowCount(t) > 0
  {
    if m == 0 then 0 else BytesBefore(t, up, m - 1) + BytesIn(t, |t.ts|, up, m - 1)
  }

  /** Each window's rate is that of its packets: eight bits a byte, twenty windows a second. */
  predicate Booked(t: Trace, n: nat, up: bool, rates: seq<real>)
    requires Usable(t) && n <= |t.ts| && WindowCount(t) > 0
  {
    && |rates| == WindowCount(t)
    && forall k: nat :: k < |rates| ==> rates[k] == 160.0 * BytesIn(t, n, up, k) as real
  }

  /** All windows together hold all bytes of the direction, whatever the order of the timestamps. */
  lemma RatesConserveBytes(t: Trace, up: bool, rates: seq<real>)
    requires Usable(t) && WindowCount(t) > 0 && Booked(t, |t.ts|, up, rates)
    ensures RealSums.Sum(rates) == 160.0 * BytesOf(t, |t.ts|, up) as real
  {
    SumOfRates(t, up, rates, |rates|);
    assert rates[..|rates|] == rates;
    BytesBeforeEnd(t, |t.ts|, up, |rates|);
    BinsCoverAll(t, |t.ts|, up);
  }

  lemma {:induction false} SumOfRates(t: Trace, up: bool, rates: seq<real>, m: nat)
    requires Usable(t) && WindowCount(t) > 0 && Booked(t, |t.ts|, up, rates) && m <= |rates|
    ensures RealSums.Sum(rates[..m]) == 160.0 * BytesBefore(t, up, m) as real
  {
    if m > 0 {
      SumOfRates(t, up, rates, m - 1);
      assert rates[..m][..m - 1] == rates[..m - 1];
      hide BytesIn, Bin, WindowCount;
    }
  }

  /** Bytes of the first `n` packets in windows below `m`, counted packet by packet. */
  function BytesBelow(t: Trace, n: nat, up: bool, m: nat): nat
    requires Usable(t) && n <= |t.ts| && WindowCount(t) > 0
  {
    if n == 0 then 0
    else BytesBelow(t, n - 1, up, m) + if Goes(t.dirs[n - 1], up) && Bin(t, n - 1) < m then t.lens[n - 1] else 0
  }

  lemma {:induction false} BytesBelowStep(t: Trace, n: nat, up: bool, m: nat)
    requires Usable(t) && n <= |t.ts| && WindowCount(t) > 0
    ensures BytesBelow(t, n, up, m + 1) == BytesBelow(t, n, up, m) + BytesIn(t, n, up, m)
    ensures m == 0 ==> BytesBelow(t, n, up, m) == 0
  {
    if n > 0 {
      BytesBelowStep(t, n - 1, up, m);
      hide Bin, WindowCount;
    }
  }

  lemma {:induction false} BytesBeforeEnd(t: Trace, n: nat, up: bool, m: nat)
    requires Usable(t) && WindowCount(t) > 0 && n == |t.ts|
    ensures BytesBefore(t, up, m) == BytesBelow(t, n, up, m)
  {
    BytesBelowStep(t, n, up, if m > 0 then m - 1 else 0);
    if m > 0 {
      BytesBeforeEnd(t, n, up, m - 1);
    }
    hide BytesBelow, BytesIn, WindowCount;
  }

  lemma {:induction false} BinsCoverAll(t: Trace, n: nat, up: bool)
    requires Usable(t) && n <= |t.ts| && WindowCount(t) > 0
    ensures BytesBelow(t, n, up, WindowCount(t)) == BytesOf(t, n, up)
  {
    if n > 0 {
      BinsCoverAll(t, n - 1, up);
      hide WindowCount;
    }
  }

  /** For times in order, no packet lies past the last window: each is booked in its own. */
  lemma NoClampInOrder(t: Trace, i: nat)
    requires Usable(t) && i < |t.ts| && t.ts[0] <= t.ts[i] <= t.ts[|t.ts| - 1] < TWO64
    requires (t.ts[|t.ts| - 1] - t.ts[0]) / 50000 + 1 < 0x1_0000_0000
    ensures WindowCount(t) == (t.ts[|t.ts| - 1] - t.ts[0]) / 50000 + 1
    ensures Bin(t, i) == (t.ts[i] - t.ts[0]) / 50000
  {
    var last := |t.ts| - 1;
    Sub64Exact(t.ts[i], t.ts[0]);
    Sub64Exact(t.ts[last], t.ts[0]);
    hide Sub64;
  }

  /** Bytes that the first `n` packets send forward (or backward) from one time to another. */
  function BytesBetween(t: Trace, n: nat, up: bool, from: nat, to: nat): nat
    requires Usable(t) && n <= |t.ts|
  {
    if n == 0 then 0
    else
      var i := n - 1;
      BytesBetween(t, i, up, from, to) +
      if (if up then t.dirs[i] > 0 else t.dirs[i] < 0) && from <= t.ts[i] < to then t.lens[i] else 0
  }

  predicate InOrder(t: Trace)
    requires Usable(t)
  {
    && (forall i :: 0 <= i < |t.ts| ==> t.ts[0] <= t.ts[i] <= t.ts[|t.ts| - 1] < 0x1_0000_0000_0000_0000)
    && (t.ts[|t.ts| - 1] - t.ts[0]) / 50000 + 1 < 0x1_0000_0000
  }

  /** For times in order there is a rate for every 50 ms from the first packet to the last, and it is 160
      times the bytes that were sent in them. */
  lemma RatesByTime(t: Trace, up: bool, rates: seq<real>, k: nat)
    requires Usable(t) && InOrder(t) && WindowCount(t) > 0 && Booked(t, |t.ts|, up, rates) && k < |rates|
    ensures |rates| == (t.ts[|t.ts| - 1] - t.ts[0]) / 50000 + 1
    ensures rates[k] == 160.0 * BytesBetween(t, |t.ts|, up, t.ts[0] + 50000 * k, t.ts[0] + 50000 * (k + 1)) as real
  {
    NoClampInOrder(t, 0);
    BytesByTime(t, |t.ts|, up, k);
    hide WindowCount, BytesIn, BytesBetween;
  }

  lemma {:induction false} BytesByTime(t: Trace, n: nat, up: bool, k: nat)
    requires Usable(t) && InOrder(t) && WindowCount(t) > 0 && n <= |t.ts|
    ensures BytesIn(t, n, up, k) == BytesBetween(t, n, up, t.ts[0] + 50000 * k, t.ts[0] + 50000 * (k + 1))
  {
    if n > 0 {
      BytesByTime(t, n - 1, up, k);
      NoClampInOrder(t, n - 1);
      hide WindowCount, Bin;
    }
  }

  /** The rate sequences, as far as there are any: `made` says whether.  There are none for unusable
      traces, when the arrays cannot be allocated, and when the 32-bit number of windows wraps to 0, as
      then there is nothing to allocate. */
  method RateSequences(t: Trace, callocOk: bool) returns (made: bool, up: seq<real>, down: seq<real>)
    ensures made == (Usable(t) && callocOk && WindowCount(t) > 0)
    ensures made ==> Booked(t, |t.ts|, true, up) && Booked(t, |t.ts|, false, down)
    ensures !made ==> up == down == []
  {
    made, up, down := false, [], [];
    if Usable(t) {
      var winN := WindowCount(t);
      if callocOk && winN > 0 {
        var upRates := new real[winN](_ => 0.0);
        var downRates := new real[winN](_ => 0.0);
        BookAll(t, upRates, downRates);
        made, up, down := true, upRates[..], downRates[..];
      }
    }
  }

  /** The rate loop, over arrays of zeros. */
  method BookAll(t: Trace, up: array<real>, down: array<real>)
    requires Usable(t) && WindowCount(t) > 0 && up != down
    requires up.Length == down.Length == WindowCount(t)
    requires forall k :: 0 <= k < up.Length ==> up[k] == 0.0 && down[k] == 0.0
    modifies up, down
    ensures Booked(t, |t.ts|, true, up[..]) && Booked(t, |t.ts|, false, down[..])
  {
    NothingBooked(t, true, up[..]);
    NothingBooked(t, false, down[..]);
    hide WindowOf, WindowCount, Bin, Booked, BitRate;
    var winN := WindowCount(t);
    var i := 0;
    while i < |t.ts|
      invariant 0 <= i <= |t.ts|
      invariant Booked(t, i, true, up[..]) && Booked(t, i, false, down[..])
    {
      var idx := WindowOf(t, i);
      if idx >= winN {
        idx := winN - 1;
      }
      var rate := BitRate(t.lens[i]);
      BinIs(t, i);
      BookOne(t, i, true, up[..], idx, rate);
      BookOne(t, i, false, down[..], idx, rate);
      if t.dirs[i] > 0 {
        AddRate(up, idx, rate);
      } else if t.dirs[i] < 0 {
        AddRate(down, idx, rate);
      }
      i := i + 1;
    }
  }

  /** `rates[idx] += rate`. */
  method AddRate(rates: array<real>, idx: nat, rate: real)
    requires idx < rates.Length
    modifies rates
    ensures rates[..] == old(rates[..])[idx := old(rates[..])[idx] + rate]
  {
    rates[idx] := rates[idx] + rate;
  }

  lemma NothingBooked(t: Trace, up: bool, rates: seq<real>)
    requires Usable(t) && WindowCount(t) > 0 && |rates| == WindowCount(t)
    requires forall k :: 0 <= k < |rates| ==> rates[k] == 0.0
    ensures Booked(t, 0, up, rates)
  {
  }

  lemma BinIs(t: Trace, i: nat)
    requires Usable(t) && i < |t.ts| && WindowCount(t) > 0
    ensures Bin(t, i) == if WindowOf(t, i) >= WindowCount(t) then WindowCount(t) - 1 else WindowOf(t, i)
  {
  }

  /** Bits per second, for bytes seen in 50 milliseconds. */
  function BitRate(len: nat): real
  {
    len as real * 8.0 / 0.05
  }

  lemma BookOne(t: Trace, i: nat, up: bool, rates: seq<real>, idx: nat, rate: real)
    requires Usable(t) && i < |t.ts| && WindowCount(t) > 0 && Booked(t, i, up, rates)
    requires idx == Bin(t, i) && rate == BitRate(t.lens[i])
    ensures idx < |rates|
    ensures Booked(t, i + 1, up, if Goes(t.dirs[i], up) then rates[idx := rates[idx] + rate] else rates)
  {
    assert idx < WindowCount(t);
    hide WindowCount, Bin;
  }
}
