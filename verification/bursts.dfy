/** What burst detection records over a whole run: the trace cut wherever a gap exceeds the threshold. */
module Bursts {
  import opened Common
  import opened Words
  import opened BurstSpec
  import FlowSpec
  import Layout
  import Tiering

  datatype Arrival = Arrival(len: nat, iat: nat, ts: nat)

  function Run(capacity: nat, threshold: nat, trace: seq<Arrival>): (b: Burst)
    ensures Consistent(b)
  {
    if trace == [] then NO_BURST
    else
      var last := trace[|trace| - 1];
      BurstStep(Run(capacity, threshold, trace[..|trace| - 1]), capacity, threshold, last.len, last.iat, last.ts)
  }

  // --- Cutting a trace ---

  /** The maximal stretches of packets with no gap above the threshold; the last one is still open. */
  function Segments(threshold: nat, trace: seq<Arrival>): (segs: seq<seq<Arrival>>)
    ensures |segs| >= 1 && (|segs| > 1 ==> segs[|segs| - 1] != [])
  {
    if trace == [] then [[]]
    else
      var last, segs := trace[|trace| - 1], Segments(threshold, trace[..|trace| - 1]);
      if last.iat <= threshold then segs[|segs| - 1 := segs[|segs| - 1] + [last]] else segs + [[last]]
  }

  /** Every segment but the first starts at a gap above the threshold, and there are no other such gaps. */
  predicate CutAtGaps(threshold: nat, segs: seq<seq<Arrival>>)
  {
    && (forall i :: 0 < i < |segs| ==> segs[i] != [] && segs[i][0].iat > threshold)
    && (forall i, j :: 0 <= i < |segs| && (if i == 0 then 0 else 1) <= j < |segs[i]| ==> segs[i][j].iat <= threshold)
  }

  lemma SegmentsCutTheTrace(threshold: nat, trace: seq<Arrival>)
    ensures Flatten(Segments(threshold, trace)) == trace
    ensures CutAtGaps(threshold, Segments(threshold, trace))
  {
    FlattenSegments(threshold, trace);
    SegmentsAreCut(threshold, trace);
  }

  lemma {:induction false} FlattenSegments(threshold: nat, trace: seq<Arrival>)
    ensures Flatten(Segments(threshold, trace)) == trace
  {
    if trace != [] {
      var front, last := trace[..|trace| - 1], trace[|trace| - 1];
      FlattenSegments(threshold, front);
      var segs := Segments(threshold, front);
      if last.iat <= threshold {
        FlattenGrown(segs, last);
      } else {
        FlattenOneMore(segs, [last]);
      }
      hide Flatten;
      FrontAndLast(trace);
    }
  }

  lemma FlattenOneMore<T>(parts: seq<seq<T>>, part: seq<T>)
    ensures Flatten(parts + [part]) == Flatten(parts) + part
  {
    FrontOfOneMore(parts, part);
  }

  lemma FlattenGrown<T>(parts: seq<seq<T>>, x: T)
    requires parts != []
    ensures Flatten(parts[|parts| - 1 := parts[|parts| - 1] + [x]]) == Flatten(parts) + [x]
  {
    var front, last := parts[..|parts| - 1], parts[|parts| - 1];
    assert Flatten(parts) == Flatten(front) + last;
    hide *;
    FlattenOneMore(front, last + [x]);
    assert parts[|parts| - 1 := last + [x]] == front + [last + [x]];
    assert Flatten(front) + (last + [x]) == Flatten(front) + last + [x];
  }

  lemma {:induction false} SegmentsAreCut(threshold: nat, trace: seq<Arrival>)
    ensures CutAtGaps(threshold, Segments(threshold, trace))
  {
    if trace != [] {
      SegmentsAreCut(threshold, trace[..|trace| - 1]);
    }
  }

  // --- Which segments are bursts ---

  /** Of the first `n` segments, those with at least two packets (`large`), or those with fewer. */
  function Sized(segs: seq<seq<Arrival>>, n: nat, large: bool): (picked: seq<nat>)
    requires n <= |segs|
    ensures forall k :: 0 <= k < |picked| ==> picked[k] < n
  {
    if n == 0 then []
    else
      var picked := Sized(segs, n - 1, large);
      if |segs[n - 1]| >= 2 <==> large then picked + [n - 1] else picked
  }

  /** The selection is in order, sound and complete. */
  lemma {:induction false} SizedSelects(segs: seq<seq<Arrival>>, n: nat, large: bool)
    requires n <= |segs|
    ensures var picked := Sized(segs, n, large);
            && (forall j, k :: 0 <= j < k < |picked| ==> picked[j] < picked[k])
            && (forall i: nat :: i in picked <==> i < n && (|segs[i]| >= 2 <==> large))
  {
    if n > 0 {
      SizedSelects(segs, n - 1, large);
      var before, picked := Sized(segs, n - 1, large), Sized(segs, n, large);
      assert picked == if |segs[n - 1]| >= 2 <==> large then before + [n - 1] else before;
      hide Sized;
      forall i: nat ensures i in picked <==> i < n && (|segs[i]| >= 2 <==> large) {
        assert i in picked <==> i in before || (i == n - 1 && (|segs[i]| >= 2 <==> large));
      }
    }
  }

  /** The closed segments that count as bursts, in order. */
  function BurstSegments(segs: seq<seq<Arrival>>): (picked: seq<nat>)
    requires |segs| >= 1
    ensures forall k :: 0 <= k < |picked| ==> picked[k] < |segs| - 1
  {
    Sized(segs, |segs| - 1, true)
  }

  lemma {:induction false} SizedIsLocal(s: seq<seq<Arrival>>, t: seq<seq<Arrival>>, n: nat, large: bool)
    requires n <= |s| && n <= |t| && s[..n] == t[..n]
    ensures Sized(s, n, large) == Sized(t, n, large)
  {
    if n > 0 {
      assert s[..n][n - 1] == s[n - 1] && t[..n][n - 1] == t[n - 1];
      assert s[..n - 1] == s[..n][..n - 1] && t[..n - 1] == t[..n][..n - 1];
      SizedIsLocal(s, t, n - 1, large);
    }
  }

  function Bytes(s: seq<Arrival>): nat
  {
    if s == [] then 0 else Bytes(s[..|s| - 1]) + s[|s| - 1].len
  }

  /** When segment `i` starts as far as the flow knows: the first one keeps the initial time 0. */
  function StartOf(segs: seq<seq<Arrival>>, i: nat): nat
    requires i < |segs|
  {
    if i == 0 || segs[i] == [] then 0 else segs[i][0].ts
  }

  /** Record `k` is about segment `i`: its size and packet count, the time from its start to the packet
      that closed it and, except for the first record, the gap that closed it. */
  predicate Records(b: Burst, segs: seq<seq<Arrival>>, k: nat, i: nat)
    requires Consistent(b) && k < |b.sizes|
  {
    && i + 1 < |segs| && segs[i + 1] != []
    && b.sizes[k] == Bytes(segs[i])
    && b.counts[k] == |segs[i]|
    && b.durations[k] == Sub64(segs[i + 1][0].ts, StartOf(segs, i))
    && (k > 0 ==> b.intervals[k - 1] == segs[i + 1][0].iat)
  }

  predicate Describes(b: Burst, segs: seq<seq<Arrival>>, capacity: nat)
    requires Consistent(b) && |segs| >= 1
  {
    && |b.sizes| == Min(capacity, |BurstSegments(segs)|)
    && (forall k: nat :: k < |b.sizes| ==> Records(b, segs, k, BurstSegments(segs)[k]))
    && b.bytes == Bytes(segs[|segs| - 1])
    && b.pkts == |segs[|segs| - 1]|
    && b.start == StartOf(segs, |segs| - 1)
  }

  /** The records are exactly the first `capacity` closed segments of two packets or more, in order, and
      the live counters describe the open segment. */
  lemma {:induction false} RecordsAreTheBursts(capacity: nat, threshold: nat, trace: seq<Arrival>)
    ensures Describes(Run(capacity, threshold, trace), Segments(threshold, trace), capacity)
  {
    if trace != [] {
      var front, last := trace[..|trace| - 1], trace[|trace| - 1];
      RecordsAreTheBursts(capacity, threshold, front);
      hide Describes;
      if last.iat <= threshold {
        StepInside(capacity, threshold, Run(capacity, threshold, front), Segments(threshold, front), last);
      } else {
        StepAcross(capacity, threshold, Run(capacity, threshold, front), Segments(threshold, front), last);
      }
    }
  }

  lemma StepInside(capacity: nat, threshold: nat, b: Burst, segs: seq<seq<Arrival>>, p: Arrival)
    requires Consistent(b) && |segs| >= 1 && Describes(b, segs, capacity) && p.iat <= threshold
    requires |segs| > 1 ==> segs[|segs| - 1] != []
    ensures var segs' := segs[|segs| - 1 := segs[|segs| - 1] + [p]];
            Describes(BurstStep(b, capacity, threshold, p.len, p.iat, p.ts), segs', capacity)
  {
    hide Sized, Sub64;
    var open := segs[|segs| - 1];
    var b', segs' := BurstStep(b, capacity, threshold, p.len, p.iat, p.ts), segs[|segs| - 1 := open + [p]];
    SizedIsLocal(segs, segs', |segs| - 1, true);
    assert (open + [p])[..|open|] == open;
    forall k: nat | k < |b'.sizes| ensures Records(b', segs', k, BurstSegments(segs')[k]) {
      assert Records(b, segs, k, BurstSegments(segs)[k]);
    }
  }

  lemma StepAcross(capacity: nat, threshold: nat, b: Burst, segs: seq<seq<Arrival>>, p: Arrival)
    requires Consistent(b) && |segs| >= 1 && Describes(b, segs, capacity) && p.iat > threshold
    ensures Describes(BurstStep(b, capacity, threshold, p.len, p.iat, p.ts), segs + [[p]], capacity)
  {
    var b', segs' := BurstStep(b, capacity, threshold, p.len, p.iat, p.ts), segs + [[p]];
    BurstsAcross(segs, p);
    hide Sized, Sub64, BurstSegments;
    forall k: nat | k < |b'.sizes| ensures Records(b', segs', k, BurstSegments(segs')[k]) {
      if k < |b.sizes| {
        assert Records(b, segs, k, BurstSegments(segs)[k]);
      }
    }
    assert [p][..0] == [] && Bytes([p]) == p.len;
  }

  lemma BurstsAcross(segs: seq<seq<Arrival>>, p: Arrival)
    requires |segs| >= 1
    ensures BurstSegments(segs + [[p]]) ==
            if |segs[|segs| - 1]| >= 2 then BurstSegments(segs) + [|segs| - 1] else BurstSegments(segs)
  {
    SizedIsLocal(segs, segs + [[p]], |segs| - 1, true);
  }

  // --- Conservation ---

  /** Bytes or packets of a segment. */
  function Weight(s: seq<Arrival>, bytes: bool): nat
  {
    if bytes then Bytes(s) else |s|
  }

  function Total(segs: seq<seq<Arrival>>, picked: seq<nat>, bytes: bool): nat
    requires forall k :: 0 <= k < |picked| ==> picked[k] < |segs|
  {
    if picked == [] then 0
    else Total(segs, picked[..|picked| - 1], bytes) + Weight(segs[picked[|picked| - 1]], bytes)
  }

  /** Nothing is lost or counted twice: what the records, the open segment, the segments too short to
      be bursts and the bursts that found no room add up to is the whole flow. */
  lemma BytesAndPacketsAddUp(capacity: nat, threshold: nat, trace: seq<Arrival>)
    ensures var b, segs := Run(capacity, threshold, trace), Segments(threshold, trace);
            var bursts := BurstSegments(segs);
            var recorded := Min(capacity, |bursts|);
            var tooShort := Sized(segs, |segs| - 1, false);
            && Sum(b.sizes) == Total(segs, bursts[..recorded], true)
            && Sum(b.counts) == Total(segs, bursts[..recorded], false)
            && Sum(b.sizes) + b.bytes + Total(segs, tooShort, true) + Total(segs, bursts[recorded..], true) == Bytes(trace)
            && Sum(b.counts) + b.pkts + Total(segs, tooShort, false) + Total(segs, bursts[recorded..], false) == |trace|
  {
    WeightAddsUp(capacity, threshold, trace, true);
    WeightAddsUp(capacity, threshold, trace, false);
    hide Run, Segments, Sized, Total, Sum, Bytes, Min, BurstSegments;
  }

  lemma WeightAddsUp(capacity: nat, threshold: nat, trace: seq<Arrival>, bytes: bool)
    ensures var b, segs := Run(capacity, threshold, trace), Segments(threshold, trace);
            var bursts := BurstSegments(segs);
            var recorded := Min(capacity, |bursts|);
            var sum := Sum(if bytes then b.sizes else b.counts);
            && sum == Total(segs, bursts[..recorded], bytes)
            && sum + (if bytes then b.bytes else b.pkts) + Total(segs, Sized(segs, |segs| - 1, false), bytes)
               + Total(segs, bursts[recorded..], bytes) == Weight(trace, bytes)
  {
    hide *;
    RecordedWeight(capacity, threshold, trace, bytes);
    TraceWeight(threshold, trace, bytes);
    TotalOfParts(Segments(threshold, trace), BurstSegments(Segments(threshold, trace)),
                 Min(capacity, |BurstSegments(Segments(threshold, trace))|), bytes);
  }

  lemma RecordedWeight(capacity: nat, threshold: nat, trace: seq<Arrival>, bytes: bool)
    ensures var b, segs := Run(capacity, threshold, trace), Segments(threshold, trace);
            var recorded := Min(capacity, |BurstSegments(segs)|);
            && recorded <= |BurstSegments(segs)|
            && Sum(if bytes then b.sizes else b.counts) == Total(segs, BurstSegments(segs)[..recorded], bytes)
            && (if bytes then b.bytes else b.pkts) == Weight(segs[|segs| - 1], bytes)
  {
    RecordsAreTheBursts(capacity, threshold, trace);
    hide Run, Segments, Sized;
    var b, segs := Run(capacity, threshold, trace), Segments(threshold, trace);
    var n := |b.sizes|;
    RecordsSum(b, segs, BurstSegments(segs), n, bytes);
    assert b.sizes[..n] == b.sizes && b.counts[..n] == b.counts;
  }

  /** The closed segments, large and small, and the open one are the whole trace. */
  lemma TraceWeight(threshold: nat, trace: seq<Arrival>, bytes: bool)
    ensures var segs := Segments(threshold, trace);
            Total(segs, BurstSegments(segs), bytes) + Total(segs, Sized(segs, |segs| - 1, false), bytes)
            + Weight(segs[|segs| - 1], bytes) == Weight(trace, bytes)
  {
    SegmentsCutTheTrace(threshold, trace);
    hide Segments, Sized, CutAtGaps, Weight, Total;
    var segs := Segments(threshold, trace);
    AllSegments(segs, |segs| - 1, bytes);
    WeightOfConcat(Flatten(segs[..|segs| - 1]), segs[|segs| - 1], bytes);
  }

  lemma TotalOfParts(segs: seq<seq<Arrival>>, picked: seq<nat>, n: nat, bytes: bool)
    requires forall k :: 0 <= k < |picked| ==> picked[k] < |segs|
    requires n <= |picked|
    ensures Total(segs, picked, bytes) == Total(segs, picked[..n], bytes) + Total(segs, picked[n..], bytes)
  {
    assert picked == picked[..n] + picked[n..];
    TotalOfConcat(segs, picked[..n], picked[n..], bytes);
  }

  lemma {:induction false} RecordsSum(b: Burst, segs: seq<seq<Arrival>>, bursts: seq<nat>, n: nat, bytes: bool)
    requires Consistent(b) && n <= |bursts| && n <= |b.sizes|
    requires forall k :: 0 <= k < |bursts| ==> bursts[k] < |segs|
    requires forall k: nat :: k < n ==> Records(b, segs, k, bursts[k])
    ensures Sum(if bytes then b.sizes[..n] else b.counts[..n]) == Total(segs, bursts[..n], bytes)
  {
    if n > 0 {
      RecordsSum(b, segs, bursts, n - 1, bytes);
      assert Records(b, segs, n - 1, bursts[n - 1]);
      assert bursts[..n][..n - 1] == bursts[..n - 1];
      assert b.sizes[..n][..n - 1] == b.sizes[..n - 1] && b.counts[..n][..n - 1] == b.counts[..n - 1];
    }
  }

  lemma {:induction false} TotalOfConcat(segs: seq<seq<Arrival>>, x: seq<nat>, y: seq<nat>, bytes: bool)
    requires forall k :: 0 <= k < |x| ==> x[k] < |segs|
    requires forall k :: 0 <= k < |y| ==> y[k] < |segs|
    ensures Total(segs, x + y, bytes) == Total(segs, x, bytes) + Total(segs, y, bytes)
  {
    if y == [] {
      assert x + y == x;
    } else {
      assert (x + y)[..|x + y| - 1] == x + y[..|y| - 1];
      TotalOfConcat(segs, x, y[..|y| - 1], bytes);
    }
  }

  lemma {:induction false} WeightOfConcat(x: seq<Arrival>, y: seq<Arrival>, bytes: bool)
    ensures Weight(x + y, bytes) == Weight(x, bytes) + Weight(y, bytes)
  {
    if y == [] {
      assert x + y == x;
    } else {
      assert (x + y)[..|x + y| - 1] == x + y[..|y| - 1];
      WeightOfConcat(x, y[..|y| - 1], bytes);
    }
  }

  lemma TotalOfOneMore(segs: seq<seq<Arrival>>, picked: seq<nat>, i: nat, bytes: bool)
    requires forall k :: 0 <= k < |picked| ==> picked[k] < |segs|
    requires i < |segs|
    ensures Total(segs, picked + [i], bytes) == Total(segs, picked, bytes) + Weight(segs[i], bytes)
  {
    assert (picked + [i])[..|picked|] == picked;
  }

  /** The first `n` segments split into large and small ones. */
  lemma {:induction false} AllSegments(segs: seq<seq<Arrival>>, n: nat, bytes: bool)
    requires n <= |segs|
    ensures Total(segs, Sized(segs, n, true), bytes) + Total(segs, Sized(segs, n, false), bytes) ==
            Weight(Flatten(segs[..n]), bytes)
  {
    if n > 0 {
      AllSegments(segs, n - 1, bytes);
      assert segs[..n][..n - 1] == segs[..n - 1];
      WeightOfConcat(Flatten(segs[..n - 1]), segs[n - 1], bytes);
      TotalOfOneMore(segs, Sized(segs, n - 1, |segs[n - 1]| >= 2), n - 1, bytes);
      hide Weight, Total;
    }
  }

  // --- In a flow ---

  /** The packets of a flow as burst detection sees them; the first one has no gap before it. */
  function Arrivals(cfg: FlowSpec.Config, trace: seq<Tiering.Event>): (arrivals: seq<Arrival>)
    ensures |arrivals| == |trace|
  {
    if trace == [] then []
    else
      var front, p := trace[..|trace| - 1], trace[|trace| - 1].packet;
      Arrivals(cfg, front) + [Arrival(p.len, FlowSpec.Gap(Tiering.ClockAfter(cfg, front), p), p.ts)]
  }

  lemma {:induction false} LargeFlowBursts(cfg: FlowSpec.Config, trace: seq<Tiering.Event>)
    requires cfg.burst
    ensures Tiering.Run(cfg, Layout.LARGE, trace).burst == Run(5000, cfg.burstThresholdUs, Arrivals(cfg, trace))
  {
    if trace != [] {
      var front := trace[..|trace| - 1];
      LargeFlowBursts(cfg, front);
      Tiering.ClockOfRun(cfg, Layout.LARGE, front);
      Tiering.LargeStaysLarge(cfg, trace);
      assert Arrivals(cfg, trace)[..|trace| - 1] == Arrivals(cfg, front);
      hide BurstStep, FlowSpec.Gap;
    }
  }

  /** If allocations succeed, a flow records its first 5000 bursts, whatever levels it goes through. */
  lemma FlowRecordsItsBursts(cfg: FlowSpec.Config, start: Layout.Level, trace: seq<Tiering.Event>)
    requires cfg.burst && Tiering.AllocationsSucceed(trace)
    ensures Describes(Tiering.Run(cfg, start, trace).burst, Segments(cfg.burstThresholdUs, Arrivals(cfg, trace)), 5000)
  {
    Tiering.SeenAlike(cfg, start, trace);
    LargeFlowBursts(cfg, trace);
    RecordsAreTheBursts(5000, cfg.burstThresholdUs, Arrivals(cfg, trace));
    hide Describes, Tiering.Run, Run, Segments, Arrivals;
  }

  /** A packet's length and time, and the time since the packet before it. */
  lemma {:induction false} ArrivalsAre(cfg: FlowSpec.Config, trace: seq<Tiering.Event>, k: nat)
    requires Tiering.Timed(trace) && k < |trace|
    ensures var p := trace[k].packet;
            Arrivals(cfg, trace)[k] ==
            Arrival(p.len, if k == 0 then 0 else (p.ts as int - trace[k - 1].packet.ts as int) % 0x1_0000_0000_0000_0000, p.ts)
  {
    var n := |trace| - 1;
    var front := trace[..n];
    assert Tiering.Timed(front);
    if k < n {
      ArrivalsAre(cfg, front, k);
    } else if k > 0 {
      Tiering.LastArrival(cfg, front);
      assert trace[k - 1] in trace;
    }
    hide Tiering.ClockAfter;
  }

  /** What that says, record by record: the k-th record is about the k-th closed segment of at least two
      packets (size, packets, time from its start to the packet that closed it, and, but for the first, the
      gap that closed it), and the live counters are about the open segment. */
  lemma RecordByRecord(b: Burst, segs: seq<seq<Arrival>>, capacity: nat)
    requires Consistent(b) && |segs| >= 1 && Describes(b, segs, capacity)
    ensures var bursts := BurstSegments(segs);
            && |b.sizes| == |b.counts| == |b.durations| == Min(|bursts|, capacity)
            && |b.intervals| == (if b.sizes == [] then 0 else |b.sizes| - 1)
            && (forall k: nat :: k < |b.sizes| ==>
                  var i := bursts[k];
                  && i + 1 < |segs| && segs[i] != [] && segs[i + 1] != []
                  && b.sizes[k] == Bytes(segs[i]) && b.counts[k] == |segs[i]|
                  && b.durations[k] == (segs[i + 1][0].ts as int - (if i == 0 then 0 else segs[i][0].ts) as int)
                                       % 0x1_0000_0000_0000_0000
                  && (k > 0 ==> b.intervals[k - 1] == segs[i + 1][0].iat))
            && b.bytes == Bytes(segs[|segs| - 1]) && b.pkts == |segs[|segs| - 1]|
  {
    var bursts := BurstSegments(segs);
    assert |b.sizes| == Min(capacity, |bursts|);
    forall k: nat | k < |b.sizes|
      ensures var i := bursts[k];
              && i + 1 < |segs| && segs[i] != [] && segs[i + 1] != []
              && b.sizes[k] == Bytes(segs[i]) && b.counts[k] == |segs[i]|
              && b.durations[k] == (segs[i + 1][0].ts as int - (if i == 0 then 0 else segs[i][0].ts) as int)
                                   % 0x1_0000_0000_0000_0000
              && (k > 0 ==> b.intervals[k - 1] == segs[i + 1][0].iat)
    {
      assert Records(b, segs, k, bursts[k]);
      hide *;
      BurstIsLarge(segs, k);
      RecordIs(b, segs, k, bursts[k]);
    }
    hide Records, BurstSegments, Bytes;
  }

  lemma BurstIsLarge(segs: seq<seq<Arrival>>, k: nat)
    requires |segs| >= 1 && k < |BurstSegments(segs)|
    ensures |segs[BurstSegments(segs)[k]]| >= 2
  {
    SizedSelects(segs, |segs| - 1, true);
    assert BurstSegments(segs)[k] in BurstSegments(segs);
  }

  lemma RecordIs(b: Burst, segs: seq<seq<Arrival>>, k: nat, i: nat)
    requires Consistent(b) && k < |b.sizes| && Records(b, segs, k, i) && segs[i] != []
    ensures |b.sizes| == |b.counts| == |b.durations| && |b.intervals| == |b.sizes| - 1
    ensures i + 1 < |segs| && segs[i + 1] != [] && b.sizes[k] == Bytes(segs[i]) && b.counts[k] == |segs[i]|
    ensures b.durations[k] == (segs[i + 1][0].ts as int - (if i == 0 then 0 else segs[i][0].ts) as int)
                              % 0x1_0000_0000_0000_0000
    ensures k > 0 ==> b.intervals[k - 1] == segs[i + 1][0].iat
  {
  }

  lemma {:induction false} ArrivalBytes(cfg: FlowSpec.Config, trace: seq<Tiering.Event>)
    ensures Bytes(Arrivals(cfg, trace)) == Tiering.SumOver(trace, (p: FlowSpec.Packet) => p.len)
  {
    if trace != [] {
      var front, p := trace[..|trace| - 1], trace[|trace| - 1].packet;
      ArrivalBytes(cfg, front);
      assert Arrivals(cfg, trace)[..|trace| - 1] == Arrivals(cfg, front);
      assert Arrivals(cfg, trace)[|trace| - 1].len == p.len;
      hide FlowSpec.Gap, Tiering.ClockAfter;
    }
  }

  /** The flow's burst records, its open burst, the segments too short for bursts and the bursts without
      room add up to the flow's byte and packet counters. */
  lemma FlowBurstsAddUp(cfg: FlowSpec.Config, start: Layout.Level, trace: seq<Tiering.Event>)
    requires cfg.burst && Tiering.AllocationsSucceed(trace)
    ensures var f, segs := Tiering.Run(cfg, start, trace), Segments(cfg.burstThresholdUs, Arrivals(cfg, trace));
            var b, bursts, tooShort := f.burst, BurstSegments(segs), Sized(segs, |segs| - 1, false);
            var recorded := Min(5000, |bursts|);
            && Sum(b.sizes) + b.bytes + Total(segs, tooShort, true) + Total(segs, bursts[recorded..], true) == f.totals.bytes
            && Sum(b.counts) + b.pkts + Total(segs, tooShort, false) + Total(segs, bursts[recorded..], false) == f.totals.packets
  {
    hide *;
    Tiering.SeenAlike(cfg, start, trace);
    LargeFlowBursts(cfg, trace);
    BytesAndPacketsAddUp(5000, cfg.burstThresholdUs, Arrivals(cfg, trace));
    Tiering.CountersAreSums(cfg, start, trace);
    ArrivalBytes(cfg, trace);
  }
}
