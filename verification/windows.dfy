/** What the window counters hold after a whole run. */
module Windows {
  import opened Common
  import opened Words
  import opened WindowSpec
  import FlowSpec
  import Layout
  import Tiering

  datatype Hit = Hit(len: nat, ts: nat)

  function Run(windows: nat, sizeMs: nat, trace: seq<Hit>): (w: Window)
    ensures Consistent(w) && |w.pkts| == windows
  {
    if trace == [] then NoWindows(windows)
    else
      var last := trace[|trace| - 1];
      WindowStep(Run(windows, sizeMs, trace[..|trace| - 1]), sizeMs, last.len, last.ts)
  }

  predicate Timed(trace: seq<Hit>)
  {
    forall h <- trace :: h.ts > 0
  }

  /** The window packet `k` belongs to. */
  function TargetOf(sizeMs: nat, trace: seq<Hit>, k: nat): nat
    requires sizeMs > 0 && k < |trace|
  {
    Target(trace[0].ts, sizeMs, trace[k].ts)
  }

  /** Packets (or bytes) of the first `n` packets that belong to window `i`. */
  function Hits(sizeMs: nat, trace: seq<Hit>, n: nat, i: nat, bytes: bool): nat
    requires sizeMs > 0 && n <= |trace|
  {
    if n == 0 then 0
    else Hits(sizeMs, trace, n - 1, i, bytes) +
         if TargetOf(sizeMs, trace, n - 1) != i then 0 else if bytes then trace[n - 1].len else 1
  }

  /** One more than the highest window reached by the first `n` packets. */
  function Reach(sizeMs: nat, trace: seq<Hit>, n: nat): nat
    requires sizeMs > 0 && n <= |trace|
  {
    if n == 0 then 0 else Max(Reach(sizeMs, trace, n - 1), TargetOf(sizeMs, trace, n - 1) + 1)
  }

  /** The counters are what the first `n` packets of the trace make of them. */
  predicate Tallies(w: Window, windows: nat, sizeMs: nat, trace: seq<Hit>, n: nat)
    requires sizeMs > 0 && n <= |trace| && Consistent(w)
  {
    && |w.pkts| == windows
    && w.start == (if n == 0 then 0 else trace[0].ts)
    && w.current == Min(Reach(sizeMs, trace, n), windows)
    && forall i: nat :: i < windows ==> && w.pkts[i] == Hits(sizeMs, trace, n, i, false)
                                        && w.bytes[i] == Hits(sizeMs, trace, n, i, true)
                                        && w.bitrate[i] == 0
  }

  /** Every window counts exactly the packets and bytes that belong to it; the current window is one
      past the highest one reached; and the bit rates stay 0, as each is computed before its window
      has counted anything. */
  lemma {:induction false} WindowsTally(windows: nat, sizeMs: nat, trace: seq<Hit>, n: nat)
    requires sizeMs > 0 && Timed(trace) && n <= |trace|
    ensures Tallies(Run(windows, sizeMs, trace[..n]), windows, sizeMs, trace, n)
  {
    if n > 0 {
      WindowsTally(windows, sizeMs, trace, n - 1);
      assert trace[..n][..n - 1] == trace[..n - 1];
      assert trace[0] in trace;
      StepTallies(Run(windows, sizeMs, trace[..n - 1]), windows, sizeMs, trace, n - 1);
    }
  }

  lemma StepTallies(w: Window, windows: nat, sizeMs: nat, trace: seq<Hit>, n: nat)
    requires sizeMs > 0 && n < |trace| && trace[0].ts > 0
    requires Consistent(w) && Tallies(w, windows, sizeMs, trace, n)
    ensures Tallies(WindowStep(w, sizeMs, trace[n].len, trace[n].ts), windows, sizeMs, trace, n + 1)
  {
    var target := TargetOf(sizeMs, trace, n);
    var begun := Begun(w, trace[n].ts);
    assert begun.start == trace[0].ts && begun.current == w.current;
    forall i: nat | i < windows && begun.current <= i ensures begun.bytes[i] == 0 {
      NothingPastReach(sizeMs, trace, n, i);
    }
    AdvanceReaches(begun, target, WindowUs(sizeMs));
    hide Target;
  }

  lemma {:induction false} NothingPastReach(sizeMs: nat, trace: seq<Hit>, n: nat, i: nat)
    requires sizeMs > 0 && n <= |trace| && Reach(sizeMs, trace, n) <= i
    ensures Hits(sizeMs, trace, n, i, true) == 0
  {
    if n > 0 {
      NothingPastReach(sizeMs, trace, n - 1, i);
    }
  }

  /** Entering windows that have counted nothing leaves their bit rates at 0. */
  lemma {:induction false} AdvanceReaches(w: Window, target: nat, us: nat)
    requires Consistent(w) && us > 0 && w.current <= |w.pkts|
    requires forall i: nat :: i < |w.pkts| ==> w.bitrate[i] == 0 && (w.current <= i ==> w.bytes[i] == 0)
    ensures var a := Advance(w, target, us);
            && a.current == Min(Max(w.current, target + 1), |w.pkts|)
            && forall i: nat :: i < |w.pkts| ==> a.bitrate[i] == 0
    decreases |w.pkts| - w.current
  {
    if w.current <= target && w.current < |w.pkts| {
      assert Bitrate(0, us) == 0;
      AdvanceReaches(Entered(w, us), target, us);
    }
  }

  /** The window of a packet, in 32 bits, and when it is the one that its time lies in: for times in
      order, up to 2^32 windows after the first packet. */
  lemma TargetIsElapsedWindows(sizeMs: nat, trace: seq<Hit>, k: nat)
    requires sizeMs > 0 && k < |trace| && trace[0].ts <= trace[k].ts < 0x1_0000_0000_0000_0000
    ensures var w, first, ts := TargetOf(sizeMs, trace, k), trace[0].ts, trace[k].ts;
            && w < 0x1_0000_0000
            && w == (ts - first) / (1000 * sizeMs) % 0x1_0000_0000
            && (first + w * (1000 * sizeMs) <= ts < first + (w + 1) * (1000 * sizeMs) <==>
                ts - first < 0x1_0000_0000 * (1000 * sizeMs))
  {
    Sub64Exact(trace[k].ts, trace[0].ts);
    TargetOfTime(sizeMs, trace[0].ts, trace[k].ts);
    hide *;
    WindowOfDistance(trace[k].ts - trace[0].ts, 1000 * sizeMs);
  }

  /** The same for any times, in 64-bit arithmetic. */
  lemma TargetOfTime(sizeMs: nat, first: nat, ts: nat)
    requires sizeMs > 0
    ensures Target(first, sizeMs, ts) == (ts - first) % 0x1_0000_0000_0000_0000 / (1000 * sizeMs) % 0x1_0000_0000
    ensures ts >= first && ts < 0x1_0000_0000_0000_0000 ==>
              Target(first, sizeMs, ts) == (ts - first) / (1000 * sizeMs) % 0x1_0000_0000
  {
    QuotientIs(Sub64(ts, first), WindowUs(sizeMs));
    assert WindowUs(sizeMs) == 1000 * sizeMs;
  }

  lemma QuotientIs(x: nat, d: nat)
    requires d > 0
    ensures Quotient(x, d) == x / d
  {
  }

  /** `q` windows of length `len` fit into a distance; a 32-bit number keeps them apart up to 2^32. */
  lemma WindowOfDistance(distance: nat, len: nat)
    requires len > 0
    ensures var w := distance / len % 0x1_0000_0000;
            w * len <= distance < (w + 1) * len <==> distance < 0x1_0000_0000 * len
  {
    var q := distance / len;
    var w := q % 0x1_0000_0000;
    Divided(distance, len);
    if q < 0x1_0000_0000 {
      MultiplesGrow(q + 1, 0x1_0000_0000, len);
    } else {
      MultiplesGrow(0x1_0000_0000, q, len);
      MultiplesGrow(w + 1, q, len);
    }
  }

  /** Among fewer than 2^32 windows only one holds a distance. */
  lemma OnlyWindow(distance: nat, len: nat, w: nat)
    requires len > 0 && distance < 0x1_0000_0000 * len
    ensures distance / len % 0x1_0000_0000 == w <==> w * len <= distance < (w + 1) * len
  {
    var q := distance / len;
    Divided(distance, len);
    if q >= 0x1_0000_0000 {
      MultiplesGrow(0x1_0000_0000, q, len);
    }
    if w < q {
      MultiplesGrow(w + 1, q, len);
    } else if q < w {
      MultiplesGrow(q + 1, w, len);
    }
  }

  lemma Divided(x: nat, d: nat)
    requires d > 0
    ensures x / d * d <= x < (x / d + 1) * d
  {
  }

  lemma MultiplesGrow(a: nat, b: nat, d: nat)
    requires a <= b
    ensures a * d <= b * d
  {
  }

  /** For times in order the latest packet has reached furthest. */
  lemma {:induction false} ReachInOrder(sizeMs: nat, trace: seq<Hit>, n: nat)
    requires sizeMs > 0 && 0 < n <= |trace|
    requires forall i, j :: 0 <= i < j < n ==> trace[i].ts <= trace[j].ts
    requires trace[n - 1].ts < 0x1_0000_0000_0000_0000 && trace[n - 1].ts - trace[0].ts < 0x1_0000_0000 * (1000 * sizeMs)
    ensures Reach(sizeMs, trace, n) == (trace[n - 1].ts - trace[0].ts) / (1000 * sizeMs) + 1
  {
    var first, len := trace[0].ts, 1000 * sizeMs;
    assert first <= trace[n - 1].ts;
    WindowNumber(sizeMs, first, trace[n - 1].ts);
    if n > 1 {
      assert trace[n - 2].ts <= trace[n - 1].ts && first <= trace[n - 2].ts;
      ReachInOrder(sizeMs, trace, n - 1);
      WindowNumber(sizeMs, first, trace[n - 2].ts);
      QuotientGrows(trace[n - 2].ts - first, trace[n - 1].ts - first, len);
    }
    hide Target;
  }

  lemma WindowNumber(sizeMs: nat, first: nat, ts: nat)
    requires sizeMs > 0 && first <= ts < 0x1_0000_0000_0000_0000 && ts - first < 0x1_0000_0000 * (1000 * sizeMs)
    ensures Target(first, sizeMs, ts) == (ts - first) / (1000 * sizeMs)
  {
    hide *;
    TargetOfTime(sizeMs, first, ts);
    FewWindows(ts - first, 1000 * sizeMs);
  }

  lemma FewWindows(distance: nat, len: nat)
    requires len > 0 && distance < 0x1_0000_0000 * len
    ensures distance / len < 0x1_0000_0000 && distance / len % 0x1_0000_0000 == distance / len
  {
    Divided(distance, len);
    if distance / len >= 0x1_0000_0000 {
      MultiplesGrow(0x1_0000_0000, distance / len, len);
    }
  }

  lemma QuotientGrows(x: nat, y: nat, d: nat)
    requires d > 0 && x <= y
    ensures x / d <= y / d
  {
    Divided(x, d);
    Divided(y, d);
    if y / d < x / d {
      MultiplesGrow(y / d + 1, x / d, d);
    }
  }

  // --- Conservation ---

  /** Packets (or bytes) past the last window. */
  function Beyond(windows: nat, sizeMs: nat, trace: seq<Hit>, n: nat, bytes: bool): nat
    requires sizeMs > 0 && n <= |trace|
  {
    if n == 0 then 0
    else Beyond(windows, sizeMs, trace, n - 1, bytes) +
         if TargetOf(sizeMs, trace, n - 1) < windows then 0 else if bytes then trace[n - 1].len else 1
  }

  function Bytes(trace: seq<Hit>): nat
  {
    if trace == [] then 0 else Bytes(trace[..|trace| - 1]) + trace[|trace| - 1].len
  }

  /** The windows, and the packets past the last one, account for every packet and byte. */
  lemma {:induction false} WindowsAddUp(windows: nat, sizeMs: nat, trace: seq<Hit>, n: nat)
    requires sizeMs > 0 && Timed(trace) && n <= |trace|
    ensures var w := Run(windows, sizeMs, trace[..n]);
            && Sum(w.pkts) + Beyond(windows, sizeMs, trace, n, false) == n
            && Sum(w.bytes) + Beyond(windows, sizeMs, trace, n, true) == Bytes(trace[..n])
  {
    if n == 0 {
      SumZeros(windows);
    } else {
      hide *;
      var w := Run(windows, sizeMs, trace[..n - 1]);
      WindowsAddUp(windows, sizeMs, trace, n - 1);
      OneMoreHit(windows, sizeMs, trace, n - 1);
      WindowsTally(windows, sizeMs, trace, n - 1);
      StartIsFirst(w, windows, sizeMs, trace, n - 1);
      StepAdds(w, sizeMs, trace[n - 1].len, trace[n - 1].ts, TargetOf(sizeMs, trace, n - 1));
    }
  }

  lemma OneMoreHit(windows: nat, sizeMs: nat, trace: seq<Hit>, n: nat)
    requires sizeMs > 0 && n < |trace|
    ensures Run(windows, sizeMs, trace[..n + 1]) ==
            WindowStep(Run(windows, sizeMs, trace[..n]), sizeMs, trace[n].len, trace[n].ts)
    ensures Bytes(trace[..n + 1]) == Bytes(trace[..n]) + trace[n].len
    ensures var past := TargetOf(sizeMs, trace, n) >= windows;
            && Beyond(windows, sizeMs, trace, n + 1, false) == Beyond(windows, sizeMs, trace, n, false) + (if past then 1 else 0)
            && Beyond(windows, sizeMs, trace, n + 1, true)
               == Beyond(windows, sizeMs, trace, n, true) + (if past then trace[n].len else 0)
  {
    assert trace[..n + 1][..n] == trace[..n];
    hide WindowStep, TargetOf;
  }

  lemma StartIsFirst(w: Window, windows: nat, sizeMs: nat, trace: seq<Hit>, n: nat)
    requires sizeMs > 0 && Timed(trace) && n < |trace| && Consistent(w) && Tallies(w, windows, sizeMs, trace, n)
    ensures |w.pkts| == windows && TargetOf(sizeMs, trace, n) == Target(Begun(w, trace[n].ts).start, sizeMs, trace[n].ts)
  {
    assert trace[0] in trace;
    hide Target, Reach, Hits;
  }

  lemma StepAdds(w: Window, sizeMs: nat, len: nat, ts: nat, target: nat)
    requires sizeMs > 0 && Consistent(w) && target == Target(Begun(w, ts).start, sizeMs, ts)
    ensures var w' := WindowStep(w, sizeMs, len, ts);
            && Sum(w'.pkts) == Sum(w.pkts) + (if target < |w.pkts| then 1 else 0)
            && Sum(w'.bytes) == Sum(w.bytes) + (if target < |w.pkts| then len else 0)
  {
    if target < |w.pkts| {
      SumUpdate(w.pkts, target, w.pkts[target] + 1);
      SumUpdate(w.bytes, target, w.bytes[target] + len);
    }
    hide Target, Sum;
  }

  // --- In a flow ---

  function HitsOf(trace: seq<Tiering.Event>): (hits: seq<Hit>)
    ensures |hits| == |trace|
  {
    seq(|trace|, i requires 0 <= i < |trace| => Hit(trace[i].packet.len, trace[i].packet.ts))
  }

  lemma {:induction false} FlowWindow(cfg: FlowSpec.Config, start: Layout.Level, trace: seq<Tiering.Event>)
    requires cfg.window
    ensures Tiering.Run(cfg, start, trace).window == Run(FlowSpec.NUM_WINDOWS, cfg.windowSizeMs, HitsOf(trace))
  {
    if trace != [] {
      FlowWindow(cfg, start, trace[..|trace| - 1]);
      assert HitsOf(trace)[..|trace| - 1] == HitsOf(trace[..|trace| - 1]);
      hide WindowStep;
    }
  }

  /** A flow's windows tally its packets, whichever allocations fail. */
  lemma FlowWindowsTally(cfg: FlowSpec.Config, start: Layout.Level, trace: seq<Tiering.Event>)
    requires cfg.window && cfg.windowSizeMs > 0 && Tiering.Timed(trace)
    ensures Tallies(Tiering.Run(cfg, start, trace).window, FlowSpec.NUM_WINDOWS, cfg.windowSizeMs, HitsOf(trace), |trace|)
  {
    FlowWindow(cfg, start, trace);
    var hits := HitsOf(trace);
    forall h | h in hits ensures h.ts > 0 {
      var i :| 0 <= i < |hits| && hits[i] == h;
      assert trace[i] in trace;
    }
    WindowsTally(FlowSpec.NUM_WINDOWS, cfg.windowSizeMs, hits, |trace|);
    assert hits[..|trace|] == hits;
  }
}
