/** Packet and byte counts per fixed-length time window. */
module WindowSpec {
  import opened Words

  /** When the first window starts (0: not yet), the first window not entered yet, and the counters. */
  datatype Window = Window(start: nat, current: nat, pkts: seq<int>, bytes: seq<int>, bitrate: seq<int>)

  predicate Consistent(w: Window)
  {
    |w.pkts| == |w.bytes| == |w.bitrate|
  }

  function NoWindows(n: nat): Window
  {
    Window(0, 0, seq(n, _ => 0), seq(n, _ => 0), seq(n, _ => 0))
  }

  function WindowUs(sizeMs: nat): nat
  {
    sizeMs * 1000
  }

  /** Number of the window that time `ts` falls in. */
  function Target(start: nat, sizeMs: nat, ts: nat): nat
    requires sizeMs > 0
  {
    Trunc32(Quotient(Sub64(ts, start), WindowUs(sizeMs)))
  }

  /** Bits per second of a window holding `bytes`. */
  function Bitrate(bytes: int, us: nat): int
    requires us > 0
  {
    bytes * 8 * 1000000 / us % TWO32
  }

  /** Enters the current window, computing its bit rate. */
  function Entered(w: Window, us: nat): Window
    requires Consistent(w) && us > 0 && w.current < |w.pkts|
  {
    w.(bitrate := w.bitrate[w.current := Bitrate(w.bytes[w.current], us)], current := w.current + 1)
  }

  /** Enters every window up to `target`. */
  function Advance(w: Window, target: nat, us: nat): (a: Window)
    requires Consistent(w) && us > 0
    ensures Consistent(a) && |a.pkts| == |w.pkts| && a.pkts == w.pkts && a.bytes == w.bytes && a.start == w.start
    decreases |w.pkts| - w.current
  {
    if w.current <= target && w.current < |w.pkts| then
      Advance(Entered(w, us), target, us)
    else w
  }

  /** The first packet starts the first window. */
  function Begun(w: Window, ts: nat): (b: Window)
  {
    if w.start == 0 then w.(start := ts, current := 0) else w
  }

  /** Counts a packet in window `target`, unless that lies past the last window. */
  function Counted(w: Window, target: nat, len: nat): (c: Window)
    requires Consistent(w)
    ensures Consistent(c) && |c.pkts| == |w.pkts|
  {
    if target < |w.pkts| then
      w.(pkts := w.pkts[target := w.pkts[target] + 1], bytes := w.bytes[target := w.bytes[target] + len])
    else w
  }

  function WindowStep(w: Window, sizeMs: nat, len: nat, ts: nat): (w': Window)
    requires Consistent(w)
    ensures Consistent(w') && |w'.pkts| == |w.pkts|
  {
    if sizeMs == 0 then w
    else
      var begun := Begun(w, ts);
      var target := Target(begun.start, sizeMs, ts);
      Counted(Advance(begun, target, WindowUs(sizeMs)), target, len)
  }
}
