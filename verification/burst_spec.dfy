/** Burst detection: packets closer together than a threshold belong to one burst. */
module BurstSpec {
  import opened Words

  /** The open burst, and what has been recorded of the closed ones. */
  datatype Burst = Burst(start: nat, bytes: nat, pkts: nat, sizes: seq<int>, durations: seq<int>, intervals: seq<int>,
                         counts: seq<int>)

  const NO_BURST := Burst(0, 0, 0, [], [], [], [])

  predicate Consistent(b: Burst)
  {
    && |b.durations| == |b.counts| == |b.sizes|
    && |b.intervals| == if |b.sizes| == 0 then 0 else |b.sizes| - 1
  }

  /** Records the open burst, which a packet `iat` after its last one closes at time `ts`. */
  function Recorded(b: Burst, iat: nat, ts: nat): Burst
  {
    b.(sizes := b.sizes + [b.bytes], durations := b.durations + [Sub64(ts, b.start)],
       counts := b.counts + [b.pkts], intervals := if |b.sizes| > 0 then b.intervals + [iat] else b.intervals)
  }

  function BurstStep(b: Burst, capacity: nat, threshold: nat, len: nat, iat: nat, ts: nat): Burst
  {
    if iat <= threshold then
      b.(bytes := b.bytes + len, pkts := b.pkts + 1)
    else
      var closed := if b.pkts > 1 && |b.sizes| < capacity then Recorded(b, iat, ts) else b;
      closed.(start := ts, bytes := len, pkts := 1)
  }
}
