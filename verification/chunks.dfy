/** Chunks: bytes sent in one direction without a pause. */
module Chunks {
  import opened Common
  import opened Words

  /** Times, lengths and directions of the packets, as read from the rings. */
  datatype Trace = Trace(ts: seq<nat>, lens: seq<nat>, dirs: seq<int>)

  predicate Usable(t: Trace)
  {
    |t.ts| == |t.lens| == |t.dirs| > 0
  }

  const PAUSE_US: nat := 100000

  /** A chunk starts where the direction changes, or after a pause. */
  predicate Cut(t: Trace, i: nat)
    requires Usable(t) && 0 < i < |t.ts|
  {
    t.dirs[i] != t.dirs[i - 1] || Sub64(t.ts[i], t.ts[i - 1]) > PAUSE_US
  }

  /** Where chunks start among the first `n` packets. */
  function Starts(t: Trace, n: nat): (starts: seq<nat>)
    requires Usable(t) && n <= |t.ts|
    ensures forall k :: 0 <= k < |starts| ==> starts[k] < n
    ensures n > 0 ==> starts != []
  {
    if n == 0 then []
    else if n == 1 || Cut(t, n - 1) then Starts(t, n - 1) + [n - 1]
    else Starts(t, n - 1)
  }

  /** Chunks start at the first packet, at every change of direction and after every pause of more than
      100 ms, in order. */
  lemma StartsAreTheCuts(t: Trace, n: nat)
    requires Usable(t) && n <= |t.ts|
    ensures var starts := Starts(t, n);
            && (forall j, k :: 0 <= j < k < |starts| ==> starts[j] < starts[k])
            && (forall i: nat :: i in starts <==>
                  i < n && (i == 0 || t.dirs[i] != t.dirs[i - 1]
                            || (t.ts[i] as int - t.ts[i - 1] as int) % 0x1_0000_0000_0000_0000 > 100000))
            && (n > 0 ==> starts[0] == 0)
  {
    StartsSelect(t, n);
    hide Starts;
  }

  lemma {:induction false} StartsSelect(t: Trace, n: nat)
    requires Usable(t) && n <= |t.ts|
    ensures var starts := Starts(t, n);
            && (forall j, k :: 0 <= j < k < |starts| ==> starts[j] < starts[k])
            && (forall i: nat :: i in starts <==> i < n && (i == 0 || Cut(t, i)))
            && (n > 0 ==> starts[0] == 0)
  {
    if n > 0 {
      StartsSelect(t, n - 1);
    }
  }

  /** The chunks closed among the first `n` packets, and the bytes of the open one. */
  datatype Split = Split(closed: seq<nat>, open: nat)

  function SplitAt(t: Trace, n: nat): Split
    requires Usable(t) && 0 < n <= |t.ts|
  {
    if n == 1 then Split([], t.lens[0])
    else
      var before, len := SplitAt(t, n - 1), t.lens[n - 1];
      if Cut(t, n - 1) then Split(before.closed + [before.open], len) else before.(open := before.open + len)
  }

  /** Bytes of the packets from the `k`-th start to the next one, or to the `n`-th packet. */
  function Between(t: Trace, n: nat, k: nat): int
    requires Usable(t) && n <= |t.ts| && k < |Starts(t, n)|
  {
    var starts := Starts(t, n);
    var to := if k + 1 < |starts| then starts[k + 1] else n;
    if starts[k] <= to then Sum(t.lens[starts[k]..to]) else 0
  }

  /** Every chunk holds exactly the bytes between its start and the next one. */
  lemma {:induction false} ChunksAreBetweenStarts(t: Trace, n: nat)
    requires Usable(t) && 0 < n <= |t.ts|
    ensures |SplitAt(t, n).closed| + 1 == |Starts(t, n)|
    ensures forall k: nat :: k < |SplitAt(t, n).closed| ==> SplitAt(t, n).closed[k] == Between(t, n, k)
    ensures SplitAt(t, n).open == Between(t, n, |Starts(t, n)| - 1)
  {
    hide *;
    if n == 1 {
      FirstChunk(t);
    } else {
      ChunksAreBetweenStarts(t, n - 1);
      SplitStep(t, n);
      LastChunk(t, n);
      var before, after := SplitAt(t, n - 1), SplitAt(t, n);
      var last := |Starts(t, n - 1)| - 1;
      forall k: nat | k < |after.closed| ensures after.closed[k] == Between(t, n, k) {
        if k < last {
          assert before.closed[k] == Between(t, n - 1, k);
          ClosedChunk(t, n, k);
        }
      }
    }
  }

  lemma FirstChunk(t: Trace)
    requires Usable(t)
    ensures SplitAt(t, 1).closed == [] && |Starts(t, 1)| == 1 && SplitAt(t, 1).open == Between(t, 1, 0)
  {
    assert Starts(t, 1) == Starts(t, 0) + [0];
    OneMorePacket(t, 0, 0);
  }

  lemma SplitStep(t: Trace, n: nat)
    requires Usable(t) && 2 <= n <= |t.ts|
    ensures var before, len := SplitAt(t, n - 1), t.lens[n - 1];
            SplitAt(t, n) == if Cut(t, n - 1) then Split(before.closed + [before.open], len)
                             else before.(open := before.open + len)
  {
  }

  /** What a packet changes: earlier chunks stay, the open one grows or is closed. */
  lemma ClosedChunk(t: Trace, n: nat, k: nat)
    requires Usable(t) && 2 <= n <= |t.ts| && k + 1 < |Starts(t, n - 1)|
    ensures k < |Starts(t, n)| && Between(t, n, k) == Between(t, n - 1, k)
  {
    hide Sum, Cut;
  }

  lemma LastChunk(t: Trace, n: nat)
    requires Usable(t) && 2 <= n <= |t.ts| && |Starts(t, n - 1)| > 0
    ensures var last := |Starts(t, n - 1)| - 1;
            if Cut(t, n - 1)
            then |Starts(t, n)| == last + 2 && Between(t, n, last) == Between(t, n - 1, last)
                 && Between(t, n, last + 1) == t.lens[n - 1]
            else |Starts(t, n)| == last + 1 && Between(t, n, last) == Between(t, n - 1, last) + t.lens[n - 1]
  {
    hide Sum, Cut;
    var starts := Starts(t, n - 1);
    OneMorePacket(t, starts[|starts| - 1], n - 1);
    OneMorePacket(t, n - 1, n - 1);
    NoPackets(t, n - 1);
  }

  lemma NoPackets(t: Trace, n: nat)
    requires Usable(t) && n <= |t.ts|
    ensures Sum(t.lens[n..n]) == 0
  {
  }

  lemma OneMorePacket(t: Trace, from: nat, to: nat)
    requires Usable(t) && from <= to < |t.ts|
    ensures Sum(t.lens[from..to + 1]) == Sum(t.lens[from..to]) + t.lens[to]
  {
    assert t.lens[from..to + 1][..to - from] == t.lens[from..to];
  }

  /** The chunks add up to all bytes. */
  lemma {:induction false} ChunksAddUp(t: Trace, n: nat)
    requires Usable(t) && 0 < n <= |t.ts|
    ensures Sum(SplitAt(t, n).closed) + SplitAt(t, n).open == Sum(t.lens[..n])
  {
    if n == 1 {
      OneMorePacket(t, 0, 0);
    } else {
      ChunksAddUp(t, n - 1);
      OneMorePacket(t, 0, n - 1);
      var before := SplitAt(t, n - 1);
      assert (before.closed + [before.open])[..|before.closed|] == before.closed;
    }
  }

  /** What is written out: an open chunk without bytes is dropped, which loses nothing. */
  function Reported(split: Split): seq<nat>
  {
    if split.open > 0 then split.closed + [split.open] else split.closed
  }

  lemma ReportLosesNothing(t: Trace)
    requires Usable(t)
    ensures Sum(Reported(SplitAt(t, |t.ts|))) == Sum(t.lens)
  {
    ChunksAddUp(t, |t.ts|);
    assert t.lens[..|t.ts|] == t.lens;
    var s := SplitAt(t, |t.ts|);
    assert (s.closed + [s.open])[..|s.closed|] == s.closed;
  }

  /** The chunk loop: `report` are the values written out, `chunkCount` the number reported with them. */
  method ChunkSequence(t: Trace) returns (report: seq<nat>, chunkCount: nat)
    requires Usable(t)
    ensures report == Reported(SplitAt(t, |t.ts|))
    ensures var split := SplitAt(t, |t.ts|); report == if split.open > 0 then split.closed + [split.open] else split.closed
    ensures chunkCount == |report|
  {
    var lastTs, lastDir, bytes := t.ts[0], t.dirs[0], t.lens[0];
    report, chunkCount := [], 0;
    var i := 1;
    while i < |t.ts|
      invariant 1 <= i <= |t.ts|
      invariant lastTs == t.ts[i - 1] && lastDir == t.dirs[i - 1]
      invariant Split(report, bytes) == SplitAt(t, i) && chunkCount == |report|
    {
      var iat := Sub64(t.ts[i], lastTs);
      if t.dirs[i] != lastDir || iat > PAUSE_US {
        report := report + [bytes];
        chunkCount := chunkCount + 1;
        bytes := 0;
      }
      bytes := bytes + t.lens[i];
      lastTs := t.ts[i];
      lastDir := t.dirs[i];
      i := i + 1;
    }
    if bytes > 0 {
      report := report + [bytes];
      chunkCount := chunkCount + 1;
    }
  }
}
