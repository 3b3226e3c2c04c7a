/** The per-flow state as it is kept in memory, and the code that updates it for each packet.

    Every operation is proved against `FlowSpec`: whatever it does to counters, array slots and ring
    indices, the flow its consumers see changes as the reference says. */
module FlowState {
  import opened BitMask
  import opened Words
  import opened Memory
  import opened Layout
  import opened Regions
  import opened CircularBuffers
  import opened MemoryPool
  import opened BurstSpec
  import opened WindowSpec
  import opened FlowSpec

  /** The elements in a ring's slots, oldest first. */
  function InOrder<T>(slots: seq<T>, tail: nat, isFull: bool): seq<T>
    requires tail <= |slots|
  {
    if isFull then slots[tail..] + slots[..tail] else slots
  }

  /** A saved copy of a ring's elements. */
  datatype Snapshot = Snapshot(data: seq<Byte>, count: nat, elemSize: nat)

  /** The snapshot holds the given elements. */
  ghost predicate Captures(s: Snapshot, r: nat, view: seq<int>)
  {
    && s.count == |view| && s.elemSize == ElemSize(r)
    && |s.data| == At(0, ElemSize(r), |view|) && Holds(s.data, 0, ElemSize(r), view)
  }

  /** The snapshots hold the views of all rings, none longer than `capacity`. */
  ghost predicate Saved(snaps: seq<Snapshot>, views: seq<seq<int>>, capacity: nat)
  {
    && |snaps| == RINGS == |views|
    && forall i :: 0 <= i < RINGS ==> Captures(snaps[i], ARRAYS + i, views[i]) && |views[i]| <= capacity
  }

  /** The first `n` snapshots hold the first `n` views. */
  ghost predicate CapturedBelow(snaps: seq<Snapshot>, views: seq<seq<int>>, n: nat)
    requires |views| == RINGS
  {
    |snaps| >= n && n <= RINGS && forall j :: 0 <= j < n ==> Captures(snaps[j], ARRAYS + j, views[j])
  }

  lemma CarriedAt(views: seq<seq<int>>, unsaved: set<nat>, i: nat)
    requires |views| == RINGS && i < RINGS
    ensures Carried(views, true, unsaved)[i] == if i in unsaved then [] else views[i]
  {
  }

  lemma NoneCaptured(views: seq<seq<int>>)
    requires |views| == RINGS
    ensures CapturedBelow([], views, 0)
  {
  }

  lemma OneMoreCaptured(snaps: seq<Snapshot>, views: seq<seq<int>>, snap: Snapshot)
    requires |snaps| < RINGS == |views| && CapturedBelow(snaps, views, |snaps|)
    requires Captures(snap, ARRAYS + |snaps|, views[|snaps|])
    ensures CapturedBelow(snaps + [snap], views, |snaps| + 1)
  {
  }

  lemma AllCaptured(snaps: seq<Snapshot>, views: seq<seq<int>>, unsaved: set<nat>, capacity: nat)
    requires |snaps| == RINGS == |views| && CapturedBelow(snaps, Carried(views, true, unsaved), RINGS)
    requires forall i :: 0 <= i < RINGS ==> |views[i]| <= capacity
    ensures Saved(snaps, Carried(views, true, unsaved), capacity)
  {
    hide Captures;
  }

  lemma SavedForLarger(snaps: seq<Snapshot>, views: seq<seq<int>>, capacity: nat, larger: nat)
    requires Saved(snaps, views, capacity) && capacity <= larger
    ensures Saved(snaps, views, larger)
  {
  }

  /** What the arrays hold once a burst is recorded; the gap that closed it is kept for all but the first. */
  function WithBurst(slots: seq<seq<int>>, bytes: nat, duration: nat, pkts: nat, gap: nat): (s: seq<seq<int>>)
    requires |slots| == REGIONS
    ensures |s| == REGIONS
  {
    var s := slots[BURST_SIZES := slots[BURST_SIZES] + [bytes]]
                  [BURST_DURATIONS := slots[BURST_DURATIONS] + [duration]]
                  [BURST_PACKET_COUNTS := slots[BURST_PACKET_COUNTS] + [pkts]];
    if |slots[BURST_SIZES]| > 0 then s[BURST_INTERVALS := slots[BURST_INTERVALS] + [gap]] else s
  }

  class FlowFeatureState {
    const pool: FlowMemPool
    var rings: seq<CircularBuffer>
    // Copies of the pool's array pointers, the capacity of the per-direction arrays and their counts.
    var arrays: seq<nat>
    var listCapacity: nat
    var listCounts: seq<nat>
    // Scratch space for computing features: two arrays of `tempLen` doubles.
    var tempBuffer: nat
    var tempBuffer2: nat
    var tempLen: nat
    var clock: Clock
    var totals: Totals
    var burstStart: nat
    var burstBytes: nat
    var burstPkts: nat
    var burstCount: nat
    var numWindows: nat
    var windowStart: nat
    var currentWindow: nat
    var lastReq: nat
    var respCount: nat
    var respCapacity: nat
    /** What the slots of each region hold, as far as they are in use. */
    ghost var slots: seq<seq<int>>
    /** What each ring holds, oldest element first. */
    ghost var views: seq<seq<int>>

    /** An uninitialised state, with its rings in place but unbound. */
    constructor ()
      ensures fresh(pool) && pool.dynamicMem == null && RingsDistinct() && fresh(rings)
    {
      pool := new FlowMemPool();
      rings, arrays, listCounts := [], [], [];
      clock, totals := Clock(0, 0, 0, false, 0), Totals(0, 0, 0, 0, 0, 0, 0, 0);
      new;
      for i := 0 to RINGS
        invariant pool.dynamicMem == null && |rings| == i && fresh(rings)
        invariant forall j, k :: 0 <= j < k < i ==> rings[j] != rings[k]
      {
        var ring := new CircularBuffer();
        rings := rings + [ring];
      }
    }

    /** Ring `i` is attached to its region of the block and keeps its view there. */
    ghost predicate RingHolds(i: nat)
      requires i < RINGS == |rings| == |views| && |slots| == REGIONS
      reads this`rings, this`slots, this`views, rings[i]
      reads pool`dynamicMem, pool`actualSeqLen, pool`numWindows, pool`respDelayCapacity
    {
      var ring := rings[i];
      && ring.Shape() && ring.data == pool.dynamicMem
      && ring.base == Offset(ARRAYS + i, pool.Dimensions())
      && ring.elemSize == ElemSize(ARRAYS + i) && ring.capacity == pool.actualSeqLen
      && ring.count == |slots[ARRAYS + i]|
      && views[i] == InOrder(slots[ARRAYS + i], ring.tail, ring.isFull)
    }

    ghost predicate RingsDistinct()
      reads this`rings
    {
      |rings| == RINGS && forall i, j :: 0 <= i < j < RINGS ==> rings[i] != rings[j]
    }

    /** The block is laid out, its regions hold `slots`, and the array pointers are current. */
    ghost predicate MemoryOk()
      reads this`rings, this`slots, this`arrays, this`listCapacity, pool.dynamicMem
      reads pool`dynamicMem, pool`dynamicMemSize, pool`dynamicMemOffset, pool`tempMem, pool`tempMemSize,
            pool`tempMemOffset, pool`arrays, pool`ringBufferData, pool`ringBufferSize, pool`level, pool`actualSeqLen,
            pool`numWindows, pool`respDelayCapacity
    {
      && pool.LaidOut() && |slots| == REGIONS && pool.Stores(slots)
      && arrays == pool.arrays && listCapacity == pool.actualSeqLen
      && RingsDistinct()
    }

    ghost predicate RingsOk()
      reads this`rings, this`slots, this`views, rings
      reads pool`dynamicMem, pool`actualSeqLen, pool`numWindows, pool`respDelayCapacity
    {
      && |rings| == RINGS == |views| && |slots| == REGIONS
      && forall i :: 0 <= i < RINGS ==> RingHolds(i)
    }

    /** The counts match the slots in use. */
    ghost predicate CountsOk()
      reads this`slots, this`listCounts, this`numWindows, this`burstCount, this`respCount, this`respCapacity
      reads pool`numWindows, pool`respDelayCapacity
    {
      && |slots| == REGIONS && |listCounts| == DIR_LISTS
      && (forall r :: 0 <= r < DIR_LISTS ==> listCounts[r] == |slots[r]|)
      && |slots[WINDOW_PKT_COUNTS]| == |slots[WINDOW_BYTE_COUNTS]| == |slots[WINDOW_BITRATE]| == numWindows
      && numWindows == pool.numWindows == NUM_WINDOWS
      && |slots[BURST_SIZES]| == |slots[BURST_DURATIONS]| == |slots[BURST_PACKET_COUNTS]| == burstCount
      && |slots[BURST_INTERVALS]| == (if burstCount == 0 then 0 else burstCount - 1)
      && respCount == |slots[RESP_DELAYS]| && respCapacity == pool.respDelayCapacity == RESP_CAPACITY
    }

    ghost predicate TempOk()
      reads this`tempLen, this`tempBuffer, this`tempBuffer2
      reads pool`level, pool`tempMem, pool`dynamicMemSize
    {
      && tempLen == TempLen(pool.level) && tempBuffer == pool.tempMem
      && tempBuffer2 == tempBuffer + tempLen * 8
      && tempBuffer2 + tempLen * 8 <= pool.dynamicMemSize
    }

    ghost predicate Valid()
      reads this`rings, this`slots, this`views, this`arrays, this`listCapacity, this`listCounts, this`numWindows
      reads this`burstCount, this`respCount, this`respCapacity, this`tempLen, this`tempBuffer, this`tempBuffer2
      reads pool.dynamicMem, rings
      reads pool`dynamicMem, pool`dynamicMemSize, pool`dynamicMemOffset, pool`tempMem, pool`tempMemSize,
            pool`tempMemOffset, pool`arrays, pool`ringBufferData, pool`ringBufferSize, pool`level, pool`actualSeqLen,
            pool`numWindows, pool`respDelayCapacity
    {
      MemoryOk() && RingsOk() && CountsOk() && TempOk()
    }

    /** The per-direction lists. */
    ghost function Lists(): (l: seq<seq<int>>)
      requires |slots| == REGIONS
      reads this`slots
      ensures |l| == DIR_LISTS
    {
      slots[..DIR_LISTS]
    }

    ghost function AsBurst(): Burst
      requires |slots| == REGIONS
      reads this`burstStart, this`burstBytes, this`burstPkts, this`slots
    {
      Burst(burstStart, burstBytes, burstPkts, slots[BURST_SIZES], slots[BURST_DURATIONS], slots[BURST_INTERVALS],
            slots[BURST_PACKET_COUNTS])
    }

    ghost function AsWindow(): Window
      requires |slots| == REGIONS
      reads this`windowStart, this`currentWindow, this`slots
    {
      Window(windowStart, currentWindow, slots[WINDOW_PKT_COUNTS], slots[WINDOW_BYTE_COUNTS], slots[WINDOW_BITRATE])
    }

    ghost function AsResponse(): Response
      requires |slots| == REGIONS
      reads this`lastReq, this`slots
    {
      Response(lastReq, slots[RESP_DELAYS])
    }

    /** The flow this state stands for. */
    ghost function AsFlow(): (f: Flow)
      requires Valid()
      reads this, pool, pool.dynamicMem, rings
      ensures WellFormed(f)
    {
      Flow(pool.level, pool.currentPktCount, clock, totals, Lists(), views, AsBurst(), AsWindow(), AsResponse())
    }

    /** `array_r[k] = v`. */
    method StoreAt(r: nat, k: nat, v: int)
      requires MemoryOk() && RingsOk() && r < ARRAYS && k < Slots(r, pool.Dimensions()) && k <= |slots[r]|
      modifies this`slots, pool.dynamicMem
      ensures MemoryOk() && RingsOk() && views == old(views)
      ensures slots == old(slots)[r := Stored(old(slots[r]), k, v)]
    {
      StoreRegion(pool.dynamicMem[..], pool.Dimensions(), slots, r, k, v);
      MemCpy(pool.dynamicMem, At(arrays[r], ElemSize(r), k), Encode(v, ElemSize(r)));
      slots := slots[r := Stored(slots[r], k, v)];
      OtherRingsKept(RINGS);
    }

    /** `array_r[count] = v`, where `count` elements are in use. */
    method StoreNext(r: nat, count: nat, v: int)
      requires MemoryOk() && RingsOk() && r < ARRAYS && count == |slots[r]| < Slots(r, pool.Dimensions())
      modifies this`slots, pool.dynamicMem
      ensures MemoryOk() && RingsOk() && views == old(views) && |slots| == REGIONS == |old(slots)|
      ensures slots == old(slots)[r := old(slots[r]) + [v]]
    {
      StoreAt(r, count, v);
    }

    /** `array_r[k]`. */
    method LoadAt(r: nat, k: nat) returns (v: int)
      requires MemoryOk() && r < ARRAYS && k < |slots[r]|
      ensures v == slots[r][k]
    {
      HoldsAt(pool.dynamicMem[..], pool.Dimensions(), slots, REGIONS, r);
      LiveInBounds(r, |slots[r]|, pool.Dimensions());
      AtMonotone(arrays[r], ElemSize(r), k, |slots[r]|);
      DecodeEncode(slots[r][k], ElemSize(r));
      v := Decode(pool.dynamicMem[At(arrays[r], ElemSize(r), k)..At(arrays[r], ElemSize(r), k) + ElemSize(r)]);
    }

    /** `array_r[k] += n`. */
    method AddAt(r: nat, k: nat, n: int)
      requires MemoryOk() && RingsOk() && r < ARRAYS && k < |slots[r]| <= Slots(r, pool.Dimensions())
      modifies this`slots, pool.dynamicMem
      ensures MemoryOk() && RingsOk() && views == old(views) && |old(slots)| == REGIONS
      ensures slots == old(slots)[r := old(slots[r])[k := old(slots[r][k]) + n]]
    {
      var v := LoadAt(r, k);
      StoreAt(r, k, v + n);
    }

    /** `circular_buffer_push` on ring `i`. */
    method PushRing(i: nat, v: int)
      requires Valid() && i < RINGS
      modifies this`slots, this`views, pool.dynamicMem, rings[i]
      ensures Valid() && slots[..ARRAYS] == old(slots[..ARRAYS])
      ensures views == KeptAt(old(views), i, SeqLen(pool.level), Some(v))
    {
      hide Layout.CalcSizeEx, Layout.Offset, Regions.HoldsFirst, Memory.Splice, Memory.Encode, Layout.ElemSize;
      hide CircularBuffers.Pushed, FlowMemPool.Packed;
      var ring := rings[i];
      ghost var r, d, m := ARRAYS + i, pool.Dimensions(), pool.dynamicMem[..];
      RingInBlock(i);
      ghost var head, tail, list := ring.head, ring.tail, slots[r];
      var rc := ring.Push(Encode(v, ring.elemSize));
      slots, views := slots[r := Stored(list, head, v)], views[i := Pushed(views[i], pool.actualSeqLen, v)];
      assert pool.Stores(slots) by {
        StoreRegion(m, d, old(slots), r, head, v);
      }
      assert RingHolds(i) by {
        SlotsPushed(list, ring.capacity, tail, v);
      }
      OtherRingsKept(i);
      CountsStillOk();
    }

    lemma RingInBlock(i: nat)
      requires MemoryOk() && RingsOk() && i < RINGS
      ensures RingHolds(i) && rings[i].Valid() && rings[i].head <= |slots[ARRAYS + i]|
      ensures Slots(ARRAYS + i, pool.Dimensions()) == rings[i].capacity
    {
      assert RingHolds(i);
      RegionInBounds(ARRAYS + i, pool.Dimensions());
    }

    /** A ring still holds its view when neither it nor its slots have changed. */
    twostate lemma RingKept(j: nat)
      requires j < |old(rings)| && rings == old(rings) && |rings| == RINGS && |slots| == REGIONS == |old(slots)|
      requires |views| == RINGS == |old(views)| && views[j] == old(views)[j]
      requires old(RingHolds(j)) && unchanged(pool) && unchanged(rings[j]) && slots[ARRAYS + j] == old(slots)[ARRAYS + j]
      ensures RingHolds(j)
    {
    }

    /** A change to ring `i` and its slots leaves the other rings alone. */
    twostate lemma OtherRingsKept(i: nat)
      requires old(MemoryOk()) && old(RingsOk()) && i <= RINGS
      requires rings == old(rings) && |slots| == REGIONS && |views| == RINGS
      requires unchanged(pool) && forall j :: 0 <= j < RINGS && j != i ==> unchanged(rings[j])
      requires forall j :: 0 <= j < RINGS && j != i ==> slots[ARRAYS + j] == old(slots)[ARRAYS + j] && views[j] == old(views)[j]
      ensures forall j :: 0 <= j < RINGS && j != i ==> RingHolds(j)
    {
      forall j | 0 <= j < RINGS && j != i
        ensures RingHolds(j)
      {
        RingKept(j);
      }
    }

    /** What a caller needs to know of a valid state. */
    lemma ValidShape()
      requires Valid()
      ensures |slots| == REGIONS && |views| == RINGS && |rings| == RINGS && |listCounts| == DIR_LISTS
      ensures WindowSpec.Consistent(AsWindow()) && |AsWindow().pkts| == numWindows
      ensures AsWindow().start == windowStart && AsWindow().current == currentWindow
      ensures BurstSpec.Consistent(AsBurst()) && |AsBurst().sizes| == burstCount
      ensures pool.LaidOut() && pool.Stores(slots) && pool.actualSeqLen == SeqLen(pool.level) && RingsDistinct()
    {
    }

    /** Pushes onto a ring that is collected only on demand. */
    method Collect(wanted: bool, i: nat, v: int)
      requires Valid() && i < RINGS
      modifies this`slots, this`views, pool.dynamicMem, rings
      ensures Valid() && |views| == RINGS && |slots| == REGIONS && Lists() == old(Lists())
      ensures AsBurst() == old(AsBurst()) && AsWindow() == old(AsWindow()) && AsResponse() == old(AsResponse())
      ensures views == KeptAt(old(views), i, SeqLen(pool.level), When(wanted, v))
    {
      if wanted {
        PushRing(i, v);
        ArraysKept();
      }
    }

    twostate lemma ArraysKept()
      requires |slots| == REGIONS == |old(slots)| && slots[..ARRAYS] == old(slots)[..ARRAYS]
      ensures Lists() == old(Lists()) && forall r :: 0 <= r < ARRAYS ==> slots[r] == old(slots)[r]
    {
      assert forall r :: 0 <= r < ARRAYS ==> slots[r] == slots[..ARRAYS][r] && old(slots)[r] == old(slots)[..ARRAYS][r];
    }

    /** Appends to a per-direction array that is collected only on demand. */
    method CollectList(wanted: bool, r: nat, v: int)
      requires Valid() && r < DIR_LISTS
      modifies this`slots, this`listCounts, pool.dynamicMem
      ensures Valid() && views == old(views) && |slots| == REGIONS
      ensures AsBurst() == old(AsBurst()) && AsWindow() == old(AsWindow()) && AsResponse() == old(AsResponse())
      ensures Lists() == AppendedAt(old(Lists()), r, SeqLen(pool.level), When(wanted, v))
    {
      if wanted {
        AppendList(r, v);
      }
    }

    /** `if (count < capacity) array_r[count++] = v` for a per-direction array. */
    method AppendList(r: nat, v: int)
      requires Valid() && r < DIR_LISTS
      modifies this`slots, this`listCounts, pool.dynamicMem
      ensures Valid() && views == old(views) && |slots| == REGIONS
      ensures AsBurst() == old(AsBurst()) && AsWindow() == old(AsWindow()) && AsResponse() == old(AsResponse())
      ensures Lists() == AppendedAt(old(Lists()), r, SeqLen(pool.level), Some(v))
    {
      hide *;
      ValidShape();
      ValidParts();
      ListRoom(r);
      if listCounts[r] < listCapacity {
        StoreListed(r, v);
      } else {
        NotAppended(Lists(), r, SeqLen(pool.level), v);
      }
      ValidParts();
    }

    method StoreListed(r: nat, v: int)
      requires MemoryOk() && RingsOk() && CountsOk() && r < DIR_LISTS && listCounts[r] < listCapacity
      requires listCapacity == SeqLen(pool.level) == Slots(r, pool.Dimensions())
      modifies this`slots, this`listCounts, pool.dynamicMem
      ensures MemoryOk() && RingsOk() && CountsOk() && views == old(views) && |slots| == REGIONS == |old(slots)|
      ensures AsBurst() == old(AsBurst()) && AsWindow() == old(AsWindow()) && AsResponse() == old(AsResponse())
      ensures Lists() == AppendedAt(old(Lists()), r, SeqLen(pool.level), Some(v))
    {
      hide FlowFeatureState.MemoryOk, FlowFeatureState.RingsOk;
      StoreAt(r, listCounts[r], v);
      listCounts := listCounts[r := listCounts[r] + 1];
    }

    lemma ListRoom(r: nat)
      requires Valid() && r < DIR_LISTS
      ensures |listCounts| == DIR_LISTS && |slots| == REGIONS && listCounts[r] == |slots[r]|
      ensures listCapacity == SeqLen(pool.level) == Slots(r, pool.Dimensions()) && Lists()[r] == slots[r]
    {
    }

    /** `calc_protocol_ip_update`, as far as the rings go. */
    method IpUpdate(cfg: Config, p: Packet)
      requires Valid()
      modifies this`slots, this`views, pool.dynamicMem, rings
      ensures Valid() && |slots| == REGIONS && Lists() == old(Lists())
      ensures AsBurst() == old(AsBurst()) && AsWindow() == old(AsWindow()) && AsResponse() == old(AsResponse())
      ensures var c, cap := clock, SeqLen(pool.level);
              views == KeptAt(KeptAt(old(views), IP_TTL_SEQ, cap, RingInput(cfg, c, p, IP_TTL_SEQ)),
                              IP_TOS_SEQ, cap, RingInput(cfg, c, p, IP_TOS_SEQ))
    {
      hide FlowFeatureState.MemoryOk, FlowFeatureState.RingsOk, FlowFeatureState.CountsOk, FlowFeatureState.TempOk;
      Collect(p.hasHeaders && cfg.protocolIp, IP_TTL_SEQ, p.ttl);
      Collect(p.hasHeaders && cfg.protocolIp, IP_TOS_SEQ, p.tos);
    }

    /** `calc_basic_counters`: totals, and the payload size of a packet that has one. */
    method BasicCounters(cfg: Config, p: Packet)
      requires Valid()
      modifies this`totals, this`slots, this`listCounts, pool.dynamicMem
      ensures |slots| == REGIONS
      ensures AsBurst() == old(AsBurst()) && AsWindow() == old(AsWindow()) && AsResponse() == old(AsResponse())
      ensures Valid() && views == old(views) && totals == CountersStep(old(totals), p)
      ensures var c, cap := clock, SeqLen(pool.level);
              Lists() == AppendedAt(AppendedAt(old(Lists()), FWD_PAYLOAD_SIZES, cap, ListInput(cfg, c, p, FWD_PAYLOAD_SIZES)),
                                  BWD_PAYLOAD_SIZES, cap, ListInput(cfg, c, p, BWD_PAYLOAD_SIZES))
    {
      hide *;
      PayloadInputs(cfg, clock, p);
      CountTotals(p);
      CollectList(p.dir == Fwd && cfg.needPayloadDir && p.payloadLen > 0, FWD_PAYLOAD_SIZES, p.payloadLen);
      CollectList(p.dir == Bwd && cfg.needPayloadDir && p.payloadLen > 0, BWD_PAYLOAD_SIZES, p.payloadLen);
    }

    method CountTotals(p: Packet)
      modifies this`totals
      ensures totals == CountersStep(old(totals), p)
    {
      totals := totals.(packets := totals.packets + 1, bytes := totals.bytes + p.len);
      if p.dir == Fwd {
        totals := totals.(fwdPackets := totals.fwdPackets + 1, fwdBytes := totals.fwdBytes + p.len);
      } else if p.dir == Bwd {
        totals := totals.(bwdPackets := totals.bwdPackets + 1, bwdBytes := totals.bwdBytes + p.len);
      }
    }

    /** `calc_packet_length_stats`: the packet length, in the ring and per direction. */
    method PacketLengthStats(cfg: Config, p: Packet)
      requires Valid()
      modifies this`slots, this`views, this`listCounts, pool.dynamicMem, rings
      ensures |slots| == REGIONS
      ensures AsBurst() == old(AsBurst()) && AsWindow() == old(AsWindow()) && AsResponse() == old(AsResponse())
      ensures Valid()
      ensures views == KeptAt(old(views), PKT_LEN_SEQ, SeqLen(pool.level), RingInput(cfg, clock, p, PKT_LEN_SEQ))
      ensures var c, cap := clock, SeqLen(pool.level);
              Lists() == AppendedAt(AppendedAt(old(Lists()), FWD_PKT_LENS, cap, ListInput(cfg, c, p, FWD_PKT_LENS)),
                                            BWD_PKT_LENS, cap, ListInput(cfg, c, p, BWD_PKT_LENS))
    {
      hide FlowFeatureState.MemoryOk, FlowFeatureState.RingsOk, FlowFeatureState.CountsOk, FlowFeatureState.TempOk;
      Collect(cfg.needPktLenSeq, PKT_LEN_SEQ, p.len);
      CollectList(cfg.needDirLens && p.dir == Fwd, FWD_PKT_LENS, p.len);
      CollectList(cfg.needDirLens && p.dir == Bwd, BWD_PKT_LENS, p.len);
    }

    /** The direction and time rings, collected on demand. */
    method DirectionAndTime(cfg: Config, p: Packet)
      requires Valid()
      modifies this`slots, this`views, pool.dynamicMem, rings
      ensures Valid() && |slots| == REGIONS && Lists() == old(Lists())
      ensures AsBurst() == old(AsBurst()) && AsWindow() == old(AsWindow()) && AsResponse() == old(AsResponse())
      ensures var c, cap := clock, SeqLen(pool.level);
              views == KeptAt(KeptAt(old(views), DIR_SEQ, cap, RingInput(cfg, c, p, DIR_SEQ)),
                              TS_SEQ, cap, RingInput(cfg, c, p, TS_SEQ))
    {
      hide *;
      DirectionInputs(cfg, clock, p);
      var dirValue := if p.dir == Fwd then 1 else if p.dir == Bwd then -1 else 0;
      Collect(cfg.needDirSeq, DIR_SEQ, dirValue);
      Collect(cfg.needTsSeq, TS_SEQ, p.ts);
    }

    /** The per-layer length rings, collected on demand. */
    method LayerLengths(cfg: Config, p: Packet)
      requires Valid()
      modifies this`slots, this`views, pool.dynamicMem, rings
      ensures Valid() && |slots| == REGIONS && Lists() == old(Lists())
      ensures AsBurst() == old(AsBurst()) && AsWindow() == old(AsWindow()) && AsResponse() == old(AsResponse())
      ensures var c, cap := clock, SeqLen(pool.level);
              views == KeptAt(KeptAt(KeptAt(old(views), L3_LEN_SEQ, cap, RingInput(cfg, c, p, L3_LEN_SEQ)),
                                     L4_LEN_SEQ, cap, RingInput(cfg, c, p, L4_LEN_SEQ)),
                              PAYLOAD_LEN_SEQ, cap, RingInput(cfg, c, p, PAYLOAD_LEN_SEQ))
    {
      hide FlowFeatureState.MemoryOk, FlowFeatureState.RingsOk, FlowFeatureState.CountsOk, FlowFeatureState.TempOk;
      Collect(cfg.needLayerSeqs, L3_LEN_SEQ, p.l3Len);
      Collect(cfg.needLayerSeqs, L4_LEN_SEQ, p.l4Len);
      Collect(cfg.needLayerSeqs, PAYLOAD_LEN_SEQ, p.payloadLen);
    }

    /** `calc_iat_update`: the gap since the last packet, in the ring, per direction, and as active or
        idle time; then the arrival times. */
    method IatUpdate(cfg: Config, p: Packet)
      requires Valid()
      modifies this`clock, this`totals, this`slots, this`views, this`listCounts, pool.dynamicMem, rings
      ensures |slots| == REGIONS
      ensures AsBurst() == old(AsBurst()) && AsWindow() == old(AsWindow()) && AsResponse() == old(AsResponse())
      ensures Valid() && clock == ArrivalStep(old(clock), p) && totals == ActiveStep(cfg, old(totals), old(clock), p)
      ensures views == KeptAt(old(views), IAT_SEQ, SeqLen(pool.level), RingInput(cfg, old(clock), p, IAT_SEQ))
      ensures var c, cap := old(clock), SeqLen(pool.level);
              Lists() == AppendedAt(AppendedAt(old(Lists()), FWD_IATS, cap, ListInput(cfg, c, p, FWD_IATS)),
                                            BWD_IATS, cap, ListInput(cfg, c, p, BWD_IATS))
    {
      hide FlowFeatureState.MemoryOk, FlowFeatureState.RingsOk, FlowFeatureState.CountsOk, FlowFeatureState.TempOk;
      if clock.lastArrival == 0 {
        ValidShape();
        clock := clock.(lastArrival := p.ts);
        return;
      }
      TimedUpdate(cfg, p);
    }

    /** What `calc_iat_update` does for a packet that is not the first. */
    method TimedUpdate(cfg: Config, p: Packet)
      requires Valid() && clock.lastArrival != 0
      modifies this`clock, this`totals, this`slots, this`views, this`listCounts, pool.dynamicMem, rings
      ensures Valid() && |slots| == REGIONS
      ensures AsBurst() == old(AsBurst()) && AsWindow() == old(AsWindow()) && AsResponse() == old(AsResponse())
      ensures clock == ArrivalStep(old(clock), p) && totals == ActiveStep(cfg, old(totals), old(clock), p)
      ensures views == KeptAt(old(views), IAT_SEQ, SeqLen(pool.level), RingInput(cfg, old(clock), p, IAT_SEQ))
      ensures var c, cap := old(clock), SeqLen(pool.level);
              Lists() == AppendedAt(AppendedAt(old(Lists()), FWD_IATS, cap, ListInput(cfg, c, p, FWD_IATS)),
                                    BWD_IATS, cap, ListInput(cfg, c, p, BWD_IATS))
    {
      hide *;
      TimedInputs(cfg, clock, p);
      var iat := Sub64(p.ts, clock.lastArrival);
      CollectGaps(cfg, p);
      Collect(cfg.needIatSeq, IAT_SEQ, iat);
      TimeUpdate(cfg, p, iat);
    }

    /** Active and idle time, and the times of the latest packets. */
    method TimeUpdate(cfg: Config, p: Packet, iat: nat)
      requires clock.lastArrival != 0 && iat == Sub64(p.ts, clock.lastArrival)
      modifies this`clock, this`totals
      ensures clock == ArrivalStep(old(clock), p) && totals == ActiveStep(cfg, old(totals), old(clock), p)
    {
      ActiveIdleTime(cfg, iat);
      Arrive(p.ts, p.dir);
    }

    /** The gap to the direction's last packet. */
    method CollectGaps(cfg: Config, p: Packet)
      requires Valid() && clock.lastArrival != 0
      modifies this`slots, this`listCounts, pool.dynamicMem
      ensures Valid() && |slots| == REGIONS && views == old(views)
      ensures AsBurst() == old(AsBurst()) && AsWindow() == old(AsWindow()) && AsResponse() == old(AsResponse())
      ensures var c, cap := clock, SeqLen(pool.level);
              Lists() == AppendedAt(AppendedAt(old(Lists()), FWD_IATS, cap, ListInput(cfg, c, p, FWD_IATS)),
                                    BWD_IATS, cap, ListInput(cfg, c, p, BWD_IATS))
    {
      hide *;
      TimedInputs(cfg, clock, p);
      CollectList(cfg.needDirIats && p.dir == Fwd && clock.lastFwd > 0, FWD_IATS, Sub64(p.ts, clock.lastFwd));
      CollectList(cfg.needDirIats && p.dir == Bwd && clock.lastBwd > 0, BWD_IATS, Sub64(p.ts, clock.lastBwd));
    }

    /** `calc_active_idle_time`, on demand. */
    method ActiveIdleTime(cfg: Config, iat: nat)
      modifies this`totals
      ensures totals == if !cfg.iatActive then old(totals)
                        else if iat <= cfg.activeThresholdUs then old(totals).(active := old(totals).active + iat)
                        else old(totals).(idle := old(totals).idle + iat)
    {
      if cfg.iatActive {
        if iat <= cfg.activeThresholdUs {
          totals := totals.(active := totals.active + iat);
        } else {
          totals := totals.(idle := totals.idle + iat);
        }
      }
    }

    /** Records the arrival times of a packet that is not the first. */
    method Arrive(ts: nat, dir: Direction)
      modifies this`clock
      ensures clock == old(clock).(lastArrival := ts, lastFwd := if dir == Fwd then ts else old(clock).lastFwd,
                                   lastBwd := if dir == Bwd then ts else old(clock).lastBwd)
    {
      if dir == Fwd {
        clock := clock.(lastFwd := ts);
      } else if dir == Bwd {
        clock := clock.(lastBwd := ts);
      }
      clock := clock.(lastArrival := ts);
    }

    /** The TCP window of a TCP packet, or the length of a UDP datagram. */
    method TransportUpdate(cfg: Config, p: Packet)
      requires Valid()
      modifies this`slots, this`views, pool.dynamicMem, rings
      ensures Valid() && |slots| == REGIONS && Lists() == old(Lists())
      ensures AsBurst() == old(AsBurst()) && AsWindow() == old(AsWindow()) && AsResponse() == old(AsResponse())
      ensures var c, cap := clock, SeqLen(pool.level);
              views == KeptAt(KeptAt(old(views), TCP_WINDOW_SEQ, cap, RingInput(cfg, c, p, TCP_WINDOW_SEQ)),
                              UDP_LEN_SEQ, cap, RingInput(cfg, c, p, UDP_LEN_SEQ))
    {
      hide FlowFeatureState.MemoryOk, FlowFeatureState.RingsOk, FlowFeatureState.CountsOk, FlowFeatureState.TempOk;
      Collect(p.transport == Tcp && p.hasHeaders && cfg.protocolTcp, TCP_WINDOW_SEQ, p.tcpWindow);
      Collect(p.transport == Udp && cfg.protocolUdp, UDP_LEN_SEQ, p.payloadLen + 8);
    }

    /** `calc_payload_stats`, as far as the rings go: the payload size and how far it is from the last. */
    method PayloadStats(cfg: Config, p: Packet)
      requires Valid()
      modifies this`clock, this`slots, this`views, pool.dynamicMem, rings
      ensures Valid() && |slots| == REGIONS && Lists() == old(Lists())
      ensures AsBurst() == old(AsBurst()) && AsWindow() == old(AsWindow()) && AsResponse() == old(AsResponse())
      ensures clock == PayloadStep(cfg, old(clock), p)
      ensures var c, cap := old(clock), SeqLen(pool.level);
              views == KeptAt(KeptAt(old(views), PAYLOAD_SIZE_SEQ, cap, RingInput(cfg, c, p, PAYLOAD_SIZE_SEQ)),
                              PAYLOAD_SIZE_DIFF_SEQ, cap, RingInput(cfg, c, p, PAYLOAD_SIZE_DIFF_SEQ))
    {
      hide FlowFeatureState.MemoryOk, FlowFeatureState.RingsOk, FlowFeatureState.CountsOk, FlowFeatureState.TempOk;
      var loaded := p.payloadLen > 0 && p.hasHeaders && cfg.payloadStats;
      Collect(loaded, PAYLOAD_SIZE_SEQ, p.payloadLen);
      Collect(loaded && clock.hasPayload, PAYLOAD_SIZE_DIFF_SEQ, Distance(p.payloadLen, clock.lastPayload));
      if loaded {
        clock := clock.(lastPayload := p.payloadLen, hasPayload := true);
      }
    }

    /** `calc_burst_update`. */
    method BurstUpdate(cfg: Config, len: nat, iat: nat, ts: nat)
      requires Valid()
      modifies this`burstStart, this`burstBytes, this`burstPkts, this`burstCount, this`slots, pool.dynamicMem
      ensures Valid() && views == old(views) && |slots| == REGIONS
      ensures AsBurst() == BurstStep(old(AsBurst()), SeqLen(pool.level), cfg.burstThresholdUs, len, iat, ts)
      ensures Lists() == old(Lists()) && AsWindow() == old(AsWindow()) && AsResponse() == old(AsResponse())
    {
      hide *;
      ValidShape();
      BurstStepIs(AsBurst(), SeqLen(pool.level), cfg.burstThresholdUs, len, iat, ts);
      if iat <= cfg.burstThresholdUs {
        GrowBurst(len);
      } else {
        CloseBurst(iat, ts);
        OpenBurst(len, ts);
      }
    }

    method GrowBurst(len: nat)
      requires |slots| == REGIONS
      modifies this`burstBytes, this`burstPkts
      ensures AsBurst() == old(AsBurst()).(bytes := old(AsBurst()).bytes + len, pkts := old(AsBurst()).pkts + 1)
    {
      burstBytes := burstBytes + len;
      burstPkts := burstPkts + 1;
    }

    method OpenBurst(len: nat, ts: nat)
      requires |slots| == REGIONS
      modifies this`burstStart, this`burstBytes, this`burstPkts
      ensures AsBurst() == old(AsBurst()).(start := ts, bytes := len, pkts := 1)
    {
      burstStart, burstBytes, burstPkts := ts, len, 1;
    }

    /** Records the open burst, if it has at least two packets and there is room. */
    method CloseBurst(iat: nat, ts: nat)
      requires Valid()
      modifies this`burstCount, this`slots, pool.dynamicMem
      ensures Valid() && views == old(views) && |slots| == REGIONS
      ensures var b := old(AsBurst());
              AsBurst() == if b.pkts > 1 && |b.sizes| < SeqLen(pool.level) then Recorded(b, iat, ts) else b
      ensures Lists() == old(Lists()) && AsWindow() == old(AsWindow()) && AsResponse() == old(AsResponse())
    {
      ValidShape();
      hide FlowFeatureState.Valid, SeqLen, Recorded;
      if burstPkts > 1 {
        if burstCount < pool.actualSeqLen {
          RecordBurst(iat, ts);
        }
      }
    }

    /** Appends the open burst to the burst arrays. */
    method RecordBurst(iat: nat, ts: nat)
      requires Valid() && burstCount < pool.actualSeqLen
      modifies this`burstCount, this`slots, pool.dynamicMem
      ensures Valid() && views == old(views) && |slots| == REGIONS
      ensures AsBurst() == Recorded(old(AsBurst()), iat, ts)
      ensures Lists() == old(Lists()) && AsWindow() == old(AsWindow()) && AsResponse() == old(AsResponse())
    {
      hide *;
      ValidShape();
      ValidParts();
      KeepBurst(iat, ts);
      ValidParts();
    }

    lemma ValidParts()
      ensures Valid() <==> MemoryOk() && RingsOk() && CountsOk() && TempOk()
    {
    }

    method KeepBurst(iat: nat, ts: nat)
      requires MemoryOk() && RingsOk() && CountsOk() && burstCount < pool.actualSeqLen
      modifies this`burstCount, this`slots, pool.dynamicMem
      ensures MemoryOk() && RingsOk() && CountsOk() && views == old(views) && |slots| == REGIONS == |old(slots)|
      ensures AsBurst() == Recorded(old(AsBurst()), iat, ts)
      ensures Lists() == old(Lists()) && AsWindow() == old(AsWindow()) && AsResponse() == old(AsResponse())
    {
      BurstRoom();
      hide FlowFeatureState.MemoryOk, FlowFeatureState.RingsOk;
      StoreBurst(iat, ts);
      burstCount := burstCount + 1;
    }

    /** All that is stored of the burst that closes at `ts`. */
    method StoreBurst(iat: nat, ts: nat)
      requires MemoryOk() && RingsOk() && burstCount < pool.actualSeqLen
      requires |slots[BURST_SIZES]| == |slots[BURST_DURATIONS]| == |slots[BURST_PACKET_COUNTS]| == burstCount
      requires |slots[BURST_INTERVALS]| == if burstCount == 0 then 0 else burstCount - 1
      modifies this`slots, pool.dynamicMem
      ensures MemoryOk() && RingsOk() && views == old(views) && |old(slots)| == REGIONS
      ensures slots == WithBurst(old(slots), burstBytes, Sub64(ts, burstStart), burstPkts, iat)
    {
      hide FlowFeatureState.MemoryOk, FlowFeatureState.RingsOk;
      StoreOpenBurst(ts);
      StoreInterval(iat);
    }

    lemma BurstRoom()
      requires CountsOk()
      ensures |slots[BURST_SIZES]| == |slots[BURST_DURATIONS]| == |slots[BURST_PACKET_COUNTS]| == burstCount
      ensures |slots[BURST_INTERVALS]| == if burstCount == 0 then 0 else burstCount - 1
    {
    }

    /** Size, duration and packet count of the burst that closes at `ts`. */
    method StoreOpenBurst(ts: nat)
      requires MemoryOk() && RingsOk() && burstCount < pool.actualSeqLen
      requires |slots[BURST_SIZES]| == |slots[BURST_DURATIONS]| == |slots[BURST_PACKET_COUNTS]| == burstCount
      modifies this`slots, pool.dynamicMem
      ensures MemoryOk() && RingsOk() && views == old(views) && |slots| == REGIONS == |old(slots)|
      ensures slots == old(slots)[BURST_SIZES := old(slots)[BURST_SIZES] + [burstBytes]]
                                 [BURST_DURATIONS := old(slots)[BURST_DURATIONS] + [Sub64(ts, burstStart)]]
                                 [BURST_PACKET_COUNTS := old(slots)[BURST_PACKET_COUNTS] + [burstPkts]]
    {
      hide FlowFeatureState.MemoryOk, FlowFeatureState.RingsOk;
      StoreNext(BURST_SIZES, burstCount, burstBytes);
      StoreNext(BURST_DURATIONS, burstCount, Sub64(ts, burstStart));
      StoreNext(BURST_PACKET_COUNTS, burstCount, burstPkts);
    }

    /** The gap that closed a burst, for every burst but the first. */
    method StoreInterval(iat: nat)
      requires MemoryOk() && RingsOk() && burstCount < pool.actualSeqLen
      requires |slots[BURST_INTERVALS]| == if burstCount == 0 then 0 else burstCount - 1
      modifies this`slots, pool.dynamicMem
      ensures MemoryOk() && RingsOk() && views == old(views) && |slots| == REGIONS
      ensures slots == if burstCount > 0 then old(slots)[BURST_INTERVALS := old(slots[BURST_INTERVALS]) + [iat]] else old(slots)
    {
      if burstCount > 0 {
        StoreNext(BURST_INTERVALS, burstCount - 1, iat);
      }
    }

    /** `calc_response_delay`. */
    method ResponseDelay(ts: nat, dir: Direction)
      requires Valid()
      modifies this`lastReq, this`respCount, this`slots, pool.dynamicMem
      ensures Valid() && views == old(views) && |slots| == REGIONS
      ensures Lists() == old(Lists()) && AsBurst() == old(AsBurst()) && AsWindow() == old(AsWindow())
      ensures AsResponse() == ResponseStep(old(AsResponse()), RESP_CAPACITY, dir, ts)
    {
      ValidShape();
      hide FlowFeatureState.MemoryOk, FlowFeatureState.RingsOk, FlowFeatureState.CountsOk, FlowFeatureState.TempOk;
      hide Sub64, FlowFeatureState.Lists, FlowFeatureState.AsBurst, FlowFeatureState.AsWindow;
      if dir == Fwd {
        lastReq := ts;
      } else if dir == Bwd && lastReq > 0 {
        RecordDelay(Sub64(ts, lastReq));
        lastReq := 0;
      }
    }

    /** Keeps a delay, if there is room for it. */
    method RecordDelay(delay: int)
      requires Valid()
      modifies this`respCount, this`slots, pool.dynamicMem
      ensures Valid() && views == old(views) && |slots| == REGIONS == |old(slots)|
      ensures Lists() == old(Lists()) && AsBurst() == old(AsBurst()) && AsWindow() == old(AsWindow())
      ensures var delays := old(slots[RESP_DELAYS]);
              slots[RESP_DELAYS] == if |delays| < RESP_CAPACITY then delays + [delay] else delays
    {
      if respCount < respCapacity {
        StoreAt(RESP_DELAYS, respCount, delay);
        respCount := respCount + 1;
      }
    }

    /** `calc_window_update`. */
    method WindowUpdate(cfg: Config, len: nat, ts: nat)
      requires Valid()
      modifies this`windowStart, this`currentWindow, this`slots, pool.dynamicMem
      ensures Valid() && views == old(views)
      ensures |slots| == REGIONS && WindowSpec.Consistent(old(AsWindow()))
      ensures AsWindow() == WindowStep(old(AsWindow()), cfg.windowSizeMs, len, ts)
      ensures Lists() == old(Lists()) && AsBurst() == old(AsBurst()) && AsResponse() == old(AsResponse())
    {
      hide *;
      ValidShape();
      WindowStepIs(AsWindow(), cfg.windowSizeMs, len, ts);
      if cfg.windowSizeMs == 0 {
        return;
      }
      StartWindows(ts);
      ValidShape();
      var target := Target(windowStart, cfg.windowSizeMs, ts);
      EnterWindows(target, WindowUs(cfg.windowSizeMs));
      CountInWindow(target, len);
    }

    method StartWindows(ts: nat)
      requires |slots| == REGIONS
      modifies this`windowStart, this`currentWindow
      ensures AsWindow() == Begun(old(AsWindow()), ts)
    {
      if windowStart == 0 {
        windowStart, currentWindow := ts, 0;
      }
    }

    /** Enters every window up to `target`, storing its bit rate. */
    method EnterWindows(target: nat, us: nat)
      requires Valid() && us > 0
      modifies this`currentWindow, this`slots, pool.dynamicMem
      ensures Valid() && views == old(views)
      ensures |slots| == REGIONS && WindowSpec.Consistent(old(AsWindow()))
      ensures AsWindow() == Advance(old(AsWindow()), target, us)
      ensures Lists() == old(Lists()) && AsBurst() == old(AsBurst()) && AsResponse() == old(AsResponse())
    {
      hide *;
      ValidShape();
      while currentWindow <= target && currentWindow < numWindows
        invariant Valid() && views == old(views) && |slots| == REGIONS && WindowSpec.Consistent(AsWindow())
        invariant AsWindow().current == currentWindow && |AsWindow().pkts| == numWindows
        invariant Lists() == old(Lists()) && AsBurst() == old(AsBurst()) && AsResponse() == old(AsResponse())
        invariant Advance(AsWindow(), target, us) == Advance(old(AsWindow()), target, us)
        decreases numWindows - currentWindow
      {
        AdvanceIs(AsWindow(), target, us);
        EnterWindow(us);
      }
      AdvanceIs(AsWindow(), target, us);
    }

    method EnterWindow(us: nat)
      requires Valid() && us > 0 && currentWindow < numWindows
      modifies this`currentWindow, this`slots, pool.dynamicMem
      ensures Valid() && views == old(views) && currentWindow == old(currentWindow) + 1 && |slots| == REGIONS
      ensures WindowSpec.Consistent(old(AsWindow())) && old(AsWindow().current) < |old(AsWindow().pkts)|
      ensures AsWindow() == Entered(old(AsWindow()), us)
      ensures WindowSpec.Consistent(AsWindow()) && AsWindow().current == currentWindow && |AsWindow().pkts| == numWindows
      ensures Lists() == old(Lists()) && AsBurst() == old(AsBurst()) && AsResponse() == old(AsResponse())
    {
      hide *;
      ValidShape();
      ValidParts();
      WindowRoom();
      StoreBitrate(us);
      ValidParts();
      ValidShape();
    }

    method StoreBitrate(us: nat)
      requires MemoryOk() && RingsOk() && CountsOk() && us > 0 && currentWindow < numWindows
      requires Slots(WINDOW_BITRATE, pool.Dimensions()) == numWindows
      modifies this`currentWindow, this`slots, pool.dynamicMem
      ensures MemoryOk() && RingsOk() && CountsOk() && views == old(views) && |slots| == REGIONS == |old(slots)|
      ensures currentWindow == old(currentWindow) + 1
      ensures WindowSpec.Consistent(old(AsWindow())) && old(AsWindow().current) < |old(AsWindow().pkts)|
      ensures AsWindow() == Entered(old(AsWindow()), us)
      ensures Lists() == old(Lists()) && AsBurst() == old(AsBurst()) && AsResponse() == old(AsResponse())
    {
      hide FlowFeatureState.MemoryOk, FlowFeatureState.RingsOk;
      var bytes := LoadAt(WINDOW_BYTE_COUNTS, currentWindow);
      StoreAt(WINDOW_BITRATE, currentWindow, Bitrate(bytes, us));
      currentWindow := currentWindow + 1;
    }

    method CountInWindow(target: nat, len: nat)
      requires Valid()
      modifies this`slots, pool.dynamicMem
      ensures Valid() && views == old(views)
      ensures |slots| == REGIONS && WindowSpec.Consistent(old(AsWindow()))
      ensures AsWindow() == Counted(old(AsWindow()), target, len)
      ensures Lists() == old(Lists()) && AsBurst() == old(AsBurst()) && AsResponse() == old(AsResponse())
    {
      hide *;
      ValidShape();
      ValidParts();
      WindowRoom();
      if target < numWindows {
        TallyWindow(target, len);
      } else {
        NotCounted(AsWindow(), target, len);
      }
      ValidParts();
    }

    method TallyWindow(target: nat, len: nat)
      requires MemoryOk() && RingsOk() && CountsOk() && target < numWindows
      requires Slots(WINDOW_PKT_COUNTS, pool.Dimensions()) == Slots(WINDOW_BYTE_COUNTS, pool.Dimensions()) == numWindows
      modifies this`slots, pool.dynamicMem
      ensures MemoryOk() && RingsOk() && CountsOk() && views == old(views) && |slots| == REGIONS == |old(slots)|
      ensures WindowSpec.Consistent(old(AsWindow())) && AsWindow() == Counted(old(AsWindow()), target, len)
      ensures Lists() == old(Lists()) && AsBurst() == old(AsBurst()) && AsResponse() == old(AsResponse())
    {
      hide FlowFeatureState.MemoryOk, FlowFeatureState.RingsOk;
      AddToBoth(target, len);
    }

    method AddToBoth(target: nat, len: nat)
      requires MemoryOk() && RingsOk()
      requires target < numWindows == |slots[WINDOW_PKT_COUNTS]| == |slots[WINDOW_BYTE_COUNTS]|
      requires Slots(WINDOW_PKT_COUNTS, pool.Dimensions()) == Slots(WINDOW_BYTE_COUNTS, pool.Dimensions()) == numWindows
      modifies this`slots, pool.dynamicMem
      ensures MemoryOk() && RingsOk() && views == old(views) && |slots| == REGIONS == |old(slots)|
      ensures var pkts, bytes := old(slots)[WINDOW_PKT_COUNTS], old(slots)[WINDOW_BYTE_COUNTS];
              slots == old(slots)[WINDOW_PKT_COUNTS := pkts[target := pkts[target] + 1]]
                                 [WINDOW_BYTE_COUNTS := bytes[target := bytes[target] + len]]
    {
      hide FlowFeatureState.MemoryOk, FlowFeatureState.RingsOk, Layout.Slots;
      AddAt(WINDOW_PKT_COUNTS, target, 1);
      AddAt(WINDOW_BYTE_COUNTS, target, len);
    }

    lemma WindowRoom()
      requires Valid()
      ensures |slots| == REGIONS && numWindows == |slots[WINDOW_PKT_COUNTS]| == |slots[WINDOW_BYTE_COUNTS]|
      ensures Slots(WINDOW_PKT_COUNTS, pool.Dimensions()) == Slots(WINDOW_BYTE_COUNTS, pool.Dimensions()) == numWindows
      ensures Slots(WINDOW_BITRATE, pool.Dimensions()) == numWindows
    {
    }

    /** `ring_buffer_snapshot_capture` of ring `i`. */
    method Capture(i: nat, mallocOk: bool) returns (snap: Snapshot)
      requires MemoryOk() && RingsOk() && i < RINGS
      ensures mallocOk ==> Captures(snap, ARRAYS + i, views[i])
      ensures !mallocOk ==> Captures(snap, ARRAYS + i, [])
    {
      var ring := rings[i];
      RingInBlock(i);
      snap := Snapshot([], 0, ring.elemSize);
      if ring.count == 0 {
        return;
      }
      var arr, count := ring.GetArray(mallocOk);
      if arr != null {
        RingContents(i);
        snap := Snapshot(arr[..], count, ring.elemSize);
      }
    }

    /** The bytes of a ring's elements are those of its view. */
    lemma RingContents(i: nat)
      requires MemoryOk() && RingsOk() && i < RINGS
      ensures rings[i].Valid() && |views[i]| == rings[i].count
      ensures forall k :: 0 <= k < |views[i]| ==> rings[i].Contents()[k] == Encode(views[i][k], ElemSize(ARRAYS + i))
    {
      RingInBlock(i);
      HoldsAt(pool.dynamicMem[..], pool.Dimensions(), slots, REGIONS, ARRAYS + i);
    }

    /** `*circular_buffer_get(ring_i, index)`: what a consumer reads is what the flow's view says. */
    method ReadRing(i: nat, index: nat) returns (v: Option<int>)
      requires Valid() && i < RINGS
      ensures |AsFlow().views| == RINGS
      ensures v == if index < |AsFlow().views[i]| then Some(AsFlow().views[i][index]) else None
    {
      FlowParts();
      RingReadable(i);
      hide *;
      var ring := rings[i];
      var at := ring.Get(index);
      if at == -1 {
        return None;
      }
      DecodeEncode(views[i][index], ring.elemSize);
      v := Some(Decode(ring.data[at..at + ring.elemSize]));
    }

    lemma RingReadable(i: nat)
      requires Valid() && i < RINGS
      ensures |rings| == RINGS == |views| && rings[i].Valid() && rings[i].Usable() && rings[i].elemSize > 0
      ensures rings[i].data != null && |views[i]| == rings[i].count
      ensures forall k :: 0 <= k < |views[i]| ==> rings[i].Contents()[k] == Encode(views[i][k], rings[i].elemSize)
    {
      assert RingHolds(i);
      RingContents(i);
      hide FlowFeatureState.MemoryOk, FlowFeatureState.CountsOk, FlowFeatureState.TempOk, FlowFeatureState.RingsOk;
    }

    /** `array_r[k]` of a per-direction array, within its count. */
    method ReadList(r: nat, k: nat) returns (v: Option<int>)
      requires Valid() && r < DIR_LISTS
      ensures v == if k < |AsFlow().lists[r]| then Some(AsFlow().lists[r][k]) else None
    {
      ValidShape();
      if k >= listCounts[r] {
        return None;
      }
      var value := LoadAt(r, k);
      v := Some(value);
    }

    /** Attaches a ring, empty, to the pool's ring area at `ringOffset`. */
    method BindRing(ring: CircularBuffer, ringOffset: nat, capacity: nat, elemSize: nat, ghost i: nat)
      returns (rc: int, next: nat)
      requires pool.LaidOut() && i < RINGS && capacity == pool.actualSeqLen && elemSize == ElemSize(ARRAYS + i)
      requires pool.ringBufferData + ringOffset == Offset(ARRAYS + i, pool.Dimensions())
      modifies ring
      ensures rc == 0 && ring.Valid() && ring.count == 0 && ring.data == pool.dynamicMem
      ensures ring.base == Offset(ARRAYS + i, pool.Dimensions()) && ring.elemSize == elemSize && ring.capacity == capacity
      ensures pool.ringBufferData + next == Offset(ARRAYS + i + 1, pool.Dimensions())
    {
      var ringData := pool.GetRingBuffer(ringOffset);
      RingAreaFits(i, ringOffset);
      if ringData == -1 {
        return -1, ringOffset;
      }
      ring.Bind(pool.dynamicMem, ringData, capacity, elemSize);
      next := At(ringOffset, elemSize, capacity);
      rc := 0;
    }

    /** `ring_buffer_rebind_from_snapshot`: attaches ring `i` to the new block and restores its elements. */
    method Rebind(i: nat, ringOffset: nat, capacity: nat, elemSize: nat, snap: Snapshot) returns (rc: int, next: nat)
      requires MemoryOk() && i < RINGS == |views| && capacity == pool.actualSeqLen && elemSize == ElemSize(ARRAYS + i)
      requires pool.ringBufferData + ringOffset == Offset(ARRAYS + i, pool.Dimensions())
      requires Captures(snap, ARRAYS + i, views[i]) && |views[i]| <= capacity
      modifies this`slots, pool.dynamicMem, rings[i]
      ensures rc == 0 && MemoryOk() && RingHolds(i)
      ensures slots == old(slots)[ARRAYS + i := views[i]]
      ensures pool.ringBufferData + next == Offset(ARRAYS + i + 1, pool.Dimensions())
    {
      hide CalcSizeEx, Layout.Offset, HoldsFirst, Splice, Encode, ElemSize;
      var ring := rings[i];
      ghost var m := pool.dynamicMem[..];
      rc, next := BindRing(ring, ringOffset, capacity, elemSize, i);
      RestoreRing(ring, elemSize, snap);
      slots := slots[ARRAYS + i := views[i]];
      assert pool.Stores(slots) by {
        FillRegion(m, pool.Dimensions(), old(slots), ARRAYS + i, snap.data, views[i]);
      }
    }

    /** Copies a snapshot, if it holds anything, into an empty ring. */
    method RestoreRing(ring: CircularBuffer, elemSize: nat, snap: Snapshot)
      requires ring.Valid() && ring.count == 0 && ring.elemSize == elemSize == snap.elemSize
      requires |snap.data| == At(0, elemSize, snap.count) && snap.count <= ring.capacity
      modifies ring`count, ring`head, ring`tail, ring`isFull, ring.data
      ensures ring.Valid() && ring.count == snap.count && ring.tail == 0
      ensures ring.base + |snap.data| <= ring.data.Length
      ensures ring.data[..] == Splice(old(ring.data[..]), ring.base, snap.data)
    {
      if snap.data != [] && snap.count > 0 && snap.elemSize == elemSize {
        var copyCount := if snap.count < ring.capacity then snap.count else ring.capacity;
        assert snap.data[..|snap.data|] == snap.data;
        ring.Restore(snap.data[..At(0, elemSize, copyCount)], copyCount);
      } else {
        NothingSaved(elemSize, snap.count);
        assert ring.data[..] == Splice(ring.data[..], ring.base, []);
      }
    }

    lemma NothingSaved(elemSize: nat, count: nat)
      requires elemSize > 0
      ensures At(0, elemSize, count) == 0 <==> count == 0
    {
      if count > 0 {
        AtMonotone(0, elemSize, 0, count);
      }
    }

    /** The start of a ring's area lies in the ring region, so looking it up does not fail, and so does
        its end. */
    lemma RingAreaFits(i: nat, ringOffset: nat)
      requires pool.LaidOut() && i < RINGS && pool.ringBufferData + ringOffset == Offset(ARRAYS + i, pool.Dimensions())
      ensures ringOffset < pool.ringBufferSize && pool.actualSeqLen > 0
      ensures At(Offset(ARRAYS + i, pool.Dimensions()), ElemSize(ARRAYS + i), pool.actualSeqLen)
              == Offset(ARRAYS + i + 1, pool.Dimensions()) <= pool.tempMem
    {
      var d := pool.Dimensions();
      SizeCoversLayout(pool.level, pool.numWindows, pool.respDelayCapacity);
      RegionInBounds(ARRAYS + i, d);
    }

    /** `flow_state_init`, on a pool of the given level; the code starts every flow at TINY. */
    method Init(level: Level, mallocOk: bool) returns (rc: int)
      requires RingsDistinct()
      modifies this, pool, rings
      ensures rc == if mallocOk then 0 else -1
      ensures rings == old(rings) && (rc != 0 ==> pool.dynamicMem == null)
      ensures rc == 0 ==> fresh(pool.dynamicMem) && Valid() && AsFlow() == NewFlow(level)
    {
      hide *;
      PoolSizesFit();
      rc := pool.InitEx(level, NUM_WINDOWS, RESP_CAPACITY, mallocOk);
      if rc == 0 {
        pool.ZeroedStores();
        Furnish(level);
      }
    }

    lemma PoolSizesFit()
      ensures WordSized(NUM_WINDOWS, RESP_CAPACITY)
    {
    }

    /** Sets the state up on a freshly initialised pool. */
    method Furnish(level: Level)
      requires RingsDistinct() && pool.LaidOut() && pool.Stores(EmptyLists(NUM_WINDOWS))
      requires pool.level == level && pool.currentPktCount == 0 && pool.tempMemOffset == 0
      requires pool.numWindows == NUM_WINDOWS && pool.respDelayCapacity == RESP_CAPACITY
      modifies this, pool`tempMemOffset, rings
      ensures Valid() && AsFlow() == NewFlow(level) && rings == old(rings)
    {
      hide *;
      ResetCounters();
      AttachArrays();
      BindAll(pool.actualSeqLen);
      ResetIsNew(level);
    }

    /** Points the state at the arrays of a freshly initialised pool. */
    method AttachArrays()
      requires RingsDistinct() && pool.LaidOut() && pool.Stores(EmptyLists(NUM_WINDOWS)) && pool.tempMemOffset == 0
      modifies this`slots, this`views, this`arrays, this`listCapacity, this`tempBuffer, this`tempBuffer2, this`tempLen
      modifies pool`tempMemOffset
      ensures MemoryOk() && TempOk() && slots == EmptyLists(NUM_WINDOWS) && views == seq(RINGS, _ => [])
    {
      assert pool.actualSeqLen == SeqLen(pool.level);
      hide FlowMemPool.LaidOut, FlowMemPool.Stores, FlowFeatureState.TempOk;
      slots, views := EmptyLists(NUM_WINDOWS), seq(RINGS, _ => []);
      arrays, listCapacity := pool.arrays, pool.actualSeqLen;
      BindTempBuffers(pool.actualSeqLen);
    }

    /** Everything but the memory, as a new flow starts. */
    method ResetCounters()
      modifies this
      ensures listCounts == [0, 0, 0, 0, 0, 0] && AsNewScalars() && rings == old(rings)
    {
      listCounts := [0, 0, 0, 0, 0, 0];
      clock, totals := Clock(0, 0, 0, false, 0), Totals(0, 0, 0, 0, 0, 0, 0, 0);
      lastReq, respCount, respCapacity := 0, 0, RESP_CAPACITY;
      ResetDetection();
    }

    method ResetDetection()
      modifies this`burstStart, this`burstBytes, this`burstPkts, this`burstCount
      modifies this`numWindows, this`windowStart, this`currentWindow
      ensures burstStart == burstBytes == burstPkts == burstCount == 0
      ensures numWindows == NUM_WINDOWS && windowStart == currentWindow == 0
    {
      burstStart, burstBytes, burstPkts, burstCount := 0, 0, 0, 0;
      numWindows, windowStart, currentWindow := NUM_WINDOWS, 0, 0;
    }

    ghost predicate AsNewScalars()
      reads this`clock, this`totals, this`burstStart, this`burstBytes, this`burstPkts, this`burstCount, this`numWindows
      reads this`windowStart, this`currentWindow, this`lastReq, this`respCount, this`respCapacity
    {
      && clock == Clock(0, 0, 0, false, 0) && totals == Totals(0, 0, 0, 0, 0, 0, 0, 0)
      && burstStart == burstBytes == burstPkts == burstCount == 0
      && numWindows == NUM_WINDOWS && windowStart == currentWindow == 0
      && lastReq == respCount == 0 && respCapacity == RESP_CAPACITY
    }

    /** Attaches all rings, in ring order, to the pool's ring area. */
    method BindAll(seqLen: nat)
      requires MemoryOk() && seqLen == pool.actualSeqLen
      requires slots == EmptyLists(NUM_WINDOWS) && views == seq(RINGS, _ => [])
      modifies rings
      ensures MemoryOk() && RingsOk()
    {
      var ringOffset := 0;
      for i := 0 to RINGS
        invariant MemoryOk() && BoundBelow(i) && pool.ringBufferData + ringOffset == Offset(ARRAYS + i, pool.Dimensions())
      {
        ringOffset := BindNext(i, ringOffset, seqLen);
      }
    }

    method BindNext(i: nat, ringOffset: nat, seqLen: nat) returns (next: nat)
      requires MemoryOk() && i < RINGS && BoundBelow(i) && seqLen == pool.actualSeqLen
      requires slots[ARRAYS + i] == [] == views[i]
      requires pool.ringBufferData + ringOffset == Offset(ARRAYS + i, pool.Dimensions())
      modifies rings[i]
      ensures MemoryOk() && BoundBelow(i + 1)
      ensures pool.ringBufferData + next == Offset(ARRAYS + i + 1, pool.Dimensions())
    {
      var rc;
      rc, next := BindRing(rings[i], ringOffset, seqLen, ElemSize(ARRAYS + i), i);
      forall j | 0 <= j < i
        ensures RingHolds(j)
      {
        RingKept(j);
      }
    }

    lemma ResetIsNew(level: Level)
      requires MemoryOk() && RingsOk() && TempOk() && pool.level == level && pool.currentPktCount == 0
      requires slots == EmptyLists(NUM_WINDOWS) && views == seq(RINGS, _ => []) && pool.numWindows == NUM_WINDOWS
      requires pool.respDelayCapacity == RESP_CAPACITY && AsNewScalars() && listCounts == [0, 0, 0, 0, 0, 0]
      ensures Valid() && AsFlow() == NewFlow(level)
    {
      hide *;
      NothingRecorded();
      ValidParts();
      FlowParts();
      IsNewFlow(AsFlow(), level);
    }

    lemma NothingRecorded()
      requires slots == EmptyLists(NUM_WINDOWS) && pool.numWindows == NUM_WINDOWS
      requires pool.respDelayCapacity == RESP_CAPACITY && AsNewScalars() && listCounts == [0, 0, 0, 0, 0, 0]
      ensures CountsOk() && Lists() == seq(DIR_LISTS, _ => []) && AsBurst() == NO_BURST
      ensures AsWindow() == NoWindows(NUM_WINDOWS) && AsResponse() == Response(0, [])
      ensures clock == Clock(0, 0, 0, false, 0) && totals == Totals(0, 0, 0, 0, 0, 0, 0, 0)
    {
    }

    /** `flow_state_bind_temp_buffers`: two scratch arrays of doubles, as long as the sequences unless the
        temporary area is too small for that. */
    method BindTempBuffers(seqLen: nat)
      requires pool.LaidOut() && pool.tempMemOffset == 0 && seqLen == SeqLen(pool.level)
      modifies this`tempBuffer, this`tempBuffer2, this`tempLen, pool`tempMemOffset
      ensures pool.LaidOut() && TempOk()
      ensures tempBuffer == pool.tempMem && tempBuffer2 == tempBuffer + tempLen * 8
      ensures tempLen == match pool.level case TINY => 64 case SMALL => 256 case MEDIUM => 512 case LARGE => 512
    {
      var tempCap := pool.tempMemSize / 16;
      var bounded := if seqLen < tempCap then seqLen else tempCap;
      tempLen := 0;
      if bounded == 0 {
        return;
      }
      StartIsAligned();
      var at := pool.AllocTemp(bounded * 16, 8);
      if at == -1 {
        return;
      }
      tempBuffer := at;
      tempLen := bounded;
      tempBuffer2 := tempBuffer + bounded * 8;
    }

    lemma StartIsAligned()
      ensures AlignUp(0, 8) == 0
    {
      assert Pow2(3) == 8;
      AlignUpRounds(0, 3);
    }

    /** Saves all rings, in ring order. */
    method CaptureAll(unsaved: set<nat>) returns (snaps: seq<Snapshot>)
      requires MemoryOk() && RingsOk()
      ensures |views| == RINGS && Saved(snaps, Carried(views, true, unsaved), pool.actualSeqLen)
    {
      hide *;
      ViewsFit();
      ghost var carried := Carried(views, true, unsaved);
      NoneCaptured(carried);
      snaps := [];
      for i := 0 to RINGS
        invariant |snaps| == i && CapturedBelow(snaps, carried, i)
      {
        var snap := Capture(i, i !in unsaved);
        CarriedAt(views, unsaved, i);
        OneMoreCaptured(snaps, carried, snap);
        snaps := snaps + [snap];
      }
      AllCaptured(snaps, views, unsaved, pool.actualSeqLen);
    }

    /** The first `n` rings are attached to the current block and hold their views. */
    ghost predicate BoundBelow(n: nat)
      reads this`rings, this`slots, this`views, rings
      reads pool`dynamicMem, pool`actualSeqLen, pool`numWindows, pool`respDelayCapacity
    {
      && n <= RINGS && |rings| == RINGS == |views| && |slots| == REGIONS
      && forall j :: 0 <= j < n ==> RingHolds(j)
    }

    /** Restores all rings, in ring order. */
    method RebindAll(seqLen: nat, snaps: seq<Snapshot>)
      requires MemoryOk() && Saved(snaps, views, seqLen) && seqLen == pool.actualSeqLen
      modifies this`slots, pool.dynamicMem, rings
      ensures MemoryOk() && RingsOk() && |slots| == REGIONS
      ensures slots[..ARRAYS] == old(slots[..ARRAYS])
    {
      var ringOffset := 0;
      assert BoundBelow(0);
      for i := 0 to RINGS
        invariant MemoryOk() && BoundBelow(i) && pool.ringBufferData + ringOffset == Offset(ARRAYS + i, pool.Dimensions())
        invariant slots[..ARRAYS] == old(slots[..ARRAYS])
      {
        ringOffset := RebindNext(i, ringOffset, seqLen, snaps);
      }
    }

    method RebindNext(i: nat, ringOffset: nat, seqLen: nat, snaps: seq<Snapshot>) returns (next: nat)
      requires MemoryOk() && i < RINGS && BoundBelow(i) && Saved(snaps, views, seqLen) && seqLen == pool.actualSeqLen
      requires pool.ringBufferData + ringOffset == Offset(ARRAYS + i, pool.Dimensions())
      modifies this`slots, pool.dynamicMem, rings[i]
      ensures MemoryOk() && BoundBelow(i + 1) && slots[..ARRAYS] == old(slots[..ARRAYS])
      ensures pool.ringBufferData + next == Offset(ARRAYS + i + 1, pool.Dimensions())
    {
      hide FlowMemPool.LaidOut, FlowMemPool.Stores, Layout.Offset, Captures;
      var rc;
      rc, next := Rebind(i, ringOffset, seqLen, ElemSize(ARRAYS + i), snaps[i]);
      forall j | 0 <= j < i
        ensures RingHolds(j)
      {
        RingKept(j);
      }
    }

    /** Views are no longer than the rings. */
    lemma ViewsFit()
      requires RingsOk()
      ensures |views| == RINGS && forall i :: 0 <= i < RINGS ==> |views[i]| <= pool.actualSeqLen
    {
      forall i | 0 <= i < RINGS
        ensures |views[i]| <= pool.actualSeqLen
      {
        assert RingHolds(i);
      }
    }

    /** Points the state at the pool's new block; the rings are not attached yet. */
    method AdoptArrays()
      requires pool.LaidOut() && pool.tempMemOffset == 0 && |slots| == REGIONS && pool.Stores(ArraysOnly(slots))
      requires RingsDistinct()
      modifies this`arrays, this`listCapacity, this`slots, this`tempBuffer, this`tempBuffer2, this`tempLen, pool`tempMemOffset
      ensures MemoryOk() && TempOk() && slots == ArraysOnly(old(slots))
    {
      assert pool.actualSeqLen == SeqLen(pool.level);
      hide FlowMemPool.LaidOut, FlowMemPool.Stores, FlowFeatureState.TempOk;
      arrays := pool.arrays;
      listCapacity := pool.actualSeqLen;
      slots := ArraysOnly(slots);
      BindTempBuffers(pool.actualSeqLen);
    }

    /** Points the state at the pool's new block and brings the rings back. */
    method AdoptPool(snaps: seq<Snapshot>)
      requires pool.LaidOut() && pool.tempMemOffset == 0 && |slots| == REGIONS && pool.Stores(ArraysOnly(slots))
      requires CountsOk() && Saved(snaps, views, pool.actualSeqLen)
      requires RingsDistinct()
      modifies this`arrays, this`listCapacity, this`slots, this`tempBuffer, this`tempBuffer2, this`tempLen
      modifies pool`tempMemOffset, pool.dynamicMem, rings
      ensures Valid() && |slots| == REGIONS && slots[..ARRAYS] == old(slots[..ARRAYS])
    {
      hide FlowFeatureState.RingsDistinct, FlowFeatureState.MemoryOk, FlowFeatureState.TempOk, FlowFeatureState.CountsOk;
      hide FlowFeatureState.RingsOk;
      hide FlowMemPool.LaidOut, FlowMemPool.Stores, Saved;
      AdoptArrays();
      assert slots[..ARRAYS] == old(slots[..ARRAYS]);
      RebindAll(pool.actualSeqLen, snaps);
      CountsStillOk();
    }

    /** The counts still match as long as the arrays' slots stay what they are. */
    twostate lemma CountsStillOk()
      requires old(CountsOk()) && |slots| == REGIONS && slots[..ARRAYS] == old(slots[..ARRAYS])
      requires unchanged(`listCounts) && unchanged(`numWindows) && unchanged(`burstCount) && unchanged(`respCount)
      requires unchanged(`respCapacity) && unchanged(pool`numWindows) && unchanged(pool`respDelayCapacity)
      ensures CountsOk()
    {
      assert forall r :: 0 <= r < ARRAYS ==> slots[r] == slots[..ARRAYS][r] && old(slots)[r] == old(slots)[..ARRAYS][r];
    }

    /** Upgrades the pool.  If that fails the state is what it was; if not, its pointers are stale. */
    method UpgradePool(mallocOk: bool) returns (rc: int)
      requires Valid() && pool.level != LARGE
      modifies pool
      ensures rc == 0 <==> mallocOk
      ensures rc != 0 ==> Valid() && pool.level == old(pool.level) && pool.dynamicMem == old(pool.dynamicMem)
      ensures rc == 0 ==> pool.LaidOut() && |slots| == REGIONS && pool.Stores(ArraysOnly(slots)) && fresh(pool.dynamicMem)
      ensures rc == 0 ==> pool.level == Next(old(pool.level)) && pool.tempMemOffset == 0 && CountsOk()
      ensures rc == 0 ==> old(pool.actualSeqLen) <= pool.actualSeqLen
      ensures pool.currentPktCount == old(pool.currentPktCount)
    {
      hide *;
      ValidShape();
      ValidParts();
      var newLevel := Next(pool.level);
      LevelsGrow(pool.level);
      rc := pool.Upgrade(newLevel, mallocOk, slots);
      if rc == 0 {
        CountsStillOk();
      }
    }

    /** Moves the flow to the next level, if the allocation succeeds; only rings that could not be saved
        change. */
    method UpgradeFlow(mallocOk: bool, snaps: seq<Snapshot>, ghost unsaved: set<nat>)
      requires Valid() && pool.level != LARGE
      requires |views| == RINGS && Saved(snaps, Carried(views, true, unsaved), pool.actualSeqLen)
      modifies this`arrays, this`listCapacity, this`slots, this`views, this`tempBuffer, this`tempBuffer2, this`tempLen
      modifies pool, rings
      ensures views == Carried(old(views), mallocOk, unsaved)
      ensures Valid() && |slots| == REGIONS && slots[..ARRAYS] == old(slots[..ARRAYS])
      ensures pool.level == if mallocOk then Next(old(pool.level)) else old(pool.level)
      ensures pool.currentPktCount == old(pool.currentPktCount)
      ensures pool.dynamicMem == old(pool.dynamicMem) || fresh(pool.dynamicMem)
    {
      hide *;
      ValidShape();
      var rc := UpgradePool(mallocOk);
      if rc == 0 {
        views := Carried(views, true, unsaved);
        SavedForLarger(snaps, views, old(pool.actualSeqLen), pool.actualSeqLen);
        AdoptPool(snaps);
      } else {
        NothingLost(views, false, unsaved);
      }
    }

    /** Counts a packet towards the next upgrade. */
    method CountPacket() returns (upgrade: bool)
      requires Valid()
      modifies pool`currentPktCount, pool`needsUpgrade
      ensures Valid() && upgrade == NeedsUpgrade(pool.level, pool.currentPktCount)
      ensures pool.currentPktCount == CheckedCount(pool.level, old(pool.currentPktCount))
    {
      hide *;
      ValidShape();
      upgrade := pool.CheckUpgrade();
    }

    /** The upgrade check every packet starts with. */
    method CheckAndUpgrade(grants: Grants)
      requires Valid()
      modifies this`arrays, this`listCapacity, this`slots, this`views, this`tempBuffer, this`tempBuffer2, this`tempLen
      modifies pool, rings
      ensures Valid() && |slots| == REGIONS && Lists() == old(Lists()) && |old(views)| == RINGS
      ensures views == Carried(old(views), pool.level != old(pool.level), grants.unsaved)
      ensures AsBurst() == old(AsBurst()) && AsWindow() == old(AsWindow()) && AsResponse() == old(AsResponse())
      ensures pool.level == LevelStep(old(pool.level), old(pool.currentPktCount), grants.pool)
      ensures pool.currentPktCount == CheckedCount(old(pool.level), old(pool.currentPktCount))
      ensures pool.dynamicMem == old(pool.dynamicMem) || fresh(pool.dynamicMem)
    {
      hide FlowFeatureState.MemoryOk, FlowFeatureState.RingsOk, FlowFeatureState.CountsOk, FlowFeatureState.TempOk;
      ValidShape();
      var upgrade := CountPacket();
      if upgrade {
        var snaps := CaptureAll(grants.unsaved);
        UpgradeFlow(grants.pool, snaps, grants.unsaved);
        ArraysKept();
      } else {
        NothingLost(views, false, grants.unsaved);
      }
    }

    /** Everything that is collected from a packet, in the order of the code. */
    method CollectPacket(cfg: Config, p: Packet)
      requires Valid()
      modifies this`clock, this`totals, this`slots, this`views, this`listCounts, pool.dynamicMem, rings
      ensures Valid() && |slots| == REGIONS == old(|slots|) && old(|views|) == RINGS
      ensures AsBurst() == old(AsBurst()) && AsWindow() == old(AsWindow()) && AsResponse() == old(AsResponse())
      ensures clock == ClockStep(cfg, old(clock), p)
      ensures totals == ActiveStep(cfg, CountersStep(old(totals), p), old(clock), p)
      ensures views == AllKept(cfg, old(clock), p, SeqLen(pool.level), old(views))
      ensures Lists() == AllAppended(cfg, old(clock), p, SeqLen(pool.level), old(Lists()))
    {
      hide *;
      ValidShape();
      IpUpdate(cfg, p);
      BasicCounters(cfg, p);
      PacketLengthStats(cfg, p);
      DirectionAndTime(cfg, p);
      LayerLengths(cfg, p);
      IatUpdate(cfg, p);
      TransportUpdate(cfg, p);
      PayloadStats(cfg, p);
      AllRings(cfg, old(clock), p, SeqLen(pool.level), old(views));
      AllLists(cfg, old(clock), p, SeqLen(pool.level), old(Lists()));
    }

    /** Upgrade check and collection: all that comes before the detectors. */
    method Absorb(cfg: Config, p: Packet, grants: Grants)
      requires Valid()
      modifies this`arrays, this`listCapacity, this`tempBuffer, this`tempBuffer2, this`tempLen
      modifies this`clock, this`totals, this`slots, this`views, this`listCounts, pool, pool.dynamicMem, rings
      ensures Valid() && |slots| == REGIONS == old(|slots|) && old(|views|) == RINGS
      ensures AsBurst() == old(AsBurst()) && AsWindow() == old(AsWindow()) && AsResponse() == old(AsResponse())
      ensures clock == ClockStep(cfg, old(clock), p)
      ensures totals == ActiveStep(cfg, CountersStep(old(totals), p), old(clock), p)
      ensures views == AllKept(cfg, old(clock), p, SeqLen(pool.level),
                               Carried(old(views), pool.level != old(pool.level), grants.unsaved))
      ensures Lists() == AllAppended(cfg, old(clock), p, SeqLen(pool.level), old(Lists()))
      ensures pool.level == LevelStep(old(pool.level), old(pool.currentPktCount), grants.pool)
      ensures pool.currentPktCount == CheckedCount(old(pool.level), old(pool.currentPktCount))
      ensures pool.dynamicMem == old(pool.dynamicMem) || fresh(pool.dynamicMem)
    {
      hide *;
      ValidShape();
      CheckAndUpgrade(grants);
      CollectPacket(cfg, p);
    }

    /** The burst, response and window detectors, as far as they are switched on. */
    method Detect(cfg: Config, p: Packet, burstIat: nat)
      requires Valid() && |slots| == REGIONS
      modifies this`burstStart, this`burstBytes, this`burstPkts, this`burstCount, this`lastReq, this`respCount
      modifies this`windowStart, this`currentWindow, this`slots, pool.dynamicMem
      ensures Valid() && views == old(views) && |slots| == REGIONS
      ensures Lists() == old(Lists()) && WindowSpec.Consistent(old(AsWindow()))
      ensures var capacity := SeqLen(pool.level);
              AsBurst() == if cfg.burst then BurstStep(old(AsBurst()), capacity, cfg.burstThresholdUs, p.len, burstIat, p.ts)
                           else old(AsBurst())
      ensures AsResponse() == if cfg.response then ResponseStep(old(AsResponse()), RESP_CAPACITY, p.dir, p.ts)
                              else old(AsResponse())
      ensures AsWindow() == if cfg.window then WindowStep(old(AsWindow()), cfg.windowSizeMs, p.len, p.ts)
                            else old(AsWindow())
    {
      hide *;
      ValidShape();
      if cfg.burst {
        BurstUpdate(cfg, p.len, burstIat, p.ts);
      }
      if cfg.response {
        ResponseDelay(p.ts, p.dir);
      }
      if cfg.window {
        WindowUpdate(cfg, p.len, p.ts);
      }
    }

    /** The data branch, component by component. */
    method Process(cfg: Config, p: Packet, grants: Grants)
      requires Valid()
      modifies this, pool, pool.dynamicMem, rings
      ensures Valid() && |slots| == REGIONS == old(|slots|) && old(|views|) == RINGS
      ensures pool.level == LevelStep(old(pool.level), old(pool.currentPktCount), grants.pool)
      ensures pool.currentPktCount == CheckedCount(old(pool.level), old(pool.currentPktCount))
      ensures clock == ClockStep(cfg, old(clock), p)
      ensures totals == ActiveStep(cfg, CountersStep(old(totals), p), old(clock), p)
      ensures Lists() == AllAppended(cfg, old(clock), p, SeqLen(pool.level), old(Lists()))
      ensures views == AllKept(cfg, old(clock), p, SeqLen(pool.level),
                               Carried(old(views), pool.level != old(pool.level), grants.unsaved))
      ensures AsBurst() == if cfg.burst
                           then BurstStep(old(AsBurst()), SeqLen(pool.level), cfg.burstThresholdUs, p.len,
                                          Gap(old(clock), p), p.ts)
                           else old(AsBurst())
      ensures WindowSpec.Consistent(old(AsWindow()))
      ensures AsWindow() == if cfg.window then WindowStep(old(AsWindow()), cfg.windowSizeMs, p.len, p.ts)
                            else old(AsWindow())
      ensures AsResponse() == if cfg.response then ResponseStep(old(AsResponse()), RESP_CAPACITY, p.dir, p.ts)
                              else old(AsResponse())
      ensures pool.dynamicMem == old(pool.dynamicMem) || fresh(pool.dynamicMem)
      ensures rings == old(rings)
    {
      hide *;
      ValidShape();
      var burstIat := if clock.lastArrival > 0 then Sub64(p.ts, clock.lastArrival) else 0;
      GapIs(clock, p);
      Absorb(cfg, p, grants);
      Detect(cfg, p, burstIat);
    }

    /** The DATA branch of `traffic_process`: everything a packet does to the flow. */
    method Data(cfg: Config, p: Packet, grants: Grants)
      requires Valid()
      modifies this, pool, pool.dynamicMem, rings
      ensures Valid() && AsFlow() == DataStep(cfg, old(AsFlow()), p, grants)
      ensures pool.dynamicMem == old(pool.dynamicMem) || fresh(pool.dynamicMem)
      ensures rings == old(rings)
    {
      hide *;
      FlowParts();
      ghost var before := AsFlow();
      Process(cfg, p, grants);
      FlowParts();
      StepParts(cfg, before, p, grants, AsFlow());
    }

    lemma FlowParts()
      requires Valid()
      ensures var f := AsFlow();
              && WellFormed(f) && |slots| == REGIONS
              && f.level == pool.level && f.checked == pool.currentPktCount && f.clock == clock && f.totals == totals
              && f.lists == Lists() && f.views == views
              && f.burst == AsBurst() && f.window == AsWindow() && f.resp == AsResponse()
    {
    }
  }

  lemma BurstStepIs(b: Burst, capacity: nat, threshold: nat, len: nat, iat: nat, ts: nat)
    ensures BurstStep(b, capacity, threshold, len, iat, ts) ==
            if iat <= threshold then b.(bytes := b.bytes + len, pkts := b.pkts + 1)
            else (if b.pkts > 1 && |b.sizes| < capacity then Recorded(b, iat, ts) else b).(start := ts, bytes := len, pkts := 1)
  {
  }

  lemma IsNewFlow(f: Flow, level: Level)
    requires f.level == level && f.checked == 0 && f.clock == Clock(0, 0, 0, false, 0)
    requires f.totals == Totals(0, 0, 0, 0, 0, 0, 0, 0) && f.lists == seq(DIR_LISTS, _ => []) && f.views == seq(RINGS, _ => [])
    requires f.burst == NO_BURST && f.window == NoWindows(NUM_WINDOWS) && f.resp == Response(0, [])
    ensures f == NewFlow(level)
  {
  }

  lemma LevelsGrow(level: Level)
    requires level != LARGE
    ensures Rank(level) < Rank(Next(level)) && SeqLen(level) <= SeqLen(Next(level))
  {
  }

  lemma WindowStepIs(w: Window, sizeMs: nat, len: nat, ts: nat)
    requires WindowSpec.Consistent(w)
    ensures sizeMs == 0 ==> WindowStep(w, sizeMs, len, ts) == w
    ensures sizeMs > 0 ==>
              var begun := Begun(w, ts);
              var target := Target(begun.start, sizeMs, ts);
              && WindowSpec.Consistent(begun) && WindowUs(sizeMs) > 0
              && WindowStep(w, sizeMs, len, ts) == Counted(Advance(begun, target, WindowUs(sizeMs)), target, len)
  {
  }

  lemma AdvanceIs(w: Window, target: nat, us: nat)
    requires WindowSpec.Consistent(w) && us > 0
    ensures Advance(w, target, us) ==
            if w.current <= target && w.current < |w.pkts| then Advance(Entered(w, us), target, us) else w
  {
  }

  lemma NotCounted(w: Window, target: nat, len: nat)
    requires WindowSpec.Consistent(w) && target >= |w.pkts|
    ensures Counted(w, target, len) == w
  {
  }

  lemma NotAppended(lists: seq<seq<int>>, r: nat, capacity: nat, v: int)
    requires r < |lists| && |lists[r]| >= capacity
    ensures AppendedAt(lists, r, capacity, Some(v)) == lists
  {
  }

  lemma DirectionInputs(cfg: Config, c: Clock, p: Packet)
    ensures DIR_SEQ < RINGS && TS_SEQ < RINGS
    ensures RingInput(cfg, c, p, DIR_SEQ) == When(cfg.needDirSeq, if p.dir == Fwd then 1 else if p.dir == Bwd then -1 else 0)
    ensures RingInput(cfg, c, p, TS_SEQ) == When(cfg.needTsSeq, p.ts)
  {
  }

  lemma TimedInputs(cfg: Config, c: Clock, p: Packet)
    requires c.lastArrival != 0
    ensures IAT_SEQ < RINGS && FWD_IATS < DIR_LISTS && BWD_IATS < DIR_LISTS && Sub64(p.ts, c.lastArrival) >= 0
    ensures RingInput(cfg, c, p, IAT_SEQ) == When(cfg.needIatSeq, Sub64(p.ts, c.lastArrival))
    ensures ListInput(cfg, c, p, FWD_IATS)
            == When(cfg.needDirIats && p.dir == Fwd && c.lastFwd > 0, Sub64(p.ts, c.lastFwd))
    ensures ListInput(cfg, c, p, BWD_IATS)
            == When(cfg.needDirIats && p.dir == Bwd && c.lastBwd > 0, Sub64(p.ts, c.lastBwd))
  {
  }

  lemma PayloadInputs(cfg: Config, c: Clock, p: Packet)
    ensures FWD_PAYLOAD_SIZES < DIR_LISTS && BWD_PAYLOAD_SIZES < DIR_LISTS
    ensures ListInput(cfg, c, p, FWD_PAYLOAD_SIZES)
            == When(p.dir == Fwd && cfg.needPayloadDir && p.payloadLen > 0, p.payloadLen)
    ensures ListInput(cfg, c, p, BWD_PAYLOAD_SIZES)
            == When(p.dir == Bwd && cfg.needPayloadDir && p.payloadLen > 0, p.payloadLen)
  {
  }

  lemma GapIs(c: Clock, p: Packet)
    ensures Gap(c, p) == if c.lastArrival > 0 then Sub64(p.ts, c.lastArrival) else 0
  {
  }

  /** A flow that changed in every part as the reference says changed as it says. */
  lemma StepParts(cfg: Config, f: Flow, p: Packet, grants: Grants, f': Flow)
    requires WellFormed(f)
    requires var capacity := SeqLen(f'.level);
             && f'.level == LevelStep(f.level, f.checked, grants.pool) && f'.checked == CheckedCount(f.level, f.checked)
             && f'.clock == ClockStep(cfg, f.clock, p)
             && f'.totals == ActiveStep(cfg, CountersStep(f.totals, p), f.clock, p)
             && f'.lists == AllAppended(cfg, f.clock, p, capacity, f.lists)
             && f'.views == AllKept(cfg, f.clock, p, capacity, Carried(f.views, f'.level != f.level, grants.unsaved))
             && f'.burst == (if cfg.burst then BurstStep(f.burst, capacity, cfg.burstThresholdUs, p.len, Gap(f.clock, p), p.ts)
                             else f.burst)
             && f'.window == (if cfg.window then WindowStep(f.window, cfg.windowSizeMs, p.len, p.ts) else f.window)
             && f'.resp == (if cfg.response then ResponseStep(f.resp, RESP_CAPACITY, p.dir, p.ts) else f.resp)
    ensures f' == DataStep(cfg, f, p, grants)
  {
  }

  /** The rings, visited in the order of the code, each get what the packet has for them; the clock
      readings they depend on have not moved on by then. */
  lemma AllRings(cfg: Config, c: Clock, p: Packet, cap: nat, v: seq<seq<int>>)
    requires |v| == RINGS
    ensures ClockStep(cfg, c, p) == PayloadStep(cfg, ArrivalStep(c, p), p)
    ensures var c' := ArrivalStep(c, p);
            var v1 := KeptAt(KeptAt(v, IP_TTL_SEQ, cap, RingInput(cfg, c, p, IP_TTL_SEQ)),
                             IP_TOS_SEQ, cap, RingInput(cfg, c, p, IP_TOS_SEQ));
            var v2 := KeptAt(v1, PKT_LEN_SEQ, cap, RingInput(cfg, c, p, PKT_LEN_SEQ));
            var v3 := KeptAt(KeptAt(v2, DIR_SEQ, cap, RingInput(cfg, c, p, DIR_SEQ)),
                             TS_SEQ, cap, RingInput(cfg, c, p, TS_SEQ));
            var v4 := KeptAt(KeptAt(KeptAt(v3, L3_LEN_SEQ, cap, RingInput(cfg, c, p, L3_LEN_SEQ)),
                                    L4_LEN_SEQ, cap, RingInput(cfg, c, p, L4_LEN_SEQ)),
                             PAYLOAD_LEN_SEQ, cap, RingInput(cfg, c, p, PAYLOAD_LEN_SEQ));
            var v5 := KeptAt(v4, IAT_SEQ, cap, RingInput(cfg, c, p, IAT_SEQ));
            var v6 := KeptAt(KeptAt(v5, TCP_WINDOW_SEQ, cap, RingInput(cfg, c', p, TCP_WINDOW_SEQ)),
                             UDP_LEN_SEQ, cap, RingInput(cfg, c', p, UDP_LEN_SEQ));
            var v7 := KeptAt(KeptAt(v6, PAYLOAD_SIZE_SEQ, cap, RingInput(cfg, c', p, PAYLOAD_SIZE_SEQ)),
                             PAYLOAD_SIZE_DIFF_SEQ, cap, RingInput(cfg, c', p, PAYLOAD_SIZE_DIFF_SEQ));
            v7 == AllKept(cfg, c, p, cap, v)
  {
  }

  lemma AllLists(cfg: Config, c: Clock, p: Packet, cap: nat, l: seq<seq<int>>)
    requires |l| == DIR_LISTS
    ensures var l1 := AppendedAt(AppendedAt(l, FWD_PAYLOAD_SIZES, cap, ListInput(cfg, c, p, FWD_PAYLOAD_SIZES)),
                                 BWD_PAYLOAD_SIZES, cap, ListInput(cfg, c, p, BWD_PAYLOAD_SIZES));
            var l2 := AppendedAt(AppendedAt(l1, FWD_PKT_LENS, cap, ListInput(cfg, c, p, FWD_PKT_LENS)),
                                 BWD_PKT_LENS, cap, ListInput(cfg, c, p, BWD_PKT_LENS));
            var l3 := AppendedAt(AppendedAt(l2, FWD_IATS, cap, ListInput(cfg, c, p, FWD_IATS)),
                                 BWD_IATS, cap, ListInput(cfg, c, p, BWD_IATS));
            l3 == AllAppended(cfg, c, p, cap, l)
  {
  }

  /** Storing at the head and advancing the indices pushes onto the view. */
  lemma SlotsPushed(slots: seq<int>, capacity: nat, tail: nat, v: int)
    requires 0 < capacity && |slots| <= capacity && tail < capacity && (|slots| < capacity ==> tail == 0)
    ensures var full := |slots| == capacity;
            InOrder(Stored(slots, if full then tail else |slots|, v), if full then Wrap(tail + 1, capacity) else 0,
                    full || |slots| + 1 == capacity)
            == Pushed(InOrder(slots, tail, full), capacity, v)
  {
    if |slots| == capacity {
      PushedWhenFull(slots, tail, v);
    }
  }

  /** The oldest element is overwritten, and the next one becomes the oldest. */
  lemma PushedWhenFull(slots: seq<int>, tail: nat, v: int)
    requires tail < |slots|
    ensures var next := slots[tail := v];
            next[tail + 1..] + next[..tail + 1] == (slots[tail..] + slots[..tail])[1..] + [v]
            && (tail + 1 == |slots| ==> next == (slots[tail..] + slots[..tail])[1..] + [v])
  {
  }
}
