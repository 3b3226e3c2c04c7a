/** What the arrays, rings and counters of a flow have recorded, said of the packets alone. */
module Recordings {
  import opened Common
  import opened Words
  import opened Layout
  import opened BurstSpec
  import opened WindowSpec
  import opened FlowSpec
  import opened Tiering
  import Windows

  /** One value for every packet that is kept, in order. */
  function Where(trace: seq<Event>, keep: Packet -> bool, value: Packet -> int): seq<int>
  {
    if trace == [] then []
    else
      var front, p := trace[..|trace| - 1], trace[|trace| - 1].packet;
      if keep(p) then Where(front, keep, value) + [value(p)] else Where(front, keep, value)
  }

  /** What lies between every element and the one before it. */
  function Between(s: seq<int>, f: (int, int) -> int): seq<int>
  {
    if |s| <= 1 then [] else Between(s[..|s| - 1], f) + [f(s[|s| - 1], s[|s| - 2])]
  }

  function SumOf(s: seq<int>, keep: int -> bool): int
  {
    if s == [] then 0
    else SumOf(s[..|s| - 1], keep) + if keep(s[|s| - 1]) then s[|s| - 1] else 0
  }

  function AfterFirst(trace: seq<Event>): seq<Event>
  {
    if trace == [] then [] else trace[1..]
  }

  /** The difference of two unsigned 64-bit times. */
  ghost predicate IsDifference(f: (int, int) -> int)
  {
    forall x, y :: f(x, y) == (x - y) % 0x1_0000_0000_0000_0000
  }

  lemma DifferenceAt(f: (int, int) -> int, x: int, y: int)
    requires IsDifference(f)
    ensures f(x, y) == (x - y) % 0x1_0000_0000_0000_0000
  {
  }

  lemma BetweenOneMore(s: seq<int>, x: int, f: (int, int) -> int)
    ensures Between(s + [x], f) == if s == [] then [] else Between(s, f) + [f(x, s[|s| - 1])]
  {
    assert (s + [x])[..|s|] == s;
  }

  // --- Values of single packets ---

  lemma {:induction false} OffersAre(cfg: Config, trace: seq<Event>, r: nat, keep: Packet -> bool, value: Packet -> int)
    requires r < DIR_LISTS
    requires forall c: Clock, p: Packet :: ListInput(cfg, c, p, r) == if keep(p) then Some(value(p)) else None
    ensures Offers(cfg, trace, r) == Where(trace, keep, value)
  {
    if trace != [] {
      hide ListInput, ClockAfter;
      OffersAre(cfg, trace[..|trace| - 1], r, keep, value);
    }
  }

  lemma {:induction false} PushesAre(cfg: Config, trace: seq<Event>, i: nat, keep: Packet -> bool, value: Packet -> int)
    requires i < RINGS
    requires forall c: Clock, p: Packet :: RingInput(cfg, c, p, i) == if keep(p) then Some(value(p)) else None
    ensures Pushes(cfg, trace, i) == Where(trace, keep, value)
  {
    if trace != [] {
      hide RingInput, ClockAfter;
      PushesAre(cfg, trace[..|trace| - 1], i, keep, value);
    }
  }

  // --- Values that take two packets ---

  lemma {:induction false} WhereNone(trace: seq<Event>, keep: Packet -> bool, value: Packet -> int)
    requires forall p :: !keep(p)
    ensures Where(trace, keep, value) == []
  {
    if trace != [] {
      WhereNone(trace[..|trace| - 1], keep, value);
    }
  }

  lemma {:induction false} NothingOffered(cfg: Config, trace: seq<Event>, r: nat)
    requires r < DIR_LISTS && forall c: Clock, p: Packet :: ListInput(cfg, c, p, r).None?
    ensures Offers(cfg, trace, r) == []
  {
    if trace != [] {
      NothingOffered(cfg, trace[..|trace| - 1], r);
    }
  }

  lemma {:induction false} NothingPushed(cfg: Config, trace: seq<Event>, i: nat)
    requires i < RINGS && forall c: Clock, p: Packet :: RingInput(cfg, c, p, i).None?
    ensures Pushes(cfg, trace, i) == []
  {
    if trace != [] {
      NothingPushed(cfg, trace[..|trace| - 1], i);
    }
  }

  /** Whether a packet has been seen at all shows in its time. */
  lemma SeenBefore(cfg: Config, trace: seq<Event>)
    requires Timed(trace)
    ensures ClockAfter(cfg, trace).lastArrival == if trace == [] then 0 else trace[|trace| - 1].packet.ts
    ensures trace != [] ==> 0 < trace[|trace| - 1].packet.ts < TWO64
  {
    if trace != [] {
      LastArrival(cfg, trace);
      assert trace[|trace| - 1] in trace;
    }
  }

  /** The time of the latest packet of a direction, as far as the flow has kept it. */
  function LastOf(c: Clock, d: Direction): nat
  {
    if d == Fwd then c.lastFwd else c.lastBwd
  }

  function IatsOf(d: Direction): (r: nat)
    ensures r < DIR_LISTS
  {
    if d == Fwd then FWD_IATS else BWD_IATS
  }

  /** How one packet after the first moves that time, and what it offers. */
  lemma DirectionStep(cfg: Config, c: Clock, p: Packet, d: Direction)
    requires d != Unknown && cfg.needDirIats && c.lastArrival > 0
    ensures LastOf(ClockStep(cfg, c, p), d) == if p.dir == d then p.ts else LastOf(c, d)
    ensures ListInput(cfg, c, p, IatsOf(d)) ==
            if p.dir == d && LastOf(c, d) > 0 then Some((p.ts - LastOf(c, d)) % 0x1_0000_0000_0000_0000) else None
  {
  }

  lemma DirectionStart(cfg: Config, trace: seq<Event>, d: Direction)
    requires d != Unknown && |trace| <= 1
    ensures LastOf(ClockAfter(cfg, trace), d) == 0
    ensures Offers(cfg, trace, IatsOf(d)) == []
    ensures AfterFirst(trace) == []
  {
    if |trace| == 1 {
      assert trace[..0] == [] && ClockAfter(cfg, []).lastFwd == ClockAfter(cfg, []).lastBwd == 0;
      assert Offers(cfg, [], FWD_IATS) == [] && Offers(cfg, [], BWD_IATS) == [];
    }
  }

  lemma ClockAndOffersAfter(cfg: Config, trace: seq<Event>, r: nat)
    requires trace != [] && r < DIR_LISTS
    ensures var front, p := trace[..|trace| - 1], trace[|trace| - 1].packet;
            && ClockAfter(cfg, trace) == ClockStep(cfg, ClockAfter(cfg, front), p)
            && Offers(cfg, trace, r) == Noted(Offers(cfg, front, r), ListInput(cfg, ClockAfter(cfg, front), p, r))
  {
  }

  lemma WhereAfterFirst(trace: seq<Event>, keep: Packet -> bool, value: Packet -> int)
    requires |trace| >= 2
    ensures var front, p := trace[..|trace| - 1], trace[|trace| - 1].packet;
            var s := Where(AfterFirst(front), keep, value);
            Where(AfterFirst(trace), keep, value) == if keep(p) then s + [value(p)] else s
  {
    var rest := AfterFirst(trace);
    assert AfterFirst(trace[..|trace| - 1]) == rest[..|rest| - 1];
  }

  /** `keep` and `value` pick the times of direction `d`. */
  ghost predicate TimesOf(d: Direction, keep: Packet -> bool, value: Packet -> int)
  {
    forall p :: keep(p) == (p.dir == d) && value(p) == p.ts
  }

  lemma TimesOfAt(d: Direction, keep: Packet -> bool, value: Packet -> int, p: Packet)
    requires TimesOf(d, keep, value)
    ensures keep(p) == (p.dir == d) && value(p) == p.ts
  {
  }

  /** Of the values `s`, the latest is kept (0: there is none), and what lies between them was offered. */
  ghost predicate Follows(s: seq<int>, latest: int, offered: seq<int>, f: (int, int) -> int)
  {
    && latest == (if s == [] then 0 else s[|s| - 1])
    && (s != [] ==> s[|s| - 1] > 0)
    && offered == Between(s, f)
  }

  lemma FollowsOn(s: seq<int>, latest: int, offered: seq<int>, f: (int, int) -> int, next: bool, x: int)
    requires Follows(s, latest, offered, f) && x > 0
    ensures Follows(if next then s + [x] else s, if next then x else latest,
                    Noted(offered, if next && latest > 0 then Some(f(x, latest)) else None), f)
  {
    BetweenOneMore(s, x, f);
  }

  lemma NothingFollows(trace: seq<Event>, keep: Packet -> bool, value: Packet -> int, f: (int, int) -> int)
    requires trace == []
    ensures Follows(Where(trace, keep, value), 0, [], f)
  {
  }

  /** The packets of a direction after the first packet of the flow: the latest one's time is kept, and
      every other one offers the time since the one before it. */
  lemma {:induction false} DirectionHistory(cfg: Config, trace: seq<Event>, d: Direction, keep: Packet -> bool,
                                            value: Packet -> int, f: (int, int) -> int)
    requires d != Unknown && cfg.needDirIats && Timed(trace) && IsDifference(f) && TimesOf(d, keep, value)
    ensures Follows(Where(AfterFirst(trace), keep, value), LastOf(ClockAfter(cfg, trace), d), Offers(cfg, trace, IatsOf(d)), f)
  {
    if |trace| <= 1 {
      DirectionStart(cfg, trace, d);
      NothingFollows(AfterFirst(trace), keep, value, f);
    } else {
      var front, p := trace[..|trace| - 1], trace[|trace| - 1].packet;
      var c := ClockAfter(cfg, front);
      hide *;
      FrontOfTimed(trace);
      DirectionHistory(cfg, front, d, keep, value, f);
      SeenBefore(cfg, front);
      SeenBefore(cfg, trace);
      WhereAfterFirst(trace, keep, value);
      ClockAndOffersAfter(cfg, trace, IatsOf(d));
      DirectionStep(cfg, c, p, d);
      TimesOfAt(d, keep, value, p);
      DifferenceAt(f, p.ts, LastOf(c, d));
      FollowsOn(Where(AfterFirst(front), keep, value), LastOf(c, d), Offers(cfg, front, IatsOf(d)), f, p.dir == d, p.ts);
    }
  }

  lemma WhereAfter(trace: seq<Event>, keep: Packet -> bool, value: Packet -> int)
    requires trace != []
    ensures var s, p := Where(trace[..|trace| - 1], keep, value), trace[|trace| - 1].packet;
            Where(trace, keep, value) == if keep(p) then s + [value(p)] else s
  {
  }

  lemma PushesAfter(cfg: Config, trace: seq<Event>, i: nat)
    requires trace != [] && i < RINGS
    ensures var front, p := trace[..|trace| - 1], trace[|trace| - 1].packet;
            && ClockAfter(cfg, trace) == ClockStep(cfg, ClockAfter(cfg, front), p)
            && Pushes(cfg, trace, i) == Noted(Pushes(cfg, front, i), RingInput(cfg, ClockAfter(cfg, front), p, i))
  {
  }

  /** Every packet but the first adds the time since the packet before it. */
  lemma {:induction false} ArrivalHistory(cfg: Config, trace: seq<Event>, keep: Packet -> bool, value: Packet -> int,
                                          f: (int, int) -> int)
    requires cfg.needIatSeq && Timed(trace) && IsDifference(f)
    requires forall p :: keep(p) && value(p) == p.ts
    ensures IAT_SEQ < RINGS
    ensures Follows(Where(trace, keep, value), ClockAfter(cfg, trace).lastArrival, Pushes(cfg, trace, IAT_SEQ), f)
  {
    if trace != [] {
      var front, p := trace[..|trace| - 1], trace[|trace| - 1].packet;
      var c := ClockAfter(cfg, front);
      assert IAT_SEQ < RINGS && keep(p) && value(p) == p.ts;
      ArrivalStepIs(cfg, c, p);
      FrontOfTimed(trace);
      ArrivalHistory(cfg, front, keep, value, f);
      hide *;
      SeenBefore(cfg, trace);
      WhereAfter(trace, keep, value);
      PushesAfter(cfg, trace, IAT_SEQ);
      DifferenceAt(f, p.ts, c.lastArrival);
      FollowsOn(Where(front, keep, value), c.lastArrival, Pushes(cfg, front, IAT_SEQ), f, true, p.ts);
    }
  }

  lemma ArrivalStepIs(cfg: Config, c: Clock, p: Packet)
    requires cfg.needIatSeq
    ensures ClockStep(cfg, c, p).lastArrival == p.ts && IAT_SEQ < RINGS
    ensures RingInput(cfg, c, p, IAT_SEQ) ==
            if c.lastArrival > 0 then Some((p.ts - c.lastArrival) % 0x1_0000_0000_0000_0000) else None
  {
  }

  /** Every packet with payload but the first adds how far its size is from the one before. */
  lemma {:induction false} PayloadHistory(cfg: Config, trace: seq<Event>, keep: Packet -> bool, value: Packet -> int,
                                          f: (int, int) -> int)
    requires forall p :: keep(p) == (cfg.payloadStats && p.hasHeaders && p.payloadLen > 0) && value(p) == p.payloadLen
    requires forall x, y :: f(x, y) == if x >= y then x - y else y - x
    ensures PAYLOAD_SIZE_DIFF_SEQ < RINGS
    ensures Follows(Where(trace, keep, value), SizeOf(ClockAfter(cfg, trace)), Pushes(cfg, trace, PAYLOAD_SIZE_DIFF_SEQ), f)
  {
    if trace != [] {
      var front, p := trace[..|trace| - 1], trace[|trace| - 1].packet;
      var c := ClockAfter(cfg, front);
      PayloadHistory(cfg, front, keep, value, f);
      PayloadIsPositive(cfg, front);
      PayloadStepIs(cfg, c, p);
      var next := cfg.payloadStats && p.hasHeaders && p.payloadLen > 0;
      assert keep(p) == next && value(p) == p.payloadLen;
      assert f(p.payloadLen, SizeOf(c)) ==
             if p.payloadLen >= SizeOf(c) then p.payloadLen - SizeOf(c) else SizeOf(c) - p.payloadLen;
      hide *;
      WhereAfter(trace, keep, value);
      PushesAfter(cfg, trace, PAYLOAD_SIZE_DIFF_SEQ);
      if next {
        FollowsOn(Where(front, keep, value), SizeOf(c), Pushes(cfg, front, PAYLOAD_SIZE_DIFF_SEQ), f, true, p.payloadLen);
      }
      NoteNone(Pushes(cfg, front, PAYLOAD_SIZE_DIFF_SEQ));
    }
  }

  /** Size of the latest payload, 0 if there was none. */
  function SizeOf(c: Clock): nat
  {
    if c.hasPayload then c.lastPayload else 0
  }

  lemma {:induction false} PayloadIsPositive(cfg: Config, trace: seq<Event>)
    ensures var c := ClockAfter(cfg, trace); c.hasPayload ==> c.lastPayload > 0
  {
    if trace != [] {
      PayloadIsPositive(cfg, trace[..|trace| - 1]);
    }
  }

  lemma PayloadStepIs(cfg: Config, c: Clock, p: Packet)
    requires c.hasPayload ==> c.lastPayload > 0
    ensures PAYLOAD_SIZE_DIFF_SEQ < RINGS
    ensures var next := cfg.payloadStats && p.hasHeaders && p.payloadLen > 0;
            && SizeOf(ClockStep(cfg, c, p)) == (if next then p.payloadLen else SizeOf(c))
            && RingInput(cfg, c, p, PAYLOAD_SIZE_DIFF_SEQ) ==
               if next && SizeOf(c) > 0
               then Some(if p.payloadLen >= SizeOf(c) then p.payloadLen - SizeOf(c) else SizeOf(c) - p.payloadLen)
               else None
  {
  }

  lemma NoteNone(s: seq<int>)
    ensures Noted(s, None) == s
  {
  }

  // --- What a flow holds ---

  function First5000(s: seq<int>): seq<int>
  {
    s[..Min(|s|, 5000)]
  }

  /** Whichever allocations fail, ring `i` holds the latest values, and if none fails the latest 5000. */
  predicate HoldsLatest(cfg: Config, start: Level, trace: seq<Event>, i: nat, values: seq<int>)
    requires i < RINGS
  {
    var view := Run(cfg, start, trace).views[i];
    && |view| <= |values| && view == values[|values| - |view|..]
    && (AllocationsSucceed(trace) ==> |view| == Min(|values|, 5000))
  }

  lemma RingHoldsPushes(cfg: Config, start: Level, trace: seq<Event>, i: nat)
    requires i < RINGS
    ensures HoldsLatest(cfg, start, trace, i, Pushes(cfg, trace, i))
  {
    hide *;
    var values := Pushes(cfg, trace, i);
    RingFits(cfg, start, trace, i);
    RingIsRecent(cfg, start, trace, i);
    if AllocationsSucceed(trace) {
      RingsHoldTheLatest5000(cfg, start, trace, i);
      LatestLength(values, Min(|values|, 5000));
    }
    IsHeld(cfg, start, trace, i, values);
  }

  lemma IsHeld(cfg: Config, start: Level, trace: seq<Event>, i: nat, values: seq<int>)
    requires i < RINGS
    requires var view := Run(cfg, start, trace).views[i];
             && |view| <= |values| && view == Latest(values, |view|)
             && (AllocationsSucceed(trace) ==> |view| == Min(|values|, 5000))
    ensures HoldsLatest(cfg, start, trace, i, values)
  {
    hide Run, AllocationsSucceed, Min;
  }

  lemma LatestLength(s: seq<int>, n: nat)
    requires n <= |s|
    ensures |Latest(s, n)| == n
  {
  }

  /** If allocations succeed, the per-direction arrays of packet lengths and payload sizes hold the first
      5000 lengths, and sizes that are not 0, of the packets of their direction. */
  lemma ArraysByPacket(cfg: Config, start: Level, trace: seq<Event>)
    requires AllocationsSucceed(trace)
    ensures var lists := Run(cfg, start, trace).lists;
            && lists[FWD_PKT_LENS] ==
               First5000(Where(trace, (p: Packet) => cfg.needDirLens && p.dir == Fwd, (p: Packet) => p.len))
            && lists[BWD_PKT_LENS] ==
               First5000(Where(trace, (p: Packet) => cfg.needDirLens && p.dir == Bwd, (p: Packet) => p.len))
            && lists[FWD_PAYLOAD_SIZES] ==
               First5000(Where(trace, (p: Packet) => cfg.needPayloadDir && p.dir == Fwd && p.payloadLen > 0,
                               (p: Packet) => p.payloadLen))
            && lists[BWD_PAYLOAD_SIZES] ==
               First5000(Where(trace, (p: Packet) => cfg.needPayloadDir && p.dir == Bwd && p.payloadLen > 0,
                               (p: Packet) => p.payloadLen))
  {
    OffersAre(cfg, trace, FWD_PKT_LENS, (p: Packet) => cfg.needDirLens && p.dir == Fwd, (p: Packet) => p.len);
    OffersAre(cfg, trace, BWD_PKT_LENS, (p: Packet) => cfg.needDirLens && p.dir == Bwd, (p: Packet) => p.len);
    OffersAre(cfg, trace, FWD_PAYLOAD_SIZES, (p: Packet) => cfg.needPayloadDir && p.dir == Fwd && p.payloadLen > 0,
              (p: Packet) => p.payloadLen);
    OffersAre(cfg, trace, BWD_PAYLOAD_SIZES, (p: Packet) => cfg.needPayloadDir && p.dir == Bwd && p.payloadLen > 0,
              (p: Packet) => p.payloadLen);
    hide ListInput, Run, Offers, Where;
    ArraysHoldTheFirst5000(cfg, start, trace, FWD_PKT_LENS);
    ArraysHoldTheFirst5000(cfg, start, trace, BWD_PKT_LENS);
    ArraysHoldTheFirst5000(cfg, start, trace, FWD_PAYLOAD_SIZES);
    ArraysHoldTheFirst5000(cfg, start, trace, BWD_PAYLOAD_SIZES);
  }

  /** If allocations succeed, the arrays of inter-arrival times per direction hold the first 5000 times
      between packets of that direction that follow each other.  The flow's first packet takes no part. */
  lemma DirectionGapsByPacket(cfg: Config, start: Level, trace: seq<Event>)
    requires AllocationsSucceed(trace) && Timed(trace)
    ensures var lists := Run(cfg, start, trace).lists;
            && lists[FWD_IATS] ==
               First5000(Between(Where(AfterFirst(trace), (p: Packet) => cfg.needDirIats && p.dir == Fwd, (p: Packet) => p.ts),
                                 (x: int, y: int) => (x - y) % 0x1_0000_0000_0000_0000))
            && lists[BWD_IATS] ==
               First5000(Between(Where(AfterFirst(trace), (p: Packet) => cfg.needDirIats && p.dir == Bwd, (p: Packet) => p.ts),
                                 (x: int, y: int) => (x - y) % 0x1_0000_0000_0000_0000))
  {
    var f := (x: int, y: int) => (x - y) % 0x1_0000_0000_0000_0000;
    GapOffers(cfg, trace, Fwd, (p: Packet) => cfg.needDirIats && p.dir == Fwd, (p: Packet) => p.ts, f);
    GapOffers(cfg, trace, Bwd, (p: Packet) => cfg.needDirIats && p.dir == Bwd, (p: Packet) => p.ts, f);
    hide ListInput, Run, Offers, Where, Between;
    ArraysHoldTheFirst5000(cfg, start, trace, FWD_IATS);
    ArraysHoldTheFirst5000(cfg, start, trace, BWD_IATS);
  }

  lemma GapOffers(cfg: Config, trace: seq<Event>, d: Direction, keep: Packet -> bool, value: Packet -> int,
                  f: (int, int) -> int)
    requires d != Unknown && Timed(trace) && IsDifference(f)
    requires forall p :: keep(p) == (cfg.needDirIats && p.dir == d) && value(p) == p.ts
    ensures Offers(cfg, trace, IatsOf(d)) == Between(Where(AfterFirst(trace), keep, value), f)
  {
    if cfg.needDirIats {
      assert TimesOf(d, keep, value);
      hide AfterFirst, Where, Between, Offers, ClockAfter;
      DirectionHistory(cfg, trace, d, keep, value, f);
    } else {
      WhereNone(AfterFirst(trace), keep, value);
      NothingOffered(cfg, trace, IatsOf(d));
    }
  }

  /** Whichever allocations fail, the rings that record one value of a packet hold the latest of them. */
  lemma RingsByPacket(cfg: Config, start: Level, trace: seq<Event>)
    ensures HoldsLatest(cfg, start, trace, PKT_LEN_SEQ, Where(trace, (p: Packet) => cfg.needPktLenSeq, (p: Packet) => p.len))
    ensures HoldsLatest(cfg, start, trace, DIR_SEQ,
                        Where(trace, (p: Packet) => cfg.needDirSeq,
                              (p: Packet) => if p.dir == Fwd then 1 else if p.dir == Bwd then -1 else 0))
    ensures HoldsLatest(cfg, start, trace, TS_SEQ, Where(trace, (p: Packet) => cfg.needTsSeq, (p: Packet) => p.ts))
    ensures HoldsLatest(cfg, start, trace, L3_LEN_SEQ, Where(trace, (p: Packet) => cfg.needLayerSeqs, (p: Packet) => p.l3Len))
    ensures HoldsLatest(cfg, start, trace, L4_LEN_SEQ, Where(trace, (p: Packet) => cfg.needLayerSeqs, (p: Packet) => p.l4Len))
    ensures HoldsLatest(cfg, start, trace, PAYLOAD_LEN_SEQ,
                        Where(trace, (p: Packet) => cfg.needLayerSeqs, (p: Packet) => p.payloadLen))
  {
    PushesAre(cfg, trace, PKT_LEN_SEQ, (p: Packet) => cfg.needPktLenSeq, (p: Packet) => p.len);
    PushesAre(cfg, trace, DIR_SEQ, (p: Packet) => cfg.needDirSeq,
              (p: Packet) => if p.dir == Fwd then 1 else if p.dir == Bwd then -1 else 0);
    PushesAre(cfg, trace, TS_SEQ, (p: Packet) => cfg.needTsSeq, (p: Packet) => p.ts);
    PushesAre(cfg, trace, L3_LEN_SEQ, (p: Packet) => cfg.needLayerSeqs, (p: Packet) => p.l3Len);
    PushesAre(cfg, trace, L4_LEN_SEQ, (p: Packet) => cfg.needLayerSeqs, (p: Packet) => p.l4Len);
    PushesAre(cfg, trace, PAYLOAD_LEN_SEQ, (p: Packet) => cfg.needLayerSeqs, (p: Packet) => p.payloadLen);
    hide RingInput, Run, Pushes, Where, HoldsLatest;
    RingHoldsPushes(cfg, start, trace, PKT_LEN_SEQ);
    RingHoldsPushes(cfg, start, trace, DIR_SEQ);
    RingHoldsPushes(cfg, start, trace, TS_SEQ);
    RingHoldsPushes(cfg, start, trace, L3_LEN_SEQ);
    RingHoldsPushes(cfg, start, trace, L4_LEN_SEQ);
    RingHoldsPushes(cfg, start, trace, PAYLOAD_LEN_SEQ);
  }

  /** The same for the rings that record header fields and payload sizes: only some packets have them. */
  lemma HeaderRingsByPacket(cfg: Config, start: Level, trace: seq<Event>)
    ensures HoldsLatest(cfg, start, trace, TCP_WINDOW_SEQ,
                        Where(trace, (p: Packet) => cfg.protocolTcp && p.hasHeaders && p.transport == Tcp,
                              (p: Packet) => p.tcpWindow))
    ensures HoldsLatest(cfg, start, trace, UDP_LEN_SEQ,
                        Where(trace, (p: Packet) => cfg.protocolUdp && p.transport == Udp, (p: Packet) => p.payloadLen + 8))
    ensures HoldsLatest(cfg, start, trace, IP_TTL_SEQ,
                        Where(trace, (p: Packet) => cfg.protocolIp && p.hasHeaders, (p: Packet) => p.ttl))
    ensures HoldsLatest(cfg, start, trace, IP_TOS_SEQ,
                        Where(trace, (p: Packet) => cfg.protocolIp && p.hasHeaders, (p: Packet) => p.tos))
    ensures HoldsLatest(cfg, start, trace, PAYLOAD_SIZE_SEQ,
                        Where(trace, (p: Packet) => cfg.payloadStats && p.hasHeaders && p.payloadLen > 0,
                              (p: Packet) => p.payloadLen))
  {
    PushesAre(cfg, trace, TCP_WINDOW_SEQ, (p: Packet) => cfg.protocolTcp && p.hasHeaders && p.transport == Tcp,
              (p: Packet) => p.tcpWindow);
    PushesAre(cfg, trace, UDP_LEN_SEQ, (p: Packet) => cfg.protocolUdp && p.transport == Udp, (p: Packet) => p.payloadLen + 8);
    PushesAre(cfg, trace, IP_TTL_SEQ, (p: Packet) => cfg.protocolIp && p.hasHeaders, (p: Packet) => p.ttl);
    PushesAre(cfg, trace, IP_TOS_SEQ, (p: Packet) => cfg.protocolIp && p.hasHeaders, (p: Packet) => p.tos);
    PushesAre(cfg, trace, PAYLOAD_SIZE_SEQ, (p: Packet) => cfg.payloadStats && p.hasHeaders && p.payloadLen > 0,
              (p: Packet) => p.payloadLen);
    hide RingInput, Run, Pushes, Where, HoldsLatest;
    RingHoldsPushes(cfg, start, trace, TCP_WINDOW_SEQ);
    RingHoldsPushes(cfg, start, trace, UDP_LEN_SEQ);
    RingHoldsPushes(cfg, start, trace, IP_TTL_SEQ);
    RingHoldsPushes(cfg, start, trace, IP_TOS_SEQ);
    RingHoldsPushes(cfg, start, trace, PAYLOAD_SIZE_SEQ);
  }

  /** And for the two rings that record how packets differ: in time from the packet before, and in size
      from the payload before. */
  lemma DifferenceRingsByPacket(cfg: Config, start: Level, trace: seq<Event>)
    requires Timed(trace)
    ensures HoldsLatest(cfg, start, trace, IAT_SEQ,
                        Between(Where(trace, (p: Packet) => cfg.needIatSeq, (p: Packet) => p.ts),
                                (x: int, y: int) => (x - y) % 0x1_0000_0000_0000_0000))
    ensures HoldsLatest(cfg, start, trace, PAYLOAD_SIZE_DIFF_SEQ,
                        Between(Where(trace, (p: Packet) => cfg.payloadStats && p.hasHeaders && p.payloadLen > 0,
                                      (p: Packet) => p.payloadLen),
                                (x: int, y: int) => if x >= y then x - y else y - x))
  {
    GapPushes(cfg, trace, (p: Packet) => cfg.needIatSeq, (p: Packet) => p.ts,
              (x: int, y: int) => (x - y) % 0x1_0000_0000_0000_0000);
    PayloadHistory(cfg, trace, (p: Packet) => cfg.payloadStats && p.hasHeaders && p.payloadLen > 0,
                   (p: Packet) => p.payloadLen, (x: int, y: int) => if x >= y then x - y else y - x);
    hide RingInput, Run, Pushes, Where, Between, HoldsLatest;
    RingHoldsPushes(cfg, start, trace, IAT_SEQ);
    RingHoldsPushes(cfg, start, trace, PAYLOAD_SIZE_DIFF_SEQ);
  }

  lemma GapPushes(cfg: Config, trace: seq<Event>, keep: Packet -> bool, value: Packet -> int, f: (int, int) -> int)
    requires Timed(trace) && IsDifference(f)
    requires forall p :: keep(p) == cfg.needIatSeq && value(p) == p.ts
    ensures IAT_SEQ < RINGS && Pushes(cfg, trace, IAT_SEQ) == Between(Where(trace, keep, value), f)
  {
    if cfg.needIatSeq {
      hide Where, Between, Pushes, ClockAfter;
      ArrivalHistory(cfg, trace, keep, value, f);
    } else {
      WhereNone(trace, keep, value);
      NothingPushed(cfg, trace, IAT_SEQ);
    }
  }

  // --- Active and idle time ---

  /** Gaps up to the threshold count as active time, longer ones as idle time. */
  lemma {:induction false} ActiveAndIdleTimes(cfg: Config, start: Level, trace: seq<Event>)
    requires Timed(trace)
    ensures var gaps := Between(Where(trace, (p: Packet) => true, (p: Packet) => p.ts),
                                (x: int, y: int) => (x - y) % 0x1_0000_0000_0000_0000);
            var t := Run(cfg, start, trace).totals;
            && t.active == SumOf(gaps, g => cfg.iatActive && g <= cfg.activeThresholdUs)
            && t.idle == SumOf(gaps, g => cfg.iatActive && g > cfg.activeThresholdUs)
  {
    ActiveAndIdle(cfg, start, trace, (p: Packet) => true, (p: Packet) => p.ts,
                  (x: int, y: int) => (x - y) % 0x1_0000_0000_0000_0000,
                  g => cfg.iatActive && g <= cfg.activeThresholdUs, g => cfg.iatActive && g > cfg.activeThresholdUs);
  }

  lemma {:induction false} ActiveAndIdle(cfg: Config, start: Level, trace: seq<Event>, keep: Packet -> bool,
                                         value: Packet -> int, f: (int, int) -> int, short: int -> bool, long: int -> bool)
    requires Timed(trace) && IsDifference(f)
    requires AllTimes(keep, value) && Splits(cfg, short, long)
    ensures var gaps, t := Between(Where(trace, keep, value), f), Run(cfg, start, trace).totals;
            t.active == SumOf(gaps, short) && t.idle == SumOf(gaps, long)
  {
    if trace != [] {
      var front, p := trace[..|trace| - 1], trace[|trace| - 1].packet;
      var s, c := Where(front, keep, value), ClockAfter(cfg, front);
      hide *;
      FrontOfTimed(trace);
      ActiveAndIdle(cfg, start, front, keep, value, f, short, long);
      TotalsAfter(cfg, start, trace);
      SeenBefore(cfg, front);
      TimesAre(front, keep, value);
      TimeAt(keep, value, p);
      WhereAfter(trace, keep, value);
      TimeGoesOn(cfg, Run(cfg, start, front).totals, c, p, s, f, short, long);
    } else {
      NoTime(cfg, start, trace, keep, value);
      NothingBetween(f, short);
      NothingBetween(f, long);
    }
  }

  lemma SumGrows(s: seq<int>, x: int, f: (int, int) -> int, keep: int -> bool)
    ensures SumOf(Between(s + [x], f), keep) ==
            SumOf(Between(s, f), keep) +
            if s == [] then 0 else if keep(f(x, s[|s| - 1])) then f(x, s[|s| - 1]) else 0
  {
    BetweenOneMore(s, x, f);
    NothingBetween(f, keep);
    if s != [] {
      SumOfOneMore(Between(s, f), f(x, s[|s| - 1]), keep);
    }
    hide Between, SumOf;
  }

  ghost predicate AllTimes(keep: Packet -> bool, value: Packet -> int)
  {
    forall p :: keep(p) && value(p) == p.ts
  }

  lemma TimeAt(keep: Packet -> bool, value: Packet -> int, p: Packet)
    requires AllTimes(keep, value)
    ensures keep(p) && value(p) == p.ts
  {
  }

  ghost predicate Splits(cfg: Config, short: int -> bool, long: int -> bool)
  {
    forall g :: && short(g) == (cfg.iatActive && g <= cfg.activeThresholdUs)
                && long(g) == (cfg.iatActive && g > cfg.activeThresholdUs)
  }

  lemma NothingBetween(f: (int, int) -> int, keep: int -> bool)
    ensures Between([], f) == [] && SumOf([], keep) == 0
  {
  }

  lemma NoTime(cfg: Config, start: Level, none: seq<Event>, keep: Packet -> bool, value: Packet -> int)
    requires none == []
    ensures Run(cfg, start, none).totals.active == Run(cfg, start, none).totals.idle == 0 && Where(none, keep, value) == []
  {
  }

  lemma TimeGoesOn(cfg: Config, t: Totals, c: Clock, p: Packet, s: seq<int>, f: (int, int) -> int, short: int -> bool,
                   long: int -> bool)
    requires IsDifference(f) && Splits(cfg, short, long)
    requires if s == [] then c.lastArrival == 0 else c.lastArrival == s[|s| - 1] > 0
    requires t.active == SumOf(Between(s, f), short) && t.idle == SumOf(Between(s, f), long)
    ensures var t', gaps := ActiveStep(cfg, CountersStep(t, p), c, p), Between(s + [p.ts], f);
            t'.active == SumOf(gaps, short) && t'.idle == SumOf(gaps, long)
  {
    hide *;
    ActiveTotals(cfg, t, c, p, f, short, long);
    SumGrows(s, p.ts, f, short);
    SumGrows(s, p.ts, f, long);
  }

  lemma ActiveTotals(cfg: Config, t: Totals, c: Clock, p: Packet, f: (int, int) -> int, short: int -> bool, long: int -> bool)
    requires IsDifference(f) && Splits(cfg, short, long)
    ensures var t' := ActiveStep(cfg, CountersStep(t, p), c, p);
            var gap := f(p.ts, c.lastArrival);
            && t'.active == t.active + (if c.lastArrival > 0 && short(gap) then gap else 0)
            && t'.idle == t.idle + (if c.lastArrival > 0 && long(gap) then gap else 0)
  {
    assert f(p.ts, c.lastArrival) == (p.ts - c.lastArrival) % 0x1_0000_0000_0000_0000;
  }

  lemma SumOfOneMore(s: seq<int>, x: int, keep: int -> bool)
    ensures SumOf(s + [x], keep) == SumOf(s, keep) + if keep(x) then x else 0
  {
    assert (s + [x])[..|s|] == s;
  }

  lemma {:induction false} TimesAre(trace: seq<Event>, keep: Packet -> bool, value: Packet -> int)
    requires AllTimes(keep, value)
    ensures var s := Where(trace, keep, value);
            |s| == |trace| && (trace != [] ==> s[|s| - 1] == trace[|trace| - 1].packet.ts)
  {
    if trace != [] {
      TimesAre(trace[..|trace| - 1], keep, value);
    }
  }

  // --- Windows ---

  /** `keep` and `value` pick the lengths of the packets that are counted in window `w`. */
  ghost predicate LengthsIn(first: nat, sizeMs: nat, w: nat, keep: Packet -> bool, value: Packet -> int)
    requires sizeMs > 0
  {
    forall p :: keep(p) == (Target(first, sizeMs, p.ts) == w) && value(p) == p.len
  }

  lemma LengthIn(first: nat, sizeMs: nat, w: nat, keep: Packet -> bool, value: Packet -> int, p: Packet)
    requires sizeMs > 0 && LengthsIn(first, sizeMs, w, keep, value)
    ensures keep(p) == (Target(first, sizeMs, p.ts) == w) && value(p) == p.len
  {
  }

  lemma {:induction false} HitsAreWhere(sizeMs: nat, trace: seq<Event>, n: nat, w: nat, keep: Packet -> bool,
                                        value: Packet -> int)
    requires sizeMs > 0 && 0 < |trace| && n <= |trace| && LengthsIn(trace[0].packet.ts, sizeMs, w, keep, value)
    ensures var hits, picked := Windows.HitsOf(trace), Where(trace[..n], keep, value);
            && Windows.Hits(sizeMs, hits, n, w, false) == |picked| && Windows.Hits(sizeMs, hits, n, w, true) == Sum(picked)
  {
    if n > 0 {
      HitsAreWhere(sizeMs, trace, n - 1, w, keep, value);
      LengthIn(trace[0].packet.ts, sizeMs, w, keep, value, trace[n - 1].packet);
      hide LengthsIn, Target;
      assert trace[..n][..n - 1] == trace[..n - 1];
      var s := Where(trace[..n - 1], keep, value);
      SumOneMore(s, trace[n - 1].packet.len);
    }
  }

  lemma SumOneMore(s: seq<int>, x: int)
    ensures Sum(s + [x]) == Sum(s) + x
  {
    assert (s + [x])[..|s|] == s;
  }

  /** Whichever allocations fail, each of the hundred windows counts the packets whose time since the
      first packet, in 64-bit arithmetic and divided by the window length, has its number in 32 bits. */
  lemma WindowsByPacket(cfg: Config, start: Level, trace: seq<Event>, w: nat)
    requires cfg.window && cfg.windowSizeMs > 0 && Timed(trace) && trace != [] && w < 100
    ensures var first := trace[0].packet.ts;
            var picked := Where(trace, (p: Packet) => (p.ts - first) % 0x1_0000_0000_0000_0000
                                                      / (1000 * cfg.windowSizeMs) % 0x1_0000_0000 == w, (p: Packet) => p.len);
            var f := Run(cfg, start, trace);
            && |f.window.pkts| == |f.window.bytes| == |f.window.bitrate| == 100
            && f.window.pkts[w] == |picked| && f.window.bytes[w] == Sum(picked) && f.window.bitrate[w] == 0
  {
    var first := trace[0].packet.ts;
    var keep := (p: Packet) => (p.ts - first) % 0x1_0000_0000_0000_0000 / (1000 * cfg.windowSizeMs) % 0x1_0000_0000 == w;
    var value := (p: Packet) => p.len;
    forall p: Packet ensures keep(p) == (Target(first, cfg.windowSizeMs, p.ts) == w) && value(p) == p.len {
      Windows.TargetOfTime(cfg.windowSizeMs, first, p.ts);
    }
    CountedWhere(cfg, start, trace, w, keep, value);
  }

  lemma CountedWhere(cfg: Config, start: Level, trace: seq<Event>, w: nat, keep: Packet -> bool, value: Packet -> int)
    requires cfg.window && cfg.windowSizeMs > 0 && Timed(trace) && trace != [] && w < 100
    requires LengthsIn(trace[0].packet.ts, cfg.windowSizeMs, w, keep, value)
    ensures var picked, f := Where(trace, keep, value), Run(cfg, start, trace);
            && |f.window.pkts| == |f.window.bytes| == |f.window.bitrate| == 100
            && f.window.pkts[w] == |picked| && f.window.bytes[w] == Sum(picked) && f.window.bitrate[w] == 0
  {
    HitsAreWhere(cfg.windowSizeMs, trace, |trace|, w, keep, value);
    assert trace[..|trace|] == trace;
    hide Run, Where, LengthsIn, Windows.Hits, Timed, Sum;
    Windows.FlowWindowsTally(cfg, start, trace);
  }

  /** For times in order, and a flow of less than 2^32 windows: window `w` counts the packets sent from
      `w` to `w + 1` window lengths after the first one. */
  lemma WindowsByTime(cfg: Config, start: Level, trace: seq<Event>, w: nat)
    requires cfg.window && cfg.windowSizeMs > 0 && Timed(trace) && trace != [] && w < 100
    requires forall e <- trace :: trace[0].packet.ts <= e.packet.ts
    requires forall e <- trace :: e.packet.ts < trace[0].packet.ts + 0x1_0000_0000 * (1000 * cfg.windowSizeMs)
    ensures var first, len := trace[0].packet.ts, 1000 * cfg.windowSizeMs;
            var picked := Where(trace, (p: Packet) => first + w * len <= p.ts < first + (w + 1) * len, (p: Packet) => p.len);
            var f := Run(cfg, start, trace);
            && |f.window.pkts| == |f.window.bytes| == 100
            && f.window.pkts[w] == |picked| && f.window.bytes[w] == Sum(picked)
  {
    var first, len := trace[0].packet.ts, 1000 * cfg.windowSizeMs;
    var keep, value := (p: Packet) => first + w * len <= p.ts < first + (w + 1) * len, (p: Packet) => p.len;
    assert LengthsFrom(first, len, w, keep, value);
    hide *;
    TimedWhere(cfg, start, trace, w, keep, value);
  }

  /** `keep` and `value` pick the lengths of the packets of one stretch of time. */
  ghost predicate LengthsFrom(first: nat, len: nat, w: nat, keep: Packet -> bool, value: Packet -> int)
  {
    forall p :: keep(p) == (first + w * len <= p.ts < first + (w + 1) * len) && value(p) == p.len
  }

  lemma LengthFrom(first: nat, len: nat, w: nat, keep: Packet -> bool, value: Packet -> int, p: Packet)
    requires LengthsFrom(first, len, w, keep, value)
    ensures keep(p) == (first + w * len <= p.ts < first + (w + 1) * len) && value(p) == p.len
  {
  }

  lemma TimedWhere(cfg: Config, start: Level, trace: seq<Event>, w: nat, keep: Packet -> bool, value: Packet -> int)
    requires cfg.window && cfg.windowSizeMs > 0 && Timed(trace) && trace != [] && w < 100
    requires forall e <- trace :: trace[0].packet.ts <= e.packet.ts
    requires forall e <- trace :: e.packet.ts < trace[0].packet.ts + 0x1_0000_0000 * (1000 * cfg.windowSizeMs)
    requires LengthsFrom(trace[0].packet.ts, 1000 * cfg.windowSizeMs, w, keep, value)
    ensures var picked, f := Where(trace, keep, value), Run(cfg, start, trace);
            && |f.window.pkts| == |f.window.bytes| == 100
            && f.window.pkts[w] == |picked| && f.window.bytes[w] == Sum(picked)
  {
    var first, size := trace[0].packet.ts, cfg.windowSizeMs;
    var counted := (p: Packet) => Target(first, size, p.ts) == w;
    assert LengthsIn(first, size, w, counted, value) by {
      forall p: Packet ensures value(p) == p.len {
        LengthFrom(first, 1000 * size, w, keep, value, p);
      }
      hide LengthsFrom, Target;
    }
    hide *;
    forall e <- trace ensures keep(e.packet) == counted(e.packet) {
      TimedAt(trace, e);
      LengthIn(first, size, w, counted, value, e.packet);
      LengthFrom(first, 1000 * size, w, keep, value, e.packet);
      InsideIfCounted(first, size, e.packet.ts, w);
    }
    CountedWhere(cfg, start, trace, w, counted, value);
    WhereAgree(trace, keep, counted, value);
  }

  lemma TimedAt(trace: seq<Event>, e: Event)
    requires Timed(trace) && e in trace
    ensures 0 < e.packet.ts < 0x1_0000_0000_0000_0000
  {
  }

  /** The first window starts with the first packet; the current window is one past that of the latest
      packet, for times in order and a flow of less than 2^32 windows. */
  lemma CurrentWindow(cfg: Config, start: Level, trace: seq<Event>)
    requires cfg.window && cfg.windowSizeMs > 0 && Timed(trace) && trace != [] && InTimeOrder(trace)
    requires trace[|trace| - 1].packet.ts < trace[0].packet.ts + 0x1_0000_0000 * (1000 * cfg.windowSizeMs)
    ensures var window, first := Run(cfg, start, trace).window, trace[0].packet.ts;
            && window.start == first
            && window.current == Min((trace[|trace| - 1].packet.ts - first) / (1000 * cfg.windowSizeMs) + 1, 100)
  {
    hide *;
    WindowIsConsistent(cfg, start, trace);
    var hits := Windows.HitsOf(trace);
    HitTimes(trace);
    Windows.ReachInOrder(cfg.windowSizeMs, hits, |trace|);
    Windows.FlowWindowsTally(cfg, start, trace);
    TalliedCurrent(Run(cfg, start, trace).window, cfg.windowSizeMs, hits, |trace|);
  }

  lemma WindowIsConsistent(cfg: Config, start: Level, trace: seq<Event>)
    ensures WindowSpec.Consistent(Run(cfg, start, trace).window)
  {
    assert WellFormed(Run(cfg, start, trace));
  }

  lemma HitTimes(trace: seq<Event>)
    requires Timed(trace) && InTimeOrder(trace) && trace != []
    ensures var hits := Windows.HitsOf(trace);
            && |hits| == |trace| && hits[0].ts == trace[0].packet.ts && hits[|trace| - 1].ts == trace[|trace| - 1].packet.ts
            && (forall i, j :: 0 <= i < j < |hits| ==> hits[i].ts <= hits[j].ts)
            && trace[|trace| - 1].packet.ts < 0x1_0000_0000_0000_0000
  {
    assert trace[|trace| - 1] in trace;
  }

  lemma TalliedCurrent(w: Window, sizeMs: nat, hits: seq<Windows.Hit>, n: nat)
    requires sizeMs > 0 && 0 < n <= |hits| && WindowSpec.Consistent(w) && Windows.Tallies(w, NUM_WINDOWS, sizeMs, hits, n)
    ensures w.start == hits[0].ts && w.current == Min(Windows.Reach(sizeMs, hits, n), 100)
  {
    hide Windows.Reach, Windows.Hits;
  }

  lemma InsideIfCounted(first: nat, sizeMs: nat, ts: nat, w: nat)
    requires sizeMs > 0 && first <= ts < first + 0x1_0000_0000 * (1000 * sizeMs) && ts < 0x1_0000_0000_0000_0000
    ensures Target(first, sizeMs, ts) == w <==> first + w * (1000 * sizeMs) <= ts < first + (w + 1) * (1000 * sizeMs)
  {
    hide Target;
    Windows.TargetOfTime(sizeMs, first, ts);
    Windows.OnlyWindow(ts - first, 1000 * sizeMs, w);
  }

  lemma {:induction false} WhereAgree(trace: seq<Event>, keep: Packet -> bool, also: Packet -> bool, value: Packet -> int)
    requires forall e <- trace :: keep(e.packet) == also(e.packet)
    ensures Where(trace, keep, value) == Where(trace, also, value)
  {
    if trace != [] {
      assert trace[|trace| - 1] in trace;
      WhereAgree(trace[..|trace| - 1], keep, also, value);
    }
  }

  // --- What is switched off ---

  /** Detectors that the configuration switches off record nothing. */
  lemma {:induction false} SwitchedOff(cfg: Config, start: Level, trace: seq<Event>)
    ensures var f := Run(cfg, start, trace);
            && (!cfg.burst ==> f.burst == Burst(0, 0, 0, [], [], [], []))
            && (!cfg.response ==> f.resp == Response(0, []))
            && (!cfg.window ==> f.window.start == f.window.current == 0 && |f.window.pkts| == 100
                                && forall w :: 0 <= w < 100 ==>
                                     f.window.pkts[w] == f.window.bytes[w] == f.window.bitrate[w] == 0)
  {
    if trace != [] {
      SwitchedOff(cfg, start, trace[..|trace| - 1]);
    }
  }
}
