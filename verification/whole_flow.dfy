/** Whole flows as they are kept in memory: the promises of tiered memory, read back from the bytes. */
module WholeFlow {
  import opened Common
  import opened Layout
  import opened FlowSpec
  import opened FlowState
  import opened Tiering
  import opened Recordings

  /** A flow's life up to some packet: its state is set up, and every packet goes through the data
      branch.  The state then stands for the run. */
  method Live(cfg: Config, start: Level, trace: seq<Event>) returns (s: FlowFeatureState)
    ensures fresh(s) && s.Valid() && s.AsFlow() == Run(cfg, start, trace)
  {
    hide *;
    s := new FlowFeatureState();
    var rc := s.Init(start, true);
    NoPackets(cfg, start, trace[..0]);
    var i := 0;
    while i < |trace|
      invariant 0 <= i <= |trace|
      invariant fresh(s) && fresh(s.pool) && fresh(s.pool.dynamicMem) && fresh(s.rings)
      invariant s.Valid() && s.AsFlow() == Run(cfg, start, trace[..i])
    {
      s.Data(cfg, trace[i].packet, trace[i].grants);
      OneMorePacket(cfg, start, trace, i);
      i := i + 1;
    }
    assert trace[..i] == trace;
  }

  lemma NoPackets(cfg: Config, start: Level, none: seq<Event>)
    requires none == []
    ensures Run(cfg, start, none) == NewFlow(start)
  {
  }

  lemma OneMorePacket(cfg: Config, start: Level, trace: seq<Event>, i: nat)
    requires i < |trace|
    ensures WellFormed(Run(cfg, start, trace[..i]))
    ensures Run(cfg, start, trace[..i + 1]) ==
            DataStep(cfg, Run(cfg, start, trace[..i]), trace[i].packet, trace[i].grants)
  {
    assert trace[..i + 1][..i] == trace[..i];
  }

  /** Two states that have seen the same packets, one grown from level `start` and one at the largest
      level from the start, give the same answer to every read of a ring, if allocations succeeded. */
  method ReadRingOfBoth(s: FlowFeatureState, t: FlowFeatureState, ghost cfg: Config, ghost start: Level,
                        ghost trace: seq<Event>, i: nat, index: nat)
    returns (v: Option<int>, w: Option<int>)
    requires s.Valid() && t.Valid() && AllocationsSucceed(trace) && i < RINGS
    requires s.AsFlow() == Run(cfg, start, trace) && t.AsFlow() == Run(cfg, LARGE, trace)
    ensures v == w
    ensures var history := Pushes(cfg, trace, i);
            var held := Min(|history|, 5000);
            v == if index < held then Some(history[|history| - held + index]) else None
  {
    hide *;
    SeenAlike(cfg, start, trace);
    RingsHoldTheLatest5000(cfg, start, trace, i);
    LatestElement(Pushes(cfg, trace, i), Min(|Pushes(cfg, trace, i)|, 5000), index);
    v := s.ReadRing(i, index);
    w := t.ReadRing(i, index);
  }

  /** The same for the per-direction arrays. */
  method ReadListOfBoth(s: FlowFeatureState, t: FlowFeatureState, ghost cfg: Config, ghost start: Level,
                        ghost trace: seq<Event>, r: nat, k: nat)
    returns (v: Option<int>, w: Option<int>)
    requires s.Valid() && t.Valid() && AllocationsSucceed(trace) && r < DIR_LISTS
    requires s.AsFlow() == Run(cfg, start, trace) && t.AsFlow() == Run(cfg, LARGE, trace)
    ensures v == w
    ensures var history := Offers(cfg, trace, r);
            v == if k < Min(|history|, 5000) then Some(history[k]) else None
  {
    hide *;
    SeenAlike(cfg, start, trace);
    ArraysHoldTheFirst5000(cfg, start, trace, r);
    v := s.ReadList(r, k);
    w := t.ReadList(r, k);
  }

  /** What the bytes of the two length arrays say of the packets: the lengths of the first 5000 packets
      of the direction. */
  method ReadDirectionLength(s: FlowFeatureState, ghost cfg: Config, ghost start: Level, ghost trace: seq<Event>,
                             forward: bool, k: nat) returns (v: Option<int>)
    requires s.Valid() && AllocationsSucceed(trace) && s.AsFlow() == Run(cfg, start, trace)
    ensures var lens := Where(trace, (p: Packet) => cfg.needDirLens && p.dir == (if forward then Fwd else Bwd),
                              (p: Packet) => p.len);
            v == if k < |lens| && k < 5000 then Some(lens[k]) else None
  {
    var r := if forward then FWD_PKT_LENS else BWD_PKT_LENS;
    LengthArray(cfg, start, trace, forward, r);
    hide *;
    v := s.ReadList(r, k);
  }

  lemma LengthArray(cfg: Config, start: Level, trace: seq<Event>, forward: bool, r: nat)
    requires AllocationsSucceed(trace) && r == if forward then FWD_PKT_LENS else BWD_PKT_LENS
    ensures var lens := Where(trace, (p: Packet) => cfg.needDirLens && p.dir == (if forward then Fwd else Bwd),
                              (p: Packet) => p.len);
            var list := Run(cfg, start, trace).lists[r];
            |list| == Min(|lens|, 5000) && forall k: nat :: k < |list| ==> list[k] == lens[k]
  {
    ArraysByPacket(cfg, start, trace);
    hide Run, AllocationsSucceed;
    if forward {
      WhereAgree(trace, (p: Packet) => cfg.needDirLens && p.dir == Fwd,
                 (p: Packet) => cfg.needDirLens && p.dir == (if forward then Fwd else Bwd), (p: Packet) => p.len);
    } else {
      WhereAgree(trace, (p: Packet) => cfg.needDirLens && p.dir == Bwd,
                 (p: Packet) => cfg.needDirLens && p.dir == (if forward then Fwd else Bwd), (p: Packet) => p.len);
    }
    hide Where;
  }

  lemma LatestElement(history: seq<int>, held: nat, index: nat)
    requires held <= |history|
    ensures |Latest(history, held)| == held
    ensures index < held ==> Latest(history, held)[index] == history[|history| - held + index]
  {
  }

  /** Both flows, lived side by side: a consumer who reads a ring and an array cannot tell them apart. */
  method LiveTwice(cfg: Config, start: Level, trace: seq<Event>, i: nat, index: nat, r: nat, k: nat)
    returns (ringSmall: Option<int>, ringLarge: Option<int>, listSmall: Option<int>, listLarge: Option<int>)
    requires AllocationsSucceed(trace) && i < RINGS && r < DIR_LISTS
    ensures ringSmall == ringLarge && listSmall == listLarge
  {
    hide *;
    var s := Live(cfg, start, trace);
    var t := Live(cfg, LARGE, trace);
    ringSmall, ringLarge := ReadRingOfBoth(s, t, cfg, start, trace, i, index);
    listSmall, listLarge := ReadListOfBoth(s, t, cfg, start, trace, r, k);
  }
}
