/** Whole runs of a flow: consumers cannot tell which memory levels it went through. */
module Tiering {
  import opened Common
  import opened Words
  import opened Layout
  import opened MemoryPool
  import opened CircularBuffers
  import opened BurstSpec
  import opened WindowSpec
  import opened FlowSpec

  /** A packet, and which allocations succeed if it triggers an upgrade. */
  datatype Event = Event(packet: Packet, grants: Grants)

  function Run(cfg: Config, start: Level, trace: seq<Event>): (f: Flow)
    ensures WellFormed(f)
  {
    if trace == [] then NewFlow(start)
    else
      var last := trace[|trace| - 1];
      DataStep(cfg, Run(cfg, start, trace[..|trace| - 1]), last.packet, last.grants)
  }

  predicate AllocationsSucceed(trace: seq<Event>)
  {
    forall e <- trace :: e.grants == ALL_GRANTED
  }

  predicate Timed(trace: seq<Event>)
  {
    forall e <- trace :: 0 < e.packet.ts < TWO64
  }

  predicate InTimeOrder(trace: seq<Event>)
  {
    forall i, j :: 0 <= i < j < |trace| ==> trace[i].packet.ts <= trace[j].packet.ts
  }

  /** Everything consumers can see of a flow: all but the memory level and its packet count. */
  function Observable(f: Flow): Flow
  {
    f.(level := LARGE, checked := 0)
  }

  // --- Bounds on what is stored ---

  predicate NoLonger(s: seq<seq<int>>, n: nat)
  {
    forall x <- s :: |x| <= n
  }

  /** Nothing in the flow has more than `n` elements. */
  predicate Small(f: Flow, n: nat)
  {
    NoLonger(f.lists, n) && NoLonger(f.views, n) && |f.burst.sizes| <= n && |f.resp.delays| <= n
  }

  lemma StepKeepsSmall(cfg: Config, f: Flow, p: Packet, grants: Grants, n: nat)
    requires WellFormed(f) && Small(f, n)
    ensures Small(DataStep(cfg, f, p, grants), n + 1)
  {
    var f' := DataStep(cfg, f, p, grants);
    assert |f'.burst.sizes| <= n + 1 && |f'.resp.delays| <= n + 1;
    var carried := Carried(f.views, f'.level != f.level, grants.unsaved);
    assert f'.lists == AllAppended(cfg, f.clock, p, SeqLen(f'.level), f.lists);
    assert f'.views == AllKept(cfg, f.clock, p, SeqLen(f'.level), carried);
    hide DataStep, AllAppended, AllKept, Carried, NoLonger;
    AppendedSmall(cfg, f.clock, p, SeqLen(f'.level), f.lists, n);
    CarriedSmall(f.views, f'.level != f.level, grants.unsaved, n);
    KeptSmall(cfg, f.clock, p, SeqLen(f'.level), carried, n);
  }

  lemma AppendedSmall(cfg: Config, c: Clock, p: Packet, capacity: nat, lists: seq<seq<int>>, n: nat)
    requires |lists| == DIR_LISTS && NoLonger(lists, n)
    ensures NoLonger(AllAppended(cfg, c, p, capacity, lists), n + 1)
  {
    hide ListInput;
    forall r | 0 <= r < DIR_LISTS ensures |AllAppended(cfg, c, p, capacity, lists)[r]| <= n + 1 {
      assert lists[r] in lists;
    }
  }

  lemma CarriedSmall(views: seq<seq<int>>, upgraded: bool, unsaved: set<nat>, n: nat)
    requires |views| == RINGS && NoLonger(views, n)
    ensures NoLonger(Carried(views, upgraded, unsaved), n)
  {
    forall i | 0 <= i < RINGS ensures |Carried(views, upgraded, unsaved)[i]| <= n {
      assert views[i] in views;
    }
  }

  lemma KeptSmall(cfg: Config, c: Clock, p: Packet, capacity: nat, views: seq<seq<int>>, n: nat)
    requires |views| == RINGS && NoLonger(views, n)
    ensures NoLonger(AllKept(cfg, c, p, capacity, views), n + 1)
  {
    hide RingInput;
    forall i | 0 <= i < RINGS ensures |AllKept(cfg, c, p, capacity, views)[i]| <= n + 1 {
      assert views[i] in views;
    }
  }

  /** Below LARGE the pool has counted every packet, and is not yet four fifths full. */
  predicate Roomy(f: Flow, n: nat)
  {
    f.level == LARGE || (f.checked == n && n < Threshold(f.level))
  }

  lemma StepKeepsRoomy(cfg: Config, f: Flow, p: Packet, n: nat)
    requires WellFormed(f) && Roomy(f, n)
    ensures Roomy(DataStep(cfg, f, p, ALL_GRANTED), n + 1)
  {
  }

  /** If allocations succeed, every array and ring keeps room to spare below LARGE: none is even four
      fifths full. */
  lemma {:induction false} NeverFullBelowLarge(cfg: Config, start: Level, trace: seq<Event>)
    requires AllocationsSucceed(trace)
    ensures var f := Run(cfg, start, trace);
            && Roomy(f, |trace|) && Small(f, |trace|)
            && (f.level != LARGE ==> && |trace| < Threshold(f.level) && Small(f, Threshold(f.level) - 1)
                                     && Threshold(f.level) * 10 <= SeqLen(f.level) * 8)
  {
    if trace != [] {
      var front, last := trace[..|trace| - 1], trace[|trace| - 1];
      assert last in trace && AllocationsSucceed(front);
      NeverFullBelowLarge(cfg, start, front);
      StepKeepsSmall(cfg, Run(cfg, start, front), last.packet, last.grants, |front|);
      StepKeepsRoomy(cfg, Run(cfg, start, front), last.packet, |front|);
    }
    SmallGrows(Run(cfg, start, trace), |trace|);
  }

  lemma SmallGrows(f: Flow, n: nat)
    requires Small(f, n)
    ensures forall m :: m >= n ==> Small(f, m)
  {
  }

  // --- Tiering is a refinement ---

  /** Two flows that look alike still do after a packet, if neither runs out of room or both have the
      same memory, and every ring is saved. */
  lemma StepAgrees(cfg: Config, f: Flow, g: Flow, p: Packet, okF: bool, okG: bool, n: nat)
    requires WellFormed(f) && WellFormed(g) && Observable(f) == Observable(g) && Small(f, n)
    requires var lf, lg := LevelStep(f.level, f.checked, okF), LevelStep(g.level, g.checked, okG);
             lf == lg || (n < SeqLen(lf) && n < SeqLen(lg))
    ensures Observable(DataStep(cfg, f, p, Grants(okF, {}))) == Observable(DataStep(cfg, g, p, Grants(okG, {})))
  {
    hide *;
    var lf, lg := LevelStep(f.level, f.checked, okF), LevelStep(g.level, g.checked, okG);
    SmallParts(f, n);
    SameParts(f, g);
    NothingLost(f.views, lf != f.level, {});
    NothingLost(g.views, lg != g.level, {});
    EntriesAgree(cfg, f.clock, p, SeqLen(lf), SeqLen(lg), f.lists, f.views, n);
    BurstsAgree(f.burst, SeqLen(lf), SeqLen(lg), cfg.burstThresholdUs, p.len, Gap(f.clock, p), p.ts);
    StepLooks(cfg, f, p, Grants(okF, {}));
    StepLooks(cfg, g, p, Grants(okG, {}));
  }

  lemma StepLooks(cfg: Config, f: Flow, p: Packet, grants: Grants)
    requires WellFormed(f)
    ensures var level := LevelStep(f.level, f.checked, grants.pool);
            var capacity := SeqLen(level);
            Observable(DataStep(cfg, f, p, grants)) ==
            Flow(LARGE, 0, ClockStep(cfg, f.clock, p), ActiveStep(cfg, CountersStep(f.totals, p), f.clock, p),
                 AllAppended(cfg, f.clock, p, capacity, f.lists),
                 AllKept(cfg, f.clock, p, capacity, Carried(f.views, level != f.level, grants.unsaved)),
                 if cfg.burst then BurstStep(f.burst, capacity, cfg.burstThresholdUs, p.len, Gap(f.clock, p), p.ts) else f.burst,
                 if cfg.window then WindowStep(f.window, cfg.windowSizeMs, p.len, p.ts) else f.window,
                 if cfg.response then ResponseStep(f.resp, RESP_CAPACITY, p.dir, p.ts) else f.resp)
  {
  }

  lemma SmallParts(f: Flow, n: nat)
    requires WellFormed(f) && Small(f, n)
    ensures |f.lists| == DIR_LISTS && |f.views| == RINGS && NoLonger(f.lists, n) && NoLonger(f.views, n) && |f.burst.sizes| <= n
  {
  }

  lemma BurstsAgree(b: Burst, capF: nat, capG: nat, threshold: nat, len: nat, iat: nat, ts: nat)
    requires capF == capG || (|b.sizes| < capF && |b.sizes| < capG)
    ensures BurstStep(b, capF, threshold, len, iat, ts) == BurstStep(b, capG, threshold, len, iat, ts)
  {
  }

  lemma EntriesAgree(cfg: Config, c: Clock, p: Packet, capF: nat, capG: nat, lists: seq<seq<int>>, views: seq<seq<int>>, n: nat)
    requires |lists| == DIR_LISTS && |views| == RINGS && NoLonger(lists, n) && NoLonger(views, n)
    requires capF == capG || (n < capF && n < capG)
    ensures AllAppended(cfg, c, p, capF, lists) == AllAppended(cfg, c, p, capG, lists)
    ensures AllKept(cfg, c, p, capF, views) == AllKept(cfg, c, p, capG, views)
  {
    forall r: nat | r < DIR_LISTS
      ensures AllAppended(cfg, c, p, capF, lists)[r] == AllAppended(cfg, c, p, capG, lists)[r]
    {
      assert lists[r] in lists;
    }
    forall i: nat | i < RINGS ensures AllKept(cfg, c, p, capF, views)[i] == AllKept(cfg, c, p, capG, views)[i] {
      assert views[i] in views;
    }
  }

  /** The central promise of tiered memory: while allocations succeed, a flow looks after every packet
      exactly as if it had had the largest pool from the start. */
  lemma {:induction false} TieringIsInvisible(cfg: Config, start: Level, trace: seq<Event>)
    requires AllocationsSucceed(trace)
    ensures Observable(Run(cfg, start, trace)) == Observable(Run(cfg, LARGE, trace))
  {
    hide *;
    if trace == [] {
      NewFlowsLookAlike(cfg, start, trace);
    } else {
      var front, last := trace[..|trace| - 1], trace[|trace| - 1];
      AllGranted();
      AllocationsSucceeded(trace);
      TieringIsInvisible(cfg, start, front);
      var f, g := Run(cfg, start, front), Run(cfg, LARGE, front);
      NeverFullBelowLarge(cfg, start, front);
      RunAfter(cfg, start, trace);
      RunAfter(cfg, LARGE, trace);
      RoomLeft(f, |front|);
      LargeIsLast(g.checked);
      LargeStaysLarge(cfg, front);
      StepAgrees(cfg, f, g, last.packet, true, true, |front|);
    }
  }

  lemma RunAfter(cfg: Config, start: Level, trace: seq<Event>)
    requires trace != []
    ensures var front, last := trace[..|trace| - 1], trace[|trace| - 1];
            Run(cfg, start, trace) == DataStep(cfg, Run(cfg, start, front), last.packet, last.grants)
  {
  }

  lemma NewFlowsLookAlike(cfg: Config, start: Level, none: seq<Event>)
    requires none == []
    ensures Observable(Run(cfg, start, none)) == Observable(Run(cfg, LARGE, none))
  {
  }

  lemma AllGranted()
    ensures ALL_GRANTED == Grants(true, {})
  {
  }

  lemma AllocationsSucceeded(trace: seq<Event>)
    requires trace != [] && AllocationsSucceed(trace)
    ensures AllocationsSucceed(trace[..|trace| - 1]) && trace[|trace| - 1].grants == ALL_GRANTED
  {
    assert trace[|trace| - 1] in trace;
  }

  /** A flow that is not yet full has room for a packet, after the upgrade check. */
  lemma RoomLeft(f: Flow, n: nat)
    requires Roomy(f, n)
    ensures var level := LevelStep(f.level, f.checked, true); level == LARGE || n < SeqLen(level)
    ensures n < SeqLen(LARGE) || LevelStep(f.level, f.checked, true) == LARGE
  {
  }

  lemma LargeIsLast(checked: nat)
    ensures LevelStep(LARGE, checked, true) == LARGE
  {
  }

  lemma {:induction false} LargeStaysLarge(cfg: Config, trace: seq<Event>)
    ensures Run(cfg, LARGE, trace).level == LARGE
  {
    if trace != [] {
      LargeStaysLarge(cfg, trace[..|trace| - 1]);
    }
  }

  /** Whether a statistic over `count` values fits the scratch space, and is computed at all. */
  predicate Fits(f: Flow, count: nat)
  {
    count <= TempLen(f.level)
  }

  lemma FitAlike(cfg: Config, start: Level, trace: seq<Event>, count: nat)
    requires AllocationsSucceed(trace) && count <= |trace|
    ensures Fits(Run(cfg, start, trace), count) <==> count <= 512
    ensures Fits(Run(cfg, LARGE, trace), count) <==> count <= 512
  {
    hide *;
    NeverFullBelowLarge(cfg, start, trace);
    NeverFullBelowLarge(cfg, LARGE, trace);
    FitAtAnyLevel(Run(cfg, start, trace), |trace|, count);
    FitAtAnyLevel(Run(cfg, LARGE, trace), |trace|, count);
  }

  /** The scratch space is smaller than 512 only where the packets so far fit it anyway. */
  lemma FitAtAnyLevel(f: Flow, n: nat, count: nat)
    requires Roomy(f, n) && count <= n
    ensures Fits(f, count) <==> count <= 512
  {
  }

  lemma CountsFromPackets(f: Flow, n: nat)
    requires WellFormed(f) && Small(f, n)
    ensures forall r: nat :: r < DIR_LISTS ==> |f.lists[r]| <= n
    ensures forall i: nat :: i < RINGS ==> |f.views[i]| <= n
    ensures |f.burst.sizes| <= n && |f.resp.delays| <= n
  {
  }

  /** A count that both flows have, and that fits the scratch space of each if it is at most 512. */
  predicate GateAlike(f: Flow, g: Flow, count: nat, count': nat)
  {
    count == count' && (Fits(f, count) <==> count <= 512) && (Fits(g, count) <==> count <= 512)
  }

  /** The same statistics are computed: the count of every array and ring is what it would be at the
      largest level, and fits the scratch space exactly if it is at most 512. */
  lemma GatesAgree(cfg: Config, start: Level, trace: seq<Event>)
    requires AllocationsSucceed(trace)
    ensures var f, g := Run(cfg, start, trace), Run(cfg, LARGE, trace);
            && (forall r: nat :: r < DIR_LISTS ==> GateAlike(f, g, |f.lists[r]|, |g.lists[r]|))
            && (forall i: nat :: i < RINGS ==> GateAlike(f, g, |f.views[i]|, |g.views[i]|))
            && GateAlike(f, g, |f.burst.sizes|, |g.burst.sizes|) && GateAlike(f, g, |f.resp.delays|, |g.resp.delays|)
  {
    var f, g := Run(cfg, start, trace), Run(cfg, LARGE, trace);
    SeenAlike(cfg, start, trace);
    NeverFullBelowLarge(cfg, start, trace);
    CountsFromPackets(f, |trace|);
    hide Run, Fits, Small, Roomy, AllocationsSucceed;
    forall r: nat | r < DIR_LISTS ensures GateAlike(f, g, |f.lists[r]|, |g.lists[r]|) {
      FitAlike(cfg, start, trace, |f.lists[r]|);
    }
    forall i: nat | i < RINGS ensures GateAlike(f, g, |f.views[i]|, |g.views[i]|) {
      FitAlike(cfg, start, trace, |f.views[i]|);
    }
    FitAlike(cfg, start, trace, |f.burst.sizes|);
    FitAlike(cfg, start, trace, |f.resp.delays|);
  }

  /** When flows grow, if allocations succeed. */
  lemma {:induction false} LevelByPackets(cfg: Config, trace: seq<Event>)
    requires AllocationsSucceed(trace)
    ensures Run(cfg, TINY, trace).level ==
            if |trace| < 51 then TINY else if |trace| < 204 then SMALL else if |trace| < 800 then MEDIUM else LARGE
  {
    if trace != [] {
      var front, last := trace[..|trace| - 1], trace[|trace| - 1];
      assert last in trace && AllocationsSucceed(front);
      LevelByPackets(cfg, front);
      NeverFullBelowLarge(cfg, TINY, front);
    }
  }

  /** Below the largest level every packet has been counted, as far as 32 bits go. */
  lemma {:induction false} CheckedIsPackets(cfg: Config, start: Level, trace: seq<Event>)
    ensures var f := Run(cfg, start, trace); f.level != LARGE ==> f.checked == Min(|trace|, 0xFFFF_FFFF)
  {
    if trace != [] {
      CheckedIsPackets(cfg, start, trace[..|trace| - 1]);
    }
  }

  /** Whichever allocations fail, a packet raises the level, by one, if and only if the flow has as many
      packets as its level takes and the larger pool gets its memory; so what was refused is tried again
      with every packet. */
  lemma LevelRises(cfg: Config, start: Level, trace: seq<Event>)
    requires trace != []
    ensures var before, after := Run(cfg, start, trace[..|trace| - 1]).level, Run(cfg, start, trace).level;
            var n, granted := |trace|, trace[|trace| - 1].grants.pool;
            && (before == TINY ==> after == if n >= 51 && granted then SMALL else TINY)
            && (before == SMALL ==> after == if n >= 204 && granted then MEDIUM else SMALL)
            && (before == MEDIUM ==> after == if n >= 800 && granted then LARGE else MEDIUM)
            && (before == LARGE ==> after == LARGE)
  {
    hide *;
    var front := trace[..|trace| - 1];
    CheckedIsPackets(cfg, start, front);
    LevelAfter(cfg, start, trace);
    LevelStepAt(Run(cfg, start, front), |front|, trace[|trace| - 1].grants.pool);
  }

  lemma LevelAfter(cfg: Config, start: Level, trace: seq<Event>)
    requires trace != []
    ensures var f := Run(cfg, start, trace[..|trace| - 1]);
            Run(cfg, start, trace).level == LevelStep(f.level, f.checked, trace[|trace| - 1].grants.pool)
  {
  }

  lemma LevelStepAt(f: Flow, n: nat, granted: bool)
    requires f.level != LARGE ==> f.checked == Min(n, 0xFFFF_FFFF)
    ensures LevelStep(f.level, f.checked, granted) ==
            if !granted then f.level
            else if f.level == TINY then (if n + 1 >= 51 then SMALL else TINY)
            else if f.level == SMALL then (if n + 1 >= 204 then MEDIUM else SMALL)
            else if f.level == MEDIUM then (if n + 1 >= 800 then LARGE else MEDIUM)
            else LARGE
  {
  }

  // --- What the rings hold, whatever allocations do ---

  function ClockAfter(cfg: Config, trace: seq<Event>): Clock
  {
    if trace == [] then Clock(0, 0, 0, false, 0)
    else ClockStep(cfg, ClockAfter(cfg, trace[..|trace| - 1]), trace[|trace| - 1].packet)
  }

  /** Everything ever pushed to ring `i`. */
  function Pushes(cfg: Config, trace: seq<Event>, i: nat): seq<int>
    requires i < RINGS
  {
    if trace == [] then []
    else
      var front, last := trace[..|trace| - 1], trace[|trace| - 1];
      Noted(Pushes(cfg, front, i), RingInput(cfg, ClockAfter(cfg, front), last.packet, i))
  }

  /** The upgrade at the last packet did not save ring `i`. */
  predicate Lost(cfg: Config, start: Level, trace: seq<Event>, i: nat)
  {
    && trace != [] && i in trace[|trace| - 1].grants.unsaved
    && Run(cfg, start, trace).level != Run(cfg, start, trace[..|trace| - 1]).level
  }

  /** What was pushed to ring `i` since an upgrade last failed to save it. */
  function Remembered(cfg: Config, start: Level, trace: seq<Event>, i: nat): seq<int>
    requires i < RINGS
  {
    if trace == [] then []
    else
      var front, last := trace[..|trace| - 1], trace[|trace| - 1];
      Noted(if Lost(cfg, start, trace, i) then [] else Remembered(cfg, start, front, i),
            RingInput(cfg, ClockAfter(cfg, front), last.packet, i))
  }

  /** Every upgrade would save ring `i`. */
  predicate Saved(trace: seq<Event>, i: nat)
  {
    forall e <- trace :: i !in e.grants.unsaved
  }

  /** Every upgrade would save both rings or neither. */
  predicate SavedTogether(trace: seq<Event>, i: nat, j: nat)
  {
    forall e <- trace :: i in e.grants.unsaved <==> j in e.grants.unsaved
  }

  /** Everything ever offered to per-direction array `r`. */
  function Offers(cfg: Config, trace: seq<Event>, r: nat): seq<int>
    requires r < DIR_LISTS
  {
    if trace == [] then []
    else
      var front, last := trace[..|trace| - 1], trace[|trace| - 1];
      Noted(Offers(cfg, front, r), ListInput(cfg, ClockAfter(cfg, front), last.packet, r))
  }

  function Noted(history: seq<int>, x: Option<int>): seq<int>
  {
    if x.Some? then history + [x.value] else history
  }

  /** The last `n` elements. */
  function Latest(s: seq<int>, n: nat): seq<int>
    requires n <= |s|
  {
    s[|s| - n..]
  }

  lemma {:induction false} ClockOfRun(cfg: Config, start: Level, trace: seq<Event>)
    ensures Run(cfg, start, trace).clock == ClockAfter(cfg, trace)
  {
    if trace != [] {
      ClockOfRun(cfg, start, trace[..|trace| - 1]);
    }
  }

  lemma {:induction false} LevelNeverFalls(cfg: Config, start: Level, trace: seq<Event>)
    ensures Rank(start) <= Rank(Run(cfg, start, trace).level)
  {
    if trace != [] {
      LevelNeverFalls(cfg, start, trace[..|trace| - 1]);
    }
  }

  predicate LatestPart(view: seq<int>, history: seq<int>, atLeast: nat, capacity: nat)
  {
    && Min(|history|, atLeast) <= |view| <= |history| && |view| <= capacity
    && view == Latest(history, |view|)
  }

  lemma KeptIsLatest(view: seq<int>, history: seq<int>, atLeast: nat, before: nat, capacity: nat, x: Option<int>)
    requires 0 < atLeast <= before <= capacity && LatestPart(view, history, atLeast, before)
    ensures LatestPart(Kept(view, capacity, x), Noted(history, x), atLeast, capacity)
  {
    if x.Some? {
      assert Noted(history, x) == history + [x.value];
      assert Kept(view, capacity, x) == Pushed(view, capacity, x.value);
      hide *;
      PushedIsLatest(view, history, atLeast, before, capacity, x.value);
    }
  }

  lemma PushedIsLatest(view: seq<int>, history: seq<int>, atLeast: nat, before: nat, capacity: nat, x: int)
    requires 0 < atLeast <= before <= capacity && LatestPart(view, history, atLeast, before)
    ensures LatestPart(Pushed(view, capacity, x), history + [x], atLeast, capacity)
  {
    var from := |history| - |view|;
    assert history[from..] == view;
    RestOfOneMore(history, x, from);
    if |view| == capacity {
      RestOfOneMore(view, x, 1);
      RestOfRest(history + [x], from, 1);
    }
  }

  lemma ViewAfter(cfg: Config, start: Level, trace: seq<Event>, i: nat)
    requires trace != [] && i < RINGS
    ensures var front := trace[..|trace| - 1];
            var f, f' := Run(cfg, start, front), Run(cfg, start, trace);
            && Rank(f.level) <= Rank(f'.level)
            && f'.views[i] == Kept(if Lost(cfg, start, trace, i) then [] else f.views[i], SeqLen(f'.level),
                                   RingInput(cfg, ClockAfter(cfg, front), trace[|trace| - 1].packet, i))
  {
    ClockOfRun(cfg, start, trace[..|trace| - 1]);
  }

  /** Whichever allocations fail, a ring holds the latest of what was pushed since an upgrade last failed
      to save it, and never fewer than the starting level has slots. */
  lemma {:induction false} RingsHoldTheLatest(cfg: Config, start: Level, trace: seq<Event>, i: nat)
    requires i < RINGS
    ensures var f := Run(cfg, start, trace);
            LatestPart(f.views[i], Remembered(cfg, start, trace, i), SeqLen(start), SeqLen(f.level))
  {
    if trace != [] {
      var front, last := trace[..|trace| - 1], trace[|trace| - 1];
      RememberedAfter(cfg, start, trace, i);
      hide *;
      RingsHoldTheLatest(cfg, start, front, i);
      LevelNeverFalls(cfg, start, front);
      ViewAfter(cfg, start, trace, i);
      var f, f' := Run(cfg, start, front), Run(cfg, start, trace);
      LevelsOrdered(start, f.level);
      LevelsOrdered(f.level, f'.level);
      NothingIsLatest(SeqLen(start), SeqLen(f.level));
      var lost := Lost(cfg, start, trace, i);
      KeptIsLatest(if lost then [] else f.views[i], if lost then [] else Remembered(cfg, start, front, i),
                   SeqLen(start), SeqLen(f.level), SeqLen(f'.level),
                   RingInput(cfg, ClockAfter(cfg, front), last.packet, i));
    }
  }

  lemma RememberedAfter(cfg: Config, start: Level, trace: seq<Event>, i: nat)
    requires trace != [] && i < RINGS
    ensures var front := trace[..|trace| - 1];
            Remembered(cfg, start, trace, i) ==
            Noted(if Lost(cfg, start, trace, i) then [] else Remembered(cfg, start, front, i),
                  RingInput(cfg, ClockAfter(cfg, front), trace[|trace| - 1].packet, i))
  {
  }

  lemma NothingIsLatest(atLeast: nat, capacity: nat)
    ensures LatestPart([], [], atLeast, capacity)
  {
  }

  /** What is remembered are the latest pushes, and all of them if every upgrade saves the ring. */
  lemma {:induction false} RememberedIsLatest(cfg: Config, start: Level, trace: seq<Event>, i: nat)
    requires i < RINGS
    ensures var all, some := Pushes(cfg, trace, i), Remembered(cfg, start, trace, i);
            |some| <= |all| && some == Latest(all, |some|) && (Saved(trace, i) ==> some == all)
  {
    if trace != [] {
      var front, last := trace[..|trace| - 1], trace[|trace| - 1];
      RememberedIsLatest(cfg, start, front, i);
      RememberedAfter(cfg, start, trace, i);
      assert Pushes(cfg, trace, i) == Noted(Pushes(cfg, front, i), RingInput(cfg, ClockAfter(cfg, front), last.packet, i));
      SavedFront(trace, i);
      SavedIsNotLost(cfg, start, trace, i);
      hide *;
      var all, some := Pushes(cfg, front, i), Remembered(cfg, start, front, i);
      NotedIsLatest(all, if Lost(cfg, start, trace, i) then [] else some,
                    RingInput(cfg, ClockAfter(cfg, front), last.packet, i));
    }
  }

  lemma NotedIsLatest(all: seq<int>, some: seq<int>, x: Option<int>)
    requires some == [] || (|some| <= |all| && some == Latest(all, |some|))
    ensures var all', some' := Noted(all, x), Noted(some, x); |some'| <= |all'| && some' == Latest(all', |some'|)
  {
    if x.Some? {
      RestOfOneMore(all, x.value, |all| - |some|);
    }
  }

  lemma SavedFront(trace: seq<Event>, i: nat)
    requires trace != []
    ensures Saved(trace, i) ==> Saved(trace[..|trace| - 1], i) && i !in trace[|trace| - 1].grants.unsaved
  {
    assert trace[|trace| - 1] in trace;
  }

  lemma SavedIsNotLost(cfg: Config, start: Level, trace: seq<Event>, i: nat)
    requires trace != []
    ensures i !in trace[|trace| - 1].grants.unsaved ==> !Lost(cfg, start, trace, i)
  {
  }

  /** However often it was lost, a ring holds the latest of all its pushes. */
  lemma RingIsRecent(cfg: Config, start: Level, trace: seq<Event>, i: nat)
    requires i < RINGS
    ensures var view, all := Run(cfg, start, trace).views[i], Pushes(cfg, trace, i);
            |view| <= |all| && view == Latest(all, |view|)
  {
    var f := Run(cfg, start, trace);
    RingsHoldTheLatest(cfg, start, trace, i);
    RememberedIsLatest(cfg, start, trace, i);
    hide Run, Remembered, Pushes;
    LatestOfLatest(f.views[i], Remembered(cfg, start, trace, i), Pushes(cfg, trace, i));
  }

  lemma LatestOfLatest(view: seq<int>, some: seq<int>, all: seq<int>)
    requires |view| <= |some| <= |all| && some == Latest(all, |some|) && view == Latest(some, |view|)
    ensures view == Latest(all, |view|)
  {
    RestOfRest(all, |all| - |some|, |some| - |view|);
  }

  /** If allocations succeed, a ring holds the latest 5000 of its pushes, or all of them. */
  lemma RingsHoldTheLatest5000(cfg: Config, start: Level, trace: seq<Event>, i: nat)
    requires i < RINGS && AllocationsSucceed(trace)
    ensures var history := Pushes(cfg, trace, i); Run(cfg, start, trace).views[i] == Latest(history, Min(|history|, 5000))
  {
    SeenAlike(cfg, start, trace);
    LargeStaysLarge(cfg, trace);
    RingsHoldTheLatest(cfg, LARGE, trace, i);
    AllGrantedSaves(trace, i);
    RememberedIsLatest(cfg, LARGE, trace, i);
    hide Run, Pushes, Remembered, AllocationsSucceed, LatestPart, Latest;
    AllOrLatest(Run(cfg, start, trace).views[i], Pushes(cfg, trace, i));
  }

  lemma AllGrantedSaves(trace: seq<Event>, i: nat)
    requires AllocationsSucceed(trace)
    ensures Saved(trace, i)
  {
  }

  lemma AllOrLatest(view: seq<int>, history: seq<int>)
    requires LatestPart(view, history, 5000, 5000)
    ensures Min(|history|, 5000) <= |history| && view == Latest(history, Min(|history|, 5000))
  {
  }

  /** What looks alike has the same parts. */
  lemma SeenAlike(cfg: Config, start: Level, trace: seq<Event>)
    requires AllocationsSucceed(trace)
    ensures var f, g := Run(cfg, start, trace), Run(cfg, LARGE, trace);
            && f.clock == g.clock && f.totals == g.totals && f.lists == g.lists && f.views == g.views
            && f.burst == g.burst && f.window == g.window && f.resp == g.resp
  {
    TieringIsInvisible(cfg, start, trace);
    SameParts(Run(cfg, start, trace), Run(cfg, LARGE, trace));
    hide Run;
  }

  lemma SameParts(f: Flow, g: Flow)
    requires Observable(f) == Observable(g)
    ensures f.clock == g.clock && f.totals == g.totals && f.lists == g.lists && f.views == g.views
    ensures f.burst == g.burst && f.window == g.window && f.resp == g.resp
  {
    assert Observable(f).clock == Observable(g).clock && Observable(f).totals == Observable(g).totals;
    assert Observable(f).lists == Observable(g).lists && Observable(f).views == Observable(g).views;
    assert Observable(f).burst == Observable(g).burst && Observable(f).window == Observable(g).window;
    assert Observable(f).resp == Observable(g).resp;
  }

  lemma {:induction false} LargeArraysHoldTheFirst(cfg: Config, trace: seq<Event>, r: nat)
    requires r < DIR_LISTS
    ensures var history := Offers(cfg, trace, r); Run(cfg, LARGE, trace).lists[r] == history[..Min(|history|, 5000)]
  {
    if trace != [] {
      hide *;
      var front, p := trace[..|trace| - 1], trace[|trace| - 1].packet;
      LargeArraysHoldTheFirst(cfg, front, r);
      LargeStaysLarge(cfg, trace);
      ListAfter(cfg, LARGE, trace, r);
      AppendedIsFirst(Offers(cfg, front, r), ListInput(cfg, ClockAfter(cfg, front), p, r));
    } else {
      NothingOffered(cfg, trace, r);
    }
  }

  lemma NothingOffered(cfg: Config, none: seq<Event>, r: nat)
    requires none == [] && r < DIR_LISTS
    ensures Offers(cfg, none, r) == [] && r < |Run(cfg, LARGE, none).lists| && Run(cfg, LARGE, none).lists[r] == []
  {
  }

  lemma ListAfter(cfg: Config, start: Level, trace: seq<Event>, r: nat)
    requires trace != [] && r < DIR_LISTS
    ensures var front, p := trace[..|trace| - 1], trace[|trace| - 1].packet;
            var f, f' := Run(cfg, start, front), Run(cfg, start, trace);
            var x := ListInput(cfg, ClockAfter(cfg, front), p, r);
            && r < |f.lists| && r < |f'.lists| && Offers(cfg, trace, r) == Noted(Offers(cfg, front, r), x)
            && f'.lists[r] == Appended(f.lists[r], SeqLen(f'.level), x)
  {
    ClockOfRun(cfg, start, trace[..|trace| - 1]);
  }

  lemma AppendedIsFirst(history: seq<int>, x: Option<int>)
    ensures Appended(history[..Min(|history|, 5000)], SeqLen(LARGE), x) == Noted(history, x)[..Min(|Noted(history, x)|, 5000)]
  {
  }

  /** If allocations succeed, a per-direction array holds the first 5000 values offered, or all of them. */
  lemma ArraysHoldTheFirst5000(cfg: Config, start: Level, trace: seq<Event>, r: nat)
    requires r < DIR_LISTS && AllocationsSucceed(trace)
    ensures var history := Offers(cfg, trace, r); Run(cfg, start, trace).lists[r] == history[..Min(|history|, 5000)]
  {
    SeenAlike(cfg, start, trace);
    LargeArraysHoldTheFirst(cfg, trace, r);
    hide Run, Offers;
  }

  // --- Rings line up ---

  /** Rings that every packet pushes to, under configuration `cfg`. */
  predicate EveryPacket(cfg: Config, i: nat)
  {
    || (i == PKT_LEN_SEQ && cfg.needPktLenSeq)
    || (i == DIR_SEQ && cfg.needDirSeq)
    || (i == TS_SEQ && cfg.needTsSeq)
    || (L3_LEN_SEQ <= i <= PAYLOAD_LEN_SEQ && cfg.needLayerSeqs)
  }

  /** What such a ring records of a packet. */
  function Feature(p: Packet, i: nat): int
  {
    if i == PKT_LEN_SEQ then p.len
    else if i == DIR_SEQ then DirValue(p.dir)
    else if i == TS_SEQ then p.ts
    else if i == L3_LEN_SEQ then p.l3Len
    else if i == L4_LEN_SEQ then p.l4Len
    else p.payloadLen
  }

  /** Element `k` of the history is about packet `k`. */
  predicate Tells(history: seq<int>, trace: seq<Event>, i: nat)
  {
    && |history| == |trace|
    && forall k: nat :: k < |trace| ==> history[k] == Feature(trace[k].packet, i)
  }

  /** Position `k` is about the packet it has reached, counting from the end. */
  predicate TellsLatest(view: seq<int>, trace: seq<Event>, i: nat)
  {
    && |view| <= |trace|
    && forall k: nat :: k < |view| ==> view[k] == Feature(trace[|trace| - |view| + k].packet, i)
  }

  lemma EveryPacketIsInput(cfg: Config, c: Clock, p: Packet, i: nat)
    requires EveryPacket(cfg, i)
    ensures i < RINGS && RingInput(cfg, c, p, i) == Some(Feature(p, i))
  {
  }

  lemma {:induction false} EveryPacketPushed(cfg: Config, trace: seq<Event>, i: nat)
    requires EveryPacket(cfg, i)
    ensures Tells(Pushes(cfg, trace, i), trace, i)
  {
    if trace != [] {
      EveryPacketPushed(cfg, trace[..|trace| - 1], i);
    }
  }

  /** Position `k` of such a ring is about the packet it has reached, whatever was lost; and the ring is at
      least as long as the smallest could be, counting from the upgrade that last failed to save it. */
  lemma RingTells(cfg: Config, start: Level, trace: seq<Event>, i: nat)
    requires EveryPacket(cfg, i)
    ensures var view := Run(cfg, start, trace).views[i];
            && TellsLatest(view, trace, i)
            && |view| <= |trace| && Min(|Remembered(cfg, start, trace, i)|, SeqLen(start)) <= |view|
            && (Saved(trace, i) ==> Min(|trace|, SeqLen(start)) <= |view|)
  {
    var f := Run(cfg, start, trace);
    assert WellFormed(f) && |f.views| == RINGS;
    hide *;
    EveryPacketIsInput(cfg, ClockAfter(cfg, []), Packet(0, 0, 0, 0, 0, Unknown, Other, false, 0, 0, 0), i);
    EveryPacketPushed(cfg, trace, i);
    RingIsRecent(cfg, start, trace, i);
    LatestTells(f.views[i], Pushes(cfg, trace, i), trace, i);
    RingsHoldTheLatest(cfg, start, trace, i);
    RememberedIsLatest(cfg, start, trace, i);
    PartLengths(f.views[i], Remembered(cfg, start, trace, i), SeqLen(start), SeqLen(f.level));
  }

  /** The latest part of a history that tells of every packet tells of the latest packets. */
  lemma LatestTells(view: seq<int>, history: seq<int>, trace: seq<Event>, i: nat)
    requires |view| <= |history| && view == Latest(history, |view|) && Tells(history, trace, i)
    ensures |history| == |trace| && TellsLatest(view, trace, i)
  {
    hide Tells, Feature;
    TellsLength(history, trace, i);
    forall k: nat | k < |view| ensures view[k] == Feature(trace[|trace| - |view| + k].packet, i) {
      TellsAt(history, trace, i, |trace| - |view| + k);
    }
  }

  lemma PartLengths(view: seq<int>, history: seq<int>, atLeast: nat, capacity: nat)
    requires LatestPart(view, history, atLeast, capacity)
    ensures Min(|history|, atLeast) <= |view| <= |history| && |view| <= capacity
  {
  }

  lemma TellsLength(history: seq<int>, trace: seq<Event>, i: nat)
    requires Tells(history, trace, i)
    ensures |history| == |trace|
  {
  }

  lemma TellsAt(history: seq<int>, trace: seq<Event>, i: nat, k: nat)
    requires Tells(history, trace, i) && k < |trace|
    ensures |history| == |trace| && history[k] == Feature(trace[k].packet, i)
  {
  }

  /** Rings that every packet but the first pushes to, in a trace. */
  predicate Steady(cfg: Config, trace: seq<Event>, i: nat)
  {
    EveryPacket(cfg, i) || (i == IAT_SEQ && cfg.needIatSeq && Timed(trace))
  }

  lemma SteadyFront(cfg: Config, trace: seq<Event>, i: nat)
    requires trace != [] && Steady(cfg, trace, i)
    ensures i < RINGS && Steady(cfg, trace[..|trace| - 1], i)
  {
    EveryRing(cfg, i);
  }

  lemma EveryRing(cfg: Config, i: nat)
    ensures EveryPacket(cfg, i) ==> i < RINGS && i != IAT_SEQ
    ensures IAT_SEQ < RINGS
  {
  }

  /** Ring `i` has been full since an upgrade last failed to save it. */
  predicate FullSince(cfg: Config, start: Level, trace: seq<Event>, i: nat)
    requires i < RINGS
  {
    trace != [] &&
    var f := Run(cfg, start, trace);
    (|f.views[i]| == SeqLen(f.level) || (!Lost(cfg, start, trace, i) && FullSince(cfg, start, trace[..|trace| - 1], i)))
  }

  /** How many elements a ring holds, how many were pushed since it was last lost, and whether it has been
      full since then. */
  datatype Standing = Standing(held: nat, pushed: nat, beenFull: bool)

  function StandingOf(cfg: Config, start: Level, trace: seq<Event>, i: nat): Standing
    requires i < RINGS
  {
    Standing(|Run(cfg, start, trace).views[i]|, |Remembered(cfg, start, trace, i)|, FullSince(cfg, start, trace, i))
  }

  function After(s: Standing, lost: bool, pushes: bool, capacity: nat): Standing
  {
    var kept := if lost then Standing(0, 0, false) else s;
    var held := if pushes then Min(kept.held + 1, capacity) else kept.held;
    Standing(held, if pushes then kept.pushed + 1 else kept.pushed, held == capacity || kept.beenFull)
  }

  lemma StandingAfter(cfg: Config, start: Level, trace: seq<Event>, i: nat)
    requires trace != [] && i < RINGS
    ensures var front := trace[..|trace| - 1];
            StandingOf(cfg, start, trace, i) ==
            After(StandingOf(cfg, start, front, i), Lost(cfg, start, trace, i),
                  RingInput(cfg, ClockAfter(cfg, front), trace[|trace| - 1].packet, i).Some?,
                  SeqLen(Run(cfg, start, trace).level))
  {
    LengthAfter(cfg, start, trace, i);
    RememberedAfter(cfg, start, trace, i);
    hide Run, Remembered, ClockAfter, RingInput, Lost;
  }

  /** Without having been full, a ring has dropped nothing. */
  predicate Plausible(s: Standing, capacity: nat)
  {
    s.held <= capacity && s.held <= s.pushed && (!s.beenFull ==> s.held == s.pushed) && (s.held == 0 ==> s.pushed == 0)
  }

  /** The ring with the shorter memory holds less, unless it has been full. */
  predicate Compared(s: Standing, t: Standing)
  {
    s.pushed <= t.pushed ==> s.held <= t.held && (s.held == t.held <==> s.pushed == t.pushed || s.beenFull)
  }

  lemma ComparedAfter(s: Standing, t: Standing, lostS: bool, lostT: bool, before: nat, capacity: nat)
    requires Plausible(s, before) && Plausible(t, before) && Compared(s, t) && Compared(t, s)
    requires 2 <= before <= capacity
    ensures var s', t' := After(s, lostS, true, capacity), After(t, lostT, true, capacity);
            Plausible(s', capacity) && Compared(s', t')
  {
  }

  lemma {:induction false} StandingsCompare(cfg: Config, start: Level, trace: seq<Event>, i: nat, j: nat)
    requires Steady(cfg, trace, i) && Steady(cfg, trace, j) && i < RINGS && j < RINGS
    ensures var s, t := StandingOf(cfg, start, trace, i), StandingOf(cfg, start, trace, j);
            var capacity := SeqLen(Run(cfg, start, trace).level);
            Plausible(s, capacity) && Plausible(t, capacity) && Compared(s, t) && Compared(t, s)
  {
    hide *;
    if trace == [] {
      NothingYet(cfg, start, trace, i);
      NothingYet(cfg, start, trace, j);
      NothingCompares(SeqLen(Run(cfg, start, trace).level));
    } else {
      var front := trace[..|trace| - 1];
      SteadyFront(cfg, trace, i);
      SteadyFront(cfg, trace, j);
      StandingsCompare(cfg, start, front, i, j);
      StandingAfter(cfg, start, trace, i);
      StandingAfter(cfg, start, trace, j);
      SteadyInput(cfg, trace, i);
      SteadyInput(cfg, trace, j);
      LevelsUp(cfg, start, trace);
      if front == [] {
        NothingYet(cfg, start, front, i);
        NothingYet(cfg, start, front, j);
      }
      BothCompared(StandingOf(cfg, start, front, i), StandingOf(cfg, start, front, j),
                   Lost(cfg, start, trace, i), Lost(cfg, start, trace, j), EveryPacket(cfg, i), EveryPacket(cfg, j),
                   SeqLen(Run(cfg, start, front).level), SeqLen(Run(cfg, start, trace).level), front == []);
    }
  }

  lemma BothCompared(s: Standing, t: Standing, lostS: bool, lostT: bool, pushesS: bool, pushesT: bool, before: nat,
                     capacity: nat, first: bool)
    requires Plausible(s, before) && Plausible(t, before) && Compared(s, t) && Compared(t, s)
    requires 2 <= before <= capacity && (first ==> s == t == Standing(0, 0, false))
    ensures var s', t' := After(s, lostS, !first || pushesS, capacity), After(t, lostT, !first || pushesT, capacity);
            Plausible(s', capacity) && Plausible(t', capacity) && Compared(s', t') && Compared(t', s')
  {
    hide *;
    if first {
      ComparedAtFirst(lostS, lostT, pushesS, pushesT, capacity);
      ComparedAtFirst(lostT, lostS, pushesT, pushesS, capacity);
    } else {
      ComparedAfter(s, t, lostS, lostT, before, capacity);
      ComparedAfter(t, s, lostT, lostS, before, capacity);
    }
  }

  lemma NothingCompares(capacity: nat)
    ensures Plausible(Standing(0, 0, false), capacity) && Compared(Standing(0, 0, false), Standing(0, 0, false))
  {
  }

  lemma NothingYet(cfg: Config, start: Level, none: seq<Event>, i: nat)
    requires none == [] && i < RINGS
    ensures StandingOf(cfg, start, none, i) == Standing(0, 0, false)
  {
  }

  lemma ComparedAtFirst(lostS: bool, lostT: bool, pushesS: bool, pushesT: bool, capacity: nat)
    requires capacity >= 2
    ensures var s := After(Standing(0, 0, false), lostS, pushesS, capacity);
            var t := After(Standing(0, 0, false), lostT, pushesT, capacity);
            Plausible(s, capacity) && Compared(s, t)
  {
  }

  lemma SteadyInput(cfg: Config, trace: seq<Event>, i: nat)
    requires trace != [] && Steady(cfg, trace, i) && i < RINGS
    ensures var front := trace[..|trace| - 1];
            RingInput(cfg, ClockAfter(cfg, front), trace[|trace| - 1].packet, i).Some? <==> front != [] || EveryPacket(cfg, i)
  {
    var front := trace[..|trace| - 1];
    if EveryPacket(cfg, i) {
      EveryPacketIsInput(cfg, ClockAfter(cfg, front), trace[|trace| - 1].packet, i);
    } else {
      assert Timed(front);
      GapIsInput(cfg, front, trace[|trace| - 1].packet);
    }
    hide RingInput, ClockAfter, EveryPacket, Timed;
  }

  lemma LevelsUp(cfg: Config, start: Level, trace: seq<Event>)
    requires trace != []
    ensures 2 <= SeqLen(Run(cfg, start, trace[..|trace| - 1]).level) <= SeqLen(Run(cfg, start, trace).level)
  {
  }

  /** Rings that are saved together remember equally much. */
  lemma {:induction false} RememberedAlike(cfg: Config, start: Level, trace: seq<Event>, i: nat, j: nat)
    requires EveryPacket(cfg, i) && EveryPacket(cfg, j) && SavedTogether(trace, i, j)
    ensures |Remembered(cfg, start, trace, i)| == |Remembered(cfg, start, trace, j)|
  {
    if trace != [] {
      RememberedAlike(cfg, start, trace[..|trace| - 1], i, j);
      EveryPacketIsInput(cfg, ClockAfter(cfg, trace[..|trace| - 1]), trace[|trace| - 1].packet, i);
      EveryPacketIsInput(cfg, ClockAfter(cfg, trace[..|trace| - 1]), trace[|trace| - 1].packet, j);
      assert trace[|trace| - 1] in trace;
      hide Run, ClockAfter, RingInput, EveryPacket;
    }
  }

  /** Whichever allocations fail, two rings are equally long if and only if as much was pushed to both since
      an upgrade last failed to save them, or the one with less has been full since. */
  lemma EquallyLong(cfg: Config, start: Level, trace: seq<Event>, i: nat, j: nat)
    requires Steady(cfg, trace, i) && Steady(cfg, trace, j) && i < RINGS && j < RINGS
    ensures var f := Run(cfg, start, trace);
            var a, b := |Remembered(cfg, start, trace, i)|, |Remembered(cfg, start, trace, j)|;
            |f.views[i]| == |f.views[j]| <==> a == b || FullSince(cfg, start, trace, if a < b then i else j)
  {
    StandingsCompare(cfg, start, trace, i, j);
    hide Run, FullSince, Remembered, Steady;
  }

  /** Whichever allocations fail, the rings for lengths, directions, times and layer lengths tell of the
      latest packets.  So position `k` of two of them is about the same packet if they are equally long;
      and they are if and only if as much was pushed to both since they were last lost, or the one with
      less has been full since.  In particular they are if they are always saved together. */
  lemma RingsLineUp(cfg: Config, start: Level, trace: seq<Event>, i: nat, j: nat)
    requires EveryPacket(cfg, i) && EveryPacket(cfg, j)
    ensures var f := Run(cfg, start, trace);
            var a, b := |Remembered(cfg, start, trace, i)|, |Remembered(cfg, start, trace, j)|;
            && TellsLatest(f.views[i], trace, i) && TellsLatest(f.views[j], trace, j)
            && (|f.views[i]| == |f.views[j]| <==> a == b || FullSince(cfg, start, trace, if a < b then i else j))
            && (SavedTogether(trace, i, j) ==> |f.views[i]| == |f.views[j]|)
  {
    RingTells(cfg, start, trace, i);
    RingTells(cfg, start, trace, j);
    EquallyLong(cfg, start, trace, i, j);
    if SavedTogether(trace, i, j) {
      RememberedAlike(cfg, start, trace, i, j);
    }
    hide Run, EveryPacket, TellsLatest, FullSince, SavedTogether, Remembered;
  }

  /** One ring that its first upgrade fails to save is out of step with those that are saved. */
  lemma UnsavedFallsOutOfStep(cfg: Config, trace: seq<Event>, i: nat, j: nat)
    requires EveryPacket(cfg, i) && EveryPacket(cfg, j) && i != j && |trace| == 51
    requires AllocationsSucceed(trace[..50]) && trace[50].grants == Grants(true, {i})
    ensures var f := Run(cfg, TINY, trace); |f.views[i]| == 1 && |f.views[j]| == 51
  {
    hide *;
    var front := trace[..50];
    UpgradesAt51(cfg, trace);
    LosesOne(cfg, TINY, trace, i, j);
    AllGrantedSaves(front, j);
    RingTells(cfg, TINY, front, j);
    EveryPacketIsInput(cfg, ClockAfter(cfg, front), trace[50].packet, i);
    EveryPacketIsInput(cfg, ClockAfter(cfg, front), trace[50].packet, j);
    LengthAfter(cfg, TINY, trace, i);
    LengthAfter(cfg, TINY, trace, j);
    SmallestLevels();
  }

  lemma UpgradesAt51(cfg: Config, trace: seq<Event>)
    requires |trace| == 51 && AllocationsSucceed(trace[..50]) && trace[50].grants.pool
    ensures Run(cfg, TINY, trace[..50]).level == TINY && Run(cfg, TINY, trace).level == SMALL
  {
    LevelByPackets(cfg, trace[..50]);
    NeverFullBelowLarge(cfg, TINY, trace[..50]);
  }

  lemma LosesOne(cfg: Config, start: Level, trace: seq<Event>, i: nat, j: nat)
    requires trace != [] && trace[|trace| - 1].grants.unsaved == {i} && i != j
    requires Run(cfg, start, trace).level != Run(cfg, start, trace[..|trace| - 1]).level
    ensures Lost(cfg, start, trace, i) && !Lost(cfg, start, trace, j)
  {
  }

  lemma SmallestLevels()
    ensures SeqLen(TINY) == 64 && SeqLen(SMALL) == 256
  {
  }

  // --- Lengths and inter-arrival times ---

  lemma LastArrival(cfg: Config, trace: seq<Event>)
    requires trace != []
    ensures ClockAfter(cfg, trace).lastArrival == trace[|trace| - 1].packet.ts
  {
  }

  /** The time between packet `k` and the one before it. */
  function GapBefore(trace: seq<Event>, k: nat): int
    requires 0 < k < |trace|
  {
    Sub64(trace[k].packet.ts, trace[k - 1].packet.ts)
  }

  /** Element `k` of the history is the gap before packet `k + 1`. */
  predicate TellsGaps(history: seq<int>, trace: seq<Event>)
  {
    && |history| == (if trace == [] then 0 else |trace| - 1)
    && forall k: nat :: k < |history| ==> history[k] == GapBefore(trace, k + 1)
  }

  lemma {:induction false} GapHistory(cfg: Config, trace: seq<Event>)
    requires cfg.needIatSeq && Timed(trace)
    ensures trace != [] ==> ClockAfter(cfg, trace).lastArrival == trace[|trace| - 1].packet.ts
    ensures IAT_SEQ < RINGS && TellsGaps(Pushes(cfg, trace, IAT_SEQ), trace)
  {
    if trace != [] {
      var front := trace[..|trace| - 1];
      assert Timed(front);
      GapHistory(cfg, front);
      if front != [] {
        assert front[|front| - 1] in trace;
      }
    }
  }

  /** The test that admits lengths and inter-arrival times to their correlation. */
  predicate Correlated(f: Flow)
    requires WellFormed(f)
  {
    |f.views[PKT_LEN_SEQ]| == |f.views[IAT_SEQ]| + 1
  }

  /** How long a ring is after a packet. */
  lemma LengthAfter(cfg: Config, start: Level, trace: seq<Event>, i: nat)
    requires trace != [] && i < RINGS
    ensures var front := trace[..|trace| - 1];
            var f, f' := Run(cfg, start, front), Run(cfg, start, trace);
            var held := if Lost(cfg, start, trace, i) then 0 else |f.views[i]|;
            |f'.views[i]| == if RingInput(cfg, ClockAfter(cfg, front), trace[|trace| - 1].packet, i).Some?
                             then Min(held + 1, SeqLen(f'.level)) else held
  {
    hide *;
    var front := trace[..|trace| - 1];
    var f, f' := Run(cfg, start, front), Run(cfg, start, trace);
    ViewAfter(cfg, start, trace, i);
    RingFits(cfg, start, front, i);
    LevelsOrdered(f.level, f'.level);
    KeptLength(if Lost(cfg, start, trace, i) then [] else f.views[i], SeqLen(f'.level),
               RingInput(cfg, ClockAfter(cfg, front), trace[|trace| - 1].packet, i));
  }

  lemma RingFits(cfg: Config, start: Level, trace: seq<Event>, i: nat)
    requires i < RINGS
    ensures var f := Run(cfg, start, trace); i < |f.views| && |f.views[i]| <= SeqLen(f.level)
  {
    assert i < |Run(cfg, start, trace).views|;
    RingsHoldTheLatest(cfg, start, trace, i);
    hide Run;
  }

  lemma LevelsOrdered(a: Level, b: Level)
    requires Rank(a) <= Rank(b)
    ensures 0 < SeqLen(a) <= SeqLen(b)
  {
  }

  lemma KeptLength(view: seq<int>, capacity: nat, x: Option<int>)
    requires 0 < capacity && |view| <= capacity
    ensures |Kept(view, capacity, x)| == if x.Some? then Min(|view| + 1, capacity) else |view|
  {
  }

  lemma GapIsInput(cfg: Config, trace: seq<Event>, p: Packet)
    requires cfg.needIatSeq && Timed(trace)
    ensures RingInput(cfg, ClockAfter(cfg, trace), p, IAT_SEQ).Some? <==> trace != []
  {
    if trace != [] {
      LastArrival(cfg, trace);
      assert trace[|trace| - 1] in trace;
    }
    hide ClockAfter, Timed;
  }

  /** Position `k` of the gaps is the one before the packet it has reached, counting from the end. */
  predicate TellsLatestGaps(view: seq<int>, trace: seq<Event>)
  {
    && |view| <= (if trace == [] then 0 else |trace| - 1)
    && forall k: nat :: k < |view| ==> view[k] == GapBefore(trace, |trace| - |view| + k)
  }

  /** Whichever allocations fail, the ring of inter-arrival times holds the latest ones. */
  lemma GapRingTells(cfg: Config, start: Level, trace: seq<Event>)
    requires cfg.needIatSeq && Timed(trace)
    ensures IAT_SEQ < RINGS && TellsLatestGaps(Run(cfg, start, trace).views[IAT_SEQ], trace)
  {
    hide *;
    EveryRing(cfg, IAT_SEQ);
    RingFits(cfg, start, trace, IAT_SEQ);
    RingIsRecent(cfg, start, trace, IAT_SEQ);
    GapHistory(cfg, trace);
    LatestGaps(Run(cfg, start, trace).views[IAT_SEQ], Pushes(cfg, trace, IAT_SEQ), trace);
  }

  lemma LatestGaps(view: seq<int>, history: seq<int>, trace: seq<Event>)
    requires |view| <= |history| && view == Latest(history, |view|) && TellsGaps(history, trace)
    ensures TellsLatestGaps(view, trace)
  {
    hide GapBefore;
    forall k: nat | k < |view| ensures view[k] == GapBefore(trace, |trace| - |view| + k) {
      assert view[k] == history[|history| - |view| + k];
    }
  }

  /** A position of either ring. */
  lemma RingTellsAt(cfg: Config, start: Level, trace: seq<Event>, i: nat, k: nat)
    requires EveryPacket(cfg, i)
    ensures i < RINGS && RINGS == |Run(cfg, start, trace).views|
    ensures var view := Run(cfg, start, trace).views[i];
            |view| <= |trace| && (k < |view| ==> view[k] == Feature(trace[|trace| - |view| + k].packet, i))
  {
    EveryRing(cfg, i);
    RingTells(cfg, start, trace, i);
    hide Feature, EveryPacket, Remembered;
  }

  lemma GapRingTellsAt(cfg: Config, start: Level, trace: seq<Event>, k: nat)
    requires cfg.needIatSeq && Timed(trace)
    ensures IAT_SEQ < RINGS == |Run(cfg, start, trace).views|
    ensures var view := Run(cfg, start, trace).views[IAT_SEQ];
            && |view| <= (if trace == [] then 0 else |trace| - 1)
            && (k < |view| ==> view[k] == GapBefore(trace, |trace| - |view| + k))
  {
    GapRingTells(cfg, start, trace);
    hide GapBefore, Timed;
  }

  lemma FrontOfTimed(trace: seq<Event>)
    requires trace != [] && Timed(trace)
    ensures Timed(trace[..|trace| - 1])
  {
  }

  lemma TogetherFront(cfg: Config, start: Level, trace: seq<Event>, i: nat, j: nat)
    requires trace != [] && SavedTogether(trace, i, j)
    ensures SavedTogether(trace[..|trace| - 1], i, j)
    ensures Lost(cfg, start, trace, i) <==> Lost(cfg, start, trace, j)
  {
    assert trace[|trace| - 1] in trace;
  }

  /** The ring of inter-arrival times is one short of a ring that every packet pushes to, until that
      ring drops its first element; then it has caught up.  Both are saved together or not at all. */
  lemma {:induction false} GapsCatchUp(cfg: Config, start: Level, trace: seq<Event>, i: nat)
    requires EveryPacket(cfg, i) && cfg.needIatSeq && Timed(trace) && trace != [] && SavedTogether(trace, i, IAT_SEQ)
    ensures var f := Run(cfg, start, trace);
            |f.views[IAT_SEQ]| == if |f.views[i]| == |trace| then |trace| - 1 else |f.views[i]|
  {
    hide *;
    var front := trace[..|trace| - 1];
    FrontOfTimed(trace);
    TogetherFront(cfg, start, trace, i, IAT_SEQ);
    if front != [] {
      GapsCatchUp(cfg, start, front, i);
    }
    Lengths(cfg, start, front, i);
    Lengths(cfg, start, trace, i);
    var f, f' := Run(cfg, start, front), Run(cfg, start, trace);
    var lost := Lost(cfg, start, trace, i);
    LengthAfter(cfg, start, trace, i);
    LengthAfter(cfg, start, trace, IAT_SEQ);
    EveryPacketIsInput(cfg, ClockAfter(cfg, front), trace[|trace| - 1].packet, i);
    GapIsInput(cfg, front, trace[|trace| - 1].packet);
    CatchUp(|trace|, SeqLen(f'.level), if lost then 0 else |f.views[i]|, if lost then 0 else |f.views[IAT_SEQ]|,
            |f'.views[i]|, |f'.views[IAT_SEQ]|);
  }

  lemma Lengths(cfg: Config, start: Level, trace: seq<Event>, i: nat)
    requires EveryPacket(cfg, i) && cfg.needIatSeq && Timed(trace)
    ensures var f := Run(cfg, start, trace);
            && i < |f.views| && IAT_SEQ < |f.views| == RINGS && SeqLen(f.level) > 0
            && |f.views[i]| <= |trace|
            && |f.views[IAT_SEQ]| <= if trace == [] then 0 else |trace| - 1
  {
    var f := Run(cfg, start, trace);
    assert WellFormed(f) && IAT_SEQ < |f.views| == RINGS && SeqLen(f.level) > 0;
    RingTells(cfg, start, trace, i);
    GapRingTells(cfg, start, trace);
    EveryRing(cfg, i);
    hide Run, RingInput, EveryPacket, Sub64, Feature, SeqLen;
  }

  /** The arithmetic of it: `m` and `g` are the lengths before packet `n`, `m'` and `g'` after it. */
  lemma CatchUp(n: nat, capacity: nat, m: nat, g: nat, m': nat, g': nat)
    requires n > 0 && capacity > 0 && m < n
    requires g == if n == 1 then 0 else if m == n - 1 then n - 2 else m
    requires m' == Min(m + 1, capacity) && g' == if n == 1 then g else Min(g + 1, capacity)
    ensures g' == if m' == n then n - 1 else m'
  {
  }

  /** While both rings are saved together, the test passes exactly as long as the ring of lengths has
      dropped nothing; from then on both are equally long, and the correlation stays 0. */
  lemma CorrelatedUntilFull(cfg: Config, start: Level, trace: seq<Event>)
    requires cfg.needPktLenSeq && cfg.needIatSeq && Timed(trace) && SavedTogether(trace, PKT_LEN_SEQ, IAT_SEQ)
    ensures var f := Run(cfg, start, trace);
            && (Correlated(f) <==> trace != [] && |f.views[PKT_LEN_SEQ]| == |trace|)
            && (!Correlated(f) ==> |f.views[PKT_LEN_SEQ]| == |f.views[IAT_SEQ]|)
  {
    Lengths(cfg, start, trace, PKT_LEN_SEQ);
    if trace != [] {
      GapsCatchUp(cfg, start, trace, PKT_LEN_SEQ);
    }
    hide Run, Timed, EveryPacket, SavedTogether;
  }

  /** Whichever allocations fail, whenever the test passes, each length is paired with the time to the
      next packet. */
  lemma CorrelatedPairsNextGap(cfg: Config, start: Level, trace: seq<Event>, k: nat)
    requires cfg.needPktLenSeq && cfg.needIatSeq && Timed(trace)
    ensures var f := Run(cfg, start, trace);
            var first := |trace| - |f.views[PKT_LEN_SEQ]|;
            Correlated(f) && k < |f.views[IAT_SEQ]| ==>
              && 0 <= first + k < |trace| - 1
              && f.views[PKT_LEN_SEQ][k] == trace[first + k].packet.len
              && f.views[IAT_SEQ][k] == GapBefore(trace, first + k + 1)
  {
    LengthsAreEveryPacket(cfg);
    CorrelatedIs(Run(cfg, start, trace));
    hide *;
    RingTellsAt(cfg, start, trace, PKT_LEN_SEQ, k);
    GapRingTellsAt(cfg, start, trace, k);
    LengthFeature(trace);
  }

  lemma LengthsAreEveryPacket(cfg: Config)
    ensures cfg.needPktLenSeq ==> EveryPacket(cfg, PKT_LEN_SEQ)
    ensures cfg.needLayerSeqs ==> EveryPacket(cfg, L3_LEN_SEQ)
  {
  }

  lemma LengthFeature(trace: seq<Event>)
    ensures forall e <- trace :: Feature(e.packet, PKT_LEN_SEQ) == e.packet.len
    ensures forall e <- trace :: Feature(e.packet, L3_LEN_SEQ) == e.packet.l3Len
  {
  }

  lemma CorrelatedIs(f: Flow)
    requires WellFormed(f)
    ensures PKT_LEN_SEQ < |f.views| && IAT_SEQ < |f.views|
    ensures Correlated(f) <==> |f.views[PKT_LEN_SEQ]| == |f.views[IAT_SEQ]| + 1
  {
  }

  /** If allocations succeed, the correlation is computed for flows of 1 to 5000 packets only; it then
      pairs each packet's length with the time to the next packet. */
  lemma CorrelatedUpTo5000(cfg: Config, start: Level, trace: seq<Event>)
    requires cfg.needPktLenSeq && cfg.needIatSeq && Timed(trace) && AllocationsSucceed(trace)
    ensures var f := Run(cfg, start, trace);
            && (Correlated(f) <==> 1 <= |trace| <= 5000)
            && (Correlated(f) ==>
                  && |f.views[PKT_LEN_SEQ]| == |trace| == |f.views[IAT_SEQ]| + 1
                  && forall k: nat :: k + 1 < |trace| ==>
                       && f.views[PKT_LEN_SEQ][k] == trace[k].packet.len
                       && f.views[IAT_SEQ][k] == GapBefore(trace, k + 1))
  {
    AllGrantedTogether(trace, PKT_LEN_SEQ, IAT_SEQ);
    CorrelatedUntilFull(cfg, start, trace);
    RingsHoldTheLatest5000(cfg, start, trace, PKT_LEN_SEQ);
    EveryPacketPushed(cfg, trace, PKT_LEN_SEQ);
    hide Run, Timed, GapBefore, Pushes, AllocationsSucceed;
    forall k: nat | Correlated(Run(cfg, start, trace)) && k + 1 < |trace|
      ensures && Run(cfg, start, trace).views[PKT_LEN_SEQ][k] == trace[k].packet.len
              && Run(cfg, start, trace).views[IAT_SEQ][k] == GapBefore(trace, k + 1)
    {
      CorrelatedPairsNextGap(cfg, start, trace, k);
    }
  }

  lemma AllGrantedTogether(trace: seq<Event>, i: nat, j: nat)
    requires AllocationsSucceed(trace)
    ensures SavedTogether(trace, i, j)
  {
  }

  /** The inter-arrival time listed with position `k` of the layer lengths. */
  function ListedGap(f: Flow, k: nat): int
    requires WellFormed(f)
  {
    if k == 0 then 0 else if k - 1 < |f.views[IAT_SEQ]| then f.views[IAT_SEQ][k - 1] else 0
  }

  /** Position `k` of the layer lengths tells of packet `n - m + k`.  The time listed with it is the gap
      before packet `n - g + k - 1`, if there is one, whichever allocations fail.  While both rings are
      saved together this is the packet's own gap as long as nothing was dropped, but the gap of the packet
      before from then on. */
  lemma ListedGapLagsOnceFull(cfg: Config, start: Level, trace: seq<Event>, k: nat)
    requires cfg.needLayerSeqs && cfg.needIatSeq && Timed(trace)
    requires 0 < k < |Run(cfg, start, trace).views[L3_LEN_SEQ]|
    ensures var f, n := Run(cfg, start, trace), |trace|;
            var m, g := |f.views[L3_LEN_SEQ]|, |f.views[IAT_SEQ]|;
            && m <= n && f.views[L3_LEN_SEQ][k] == trace[n - m + k].packet.l3Len
            && (k - 1 < g ==> g < n && ListedGap(f, k) == GapBefore(trace, n - g + k - 1))
            && (k - 1 >= g ==> ListedGap(f, k) == 0)
            && (SavedTogether(trace, L3_LEN_SEQ, IAT_SEQ) ==>
                  k - 1 < g && n - g + k - 1 == if m == n then n - m + k else n - m + k - 1)
  {
    LengthsAreEveryPacket(cfg);
    ListedGapIs(Run(cfg, start, trace), k);
    hide *;
    RingTellsAt(cfg, start, trace, L3_LEN_SEQ, k);
    GapRingTellsAt(cfg, start, trace, k - 1);
    LengthFeature(trace);
    if SavedTogether(trace, L3_LEN_SEQ, IAT_SEQ) {
      GapsCatchUp(cfg, start, trace, L3_LEN_SEQ);
    }
  }

  lemma ListedGapIs(f: Flow, k: nat)
    requires WellFormed(f)
    ensures L3_LEN_SEQ < |f.views| && IAT_SEQ < |f.views|
    ensures ListedGap(f, k) == if 0 < k <= |f.views[IAT_SEQ]| then f.views[IAT_SEQ][k - 1] else 0
  {
  }

  // --- Conservation ---

  function SumOver(trace: seq<Event>, weight: Packet -> nat): nat
  {
    if trace == [] then 0 else SumOver(trace[..|trace| - 1], weight) + weight(trace[|trace| - 1].packet)
  }

  lemma TotalsAfter(cfg: Config, start: Level, trace: seq<Event>)
    requires trace != []
    ensures var front, p := trace[..|trace| - 1], trace[|trace| - 1].packet;
            Run(cfg, start, trace).totals ==
            ActiveStep(cfg, CountersStep(Run(cfg, start, front).totals, p), ClockAfter(cfg, front), p)
  {
    ClockOfRun(cfg, start, trace[..|trace| - 1]);
  }

  lemma CountersAfter(cfg: Config, t: Totals, c: Clock, p: Packet)
    ensures var t' := ActiveStep(cfg, CountersStep(t, p), c, p);
            && t'.packets == t.packets + 1 && t'.bytes == t.bytes + p.len
            && t'.fwdPackets == t.fwdPackets + (if p.dir == Fwd then 1 else 0)
            && t'.fwdBytes == t.fwdBytes + (if p.dir == Fwd then p.len else 0)
            && t'.bwdPackets == t.bwdPackets + (if p.dir == Bwd then 1 else 0)
            && t'.bwdBytes == t.bwdBytes + (if p.dir == Bwd then p.len else 0)
  {
  }

  /** Every packet and byte is counted once in all, and once more if its direction is known. */
  lemma {:induction false} CountersAreSums(cfg: Config, start: Level, trace: seq<Event>)
    ensures var t := Run(cfg, start, trace).totals;
            && t.packets == |trace| && t.bytes == SumOver(trace, (p: Packet) => p.len)
            && t.fwdPackets == SumOver(trace, (p: Packet) => if p.dir == Fwd then 1 else 0)
            && t.fwdBytes == SumOver(trace, (p: Packet) => if p.dir == Fwd then p.len else 0)
            && t.bwdPackets == SumOver(trace, (p: Packet) => if p.dir == Bwd then 1 else 0)
            && t.bwdBytes == SumOver(trace, (p: Packet) => if p.dir == Bwd then p.len else 0)
  {
    if trace != [] {
      var front := trace[..|trace| - 1];
      hide Run, ClockAfter, ActiveStep, CountersStep;
      CountersAreSums(cfg, start, front);
      TotalsAfter(cfg, start, trace);
      CountersAfter(cfg, Run(cfg, start, front).totals, ClockAfter(cfg, front), trace[|trace| - 1].packet);
    }
  }

  lemma GapIsActiveOrIdle(cfg: Config, t: Totals, c: Clock, p: Packet)
    requires cfg.iatActive
    ensures var t' := ActiveStep(cfg, CountersStep(t, p), c, p);
            t'.active + t'.idle == t.active + t.idle + if c.lastArrival == 0 then 0 else Gap(c, p)
  {
  }

  /** Active and idle time together cover the flow from its first packet to its last. */
  lemma {:induction false} ActiveAndIdleCoverFlow(cfg: Config, start: Level, trace: seq<Event>)
    requires cfg.iatActive && trace != [] && Timed(trace) && InTimeOrder(trace)
    ensures var t := Run(cfg, start, trace).totals;
            t.active + t.idle == trace[|trace| - 1].packet.ts - trace[0].packet.ts
  {
    var front, last := trace[..|trace| - 1], trace[|trace| - 1];
    TotalsAfter(cfg, start, trace);
    GapIsActiveOrIdle(cfg, Run(cfg, start, front).totals, ClockAfter(cfg, front), last.packet);
    assert last in trace;
    if front != [] {
      var before := trace[|trace| - 2];
      assert front[|front| - 1] == before && before in trace && Timed(front) && InTimeOrder(front);
      ActiveAndIdleCoverFlow(cfg, start, front);
      LastArrival(cfg, front);
      Sub64Exact(last.packet.ts, before.packet.ts);
      hide Run, ClockAfter, Timed, InTimeOrder, ActiveStep, CountersStep, Sub64;
    }
  }
}
