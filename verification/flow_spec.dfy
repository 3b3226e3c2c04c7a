/** One flow, as its consumers see it, and what one packet does to it.

    This is the reference for the in-place code in `flow_state.dfy`: the recorded sequences are plain
    lists, the memory behind them shows only as their capacity, and a packet changes everything at
    once instead of step by step. */
module FlowSpec {
  import opened Words
  import opened Layout
  import opened MemoryPool
  import opened CircularBuffers
  import opened BurstSpec
  import opened WindowSpec

  datatype Option<+T> = None | Some(value: T)

  datatype Direction = Unknown | Fwd | Bwd

  datatype Transport = Tcp | Udp | Other

  /** What is known of a packet when it reaches the flow.  `hasHeaders` says that the raw packet is
      available; the header fields mean something only then. */
  datatype Packet = Packet(ts: nat, len: nat, payloadLen: nat, l3Len: nat, l4Len: nat, dir: Direction,
                           transport: Transport, hasHeaders: bool, ttl: nat, tos: nat, tcpWindow: nat)

  datatype Config = Config(protocolIp: bool, protocolTcp: bool, protocolUdp: bool, payloadStats: bool,
                           needPayloadDir: bool, needPktLenSeq: bool, needDirLens: bool, needDirSeq: bool,
                           needTsSeq: bool, needLayerSeqs: bool, needDirIats: bool, needIatSeq: bool,
                           iatActive: bool, burst: bool, response: bool, window: bool,
                           burstThresholdUs: nat, activeThresholdUs: nat, windowSizeMs: nat)

  /** What the flow remembers of its last packets; zero times mean "none yet". */
  datatype Clock = Clock(lastArrival: nat, lastFwd: nat, lastBwd: nat, hasPayload: bool, lastPayload: nat)

  datatype Totals = Totals(packets: nat, bytes: nat, fwdPackets: nat, fwdBytes: nat, bwdPackets: nat, bwdBytes: nat,
                           active: nat, idle: nat)

  /** Request/response pairing: the open request's time (0: none) and the recorded delays, each kept
      as the microseconds it stands for. */
  datatype Response = Response(lastReq: nat, delays: seq<int>)

  const NUM_WINDOWS: nat := 100
  const RESP_CAPACITY: nat := 1000
  const DIR_LISTS: nat := 6

  /** `lists` are the six per-direction arrays, `views` the thirteen rings, oldest element first;
      `checked` is the packet count that decides about upgrades. */
  datatype Flow = Flow(level: Level, checked: nat, clock: Clock, totals: Totals, lists: seq<seq<int>>,
                       views: seq<seq<int>>, burst: Burst, window: Window, resp: Response)

  predicate WellFormed(f: Flow)
  {
    |f.lists| == DIR_LISTS && |f.views| == RINGS && BurstSpec.Consistent(f.burst) && WindowSpec.Consistent(f.window)
  }

  function DirValue(dir: Direction): int
  {
    match dir
    case Fwd => 1
    case Bwd => -1
    case Unknown => 0
  }

  function When(c: bool, x: int): Option<int>
  {
    if c then Some(x) else None
  }

  predicate HasPayload(cfg: Config, p: Packet)
  {
    p.payloadLen > 0 && p.hasHeaders && cfg.payloadStats
  }

  /** Time since the previous packet, 0 for the first one. */
  function Gap(c: Clock, p: Packet): nat
  {
    if c.lastArrival > 0 then Sub64(p.ts, c.lastArrival) else 0
  }

  /** What a packet adds to ring `i`. */
  function RingInput(cfg: Config, c: Clock, p: Packet, i: nat): Option<int>
    requires i < RINGS
  {
    match i
    case 0 => When(cfg.needPktLenSeq, p.len)
    case 1 => When(cfg.needIatSeq && c.lastArrival != 0, Gap(c, p))
    case 2 => When(cfg.needDirSeq, DirValue(p.dir))
    case 3 => When(cfg.needTsSeq, p.ts)
    case 4 => When(p.transport == Tcp && p.hasHeaders && cfg.protocolTcp, p.tcpWindow)
    case 5 => When(p.transport == Udp && cfg.protocolUdp, p.payloadLen + 8)
    case 6 => When(p.hasHeaders && cfg.protocolIp, p.ttl)
    case 7 => When(p.hasHeaders && cfg.protocolIp, p.tos)
    case 8 => When(HasPayload(cfg, p), p.payloadLen)
    case 9 => When(HasPayload(cfg, p) && c.hasPayload, Distance(p.payloadLen, c.lastPayload))
    case 10 => When(cfg.needLayerSeqs, p.l3Len)
    case 11 => When(cfg.needLayerSeqs, p.l4Len)
    case 12 => When(cfg.needLayerSeqs, p.payloadLen)
  }

  function Distance(x: nat, y: nat): nat
  {
    if x >= y then x - y else y - x
  }

  /** What a packet adds to per-direction array `r`.  The first packet of the flow leaves no arrival
      time for its direction, so the direction's next packet adds no interval. */
  function ListInput(cfg: Config, c: Clock, p: Packet, r: nat): Option<int>
    requires r < DIR_LISTS
  {
    match r
    case 0 => When(cfg.needDirLens && p.dir == Fwd, p.len)
    case 1 => When(cfg.needDirLens && p.dir == Bwd, p.len)
    case 2 => When(cfg.needDirIats && c.lastArrival != 0 && p.dir == Fwd && c.lastFwd > 0, Sub64(p.ts, c.lastFwd))
    case 3 => When(cfg.needDirIats && c.lastArrival != 0 && p.dir == Bwd && c.lastBwd > 0, Sub64(p.ts, c.lastBwd))
    case 4 => When(cfg.needPayloadDir && p.payloadLen > 0 && p.dir == Fwd, p.payloadLen)
    case 5 => When(cfg.needPayloadDir && p.payloadLen > 0 && p.dir == Bwd, p.payloadLen)
  }

  function ArrivalStep(c: Clock, p: Packet): Clock
  {
    var first := c.lastArrival == 0;
    c.(lastArrival := p.ts,
       lastFwd := if !first && p.dir == Fwd then p.ts else c.lastFwd,
       lastBwd := if !first && p.dir == Bwd then p.ts else c.lastBwd)
  }

  function PayloadStep(cfg: Config, c: Clock, p: Packet): Clock
  {
    if HasPayload(cfg, p) then c.(hasPayload := true, lastPayload := p.payloadLen) else c
  }

  function ClockStep(cfg: Config, c: Clock, p: Packet): Clock
  {
    PayloadStep(cfg, ArrivalStep(c, p), p)
  }

  /** Packets and bytes, in all and per direction. */
  function CountersStep(t: Totals, p: Packet): Totals
  {
    var u := t.(packets := t.packets + 1, bytes := t.bytes + p.len);
    match p.dir
    case Fwd => u.(fwdPackets := u.fwdPackets + 1, fwdBytes := u.fwdBytes + p.len)
    case Bwd => u.(bwdPackets := u.bwdPackets + 1, bwdBytes := u.bwdBytes + p.len)
    case Unknown => u
  }

  /** Active and idle time: every gap counts as one or the other. */
  function ActiveStep(cfg: Config, t: Totals, c: Clock, p: Packet): Totals
  {
    if !cfg.iatActive || c.lastArrival == 0 then t
    else if Gap(c, p) <= cfg.activeThresholdUs then t.(active := t.active + Gap(c, p))
    else t.(idle := t.idle + Gap(c, p))
  }

  function ResponseStep(r: Response, capacity: nat, dir: Direction, ts: nat): Response
  {
    if dir == Fwd then r.(lastReq := ts)
    else if dir == Bwd && r.lastReq > 0 then
      Response(0, if |r.delays| < capacity then r.delays + [Sub64(ts, r.lastReq)] else r.delays)
    else r
  }

  /** A bounded list only grows while it has room; a ring makes room by forgetting. */
  function Appended(list: seq<int>, capacity: nat, x: Option<int>): seq<int>
  {
    if x.Some? && |list| < capacity then list + [x.value] else list
  }

  function Kept(view: seq<int>, capacity: nat, x: Option<int>): seq<int>
  {
    if x.Some? then Pushed(view, capacity, x.value) else view
  }

  function AppendedAt(lists: seq<seq<int>>, r: nat, capacity: nat, x: Option<int>): (l: seq<seq<int>>)
    requires r < |lists|
    ensures |l| == |lists|
  {
    lists[r := Appended(lists[r], capacity, x)]
  }

  function KeptAt(views: seq<seq<int>>, i: nat, capacity: nat, x: Option<int>): (v: seq<seq<int>>)
    requires i < |views|
    ensures |v| == |views|
  {
    views[i := Kept(views[i], capacity, x)]
  }

  /** What a packet does to all per-direction arrays, and to all rings. */
  function AllAppended(cfg: Config, c: Clock, p: Packet, capacity: nat, lists: seq<seq<int>>): (l: seq<seq<int>>)
    requires |lists| == DIR_LISTS
    ensures |l| == DIR_LISTS
  {
    seq(DIR_LISTS, r requires 0 <= r < DIR_LISTS => Appended(lists[r], capacity, ListInput(cfg, c, p, r)))
  }

  function AllKept(cfg: Config, c: Clock, p: Packet, capacity: nat, views: seq<seq<int>>): (v: seq<seq<int>>)
    requires |views| == RINGS
    ensures |v| == RINGS
  {
    seq(RINGS, i requires 0 <= i < RINGS => Kept(views[i], capacity, RingInput(cfg, c, p, i)))
  }

  /** The level after the upgrade check for a packet, if the allocation goes as `mallocOk` says. */
  function LevelStep(level: Level, checked: nat, mallocOk: bool): Level
  {
    if NeedsUpgrade(level, CheckedCount(level, checked)) && mallocOk then Next(level) else level
  }

  /** Which allocations succeed while a packet is processed: that of a larger pool, and those of the
      rings' saved copies, but for the rings in `unsaved`. */
  datatype Grants = Grants(pool: bool, unsaved: set<nat>)

  const ALL_GRANTED := Grants(true, {})

  /** What is left of the rings after the upgrade check: an upgrade empties those it could not save. */
  function Carried(views: seq<seq<int>>, upgraded: bool, unsaved: set<nat>): (v: seq<seq<int>>)
    requires |views| == RINGS
    ensures |v| == RINGS
  {
    seq(RINGS, i requires 0 <= i < RINGS => if upgraded && i in unsaved then [] else views[i])
  }

  lemma NothingLost(views: seq<seq<int>>, upgraded: bool, unsaved: set<nat>)
    requires |views| == RINGS && (!upgraded || unsaved == {})
    ensures Carried(views, upgraded, unsaved) == views
  {
  }

  function DataStep(cfg: Config, f: Flow, p: Packet, grants: Grants): (f': Flow)
    requires WellFormed(f)
    ensures WellFormed(f')
  {
    var level := LevelStep(f.level, f.checked, grants.pool);
    var capacity := SeqLen(level);
    Flow(level, CheckedCount(f.level, f.checked),
         ClockStep(cfg, f.clock, p),
         ActiveStep(cfg, CountersStep(f.totals, p), f.clock, p),
         AllAppended(cfg, f.clock, p, capacity, f.lists),
         AllKept(cfg, f.clock, p, capacity, Carried(f.views, level != f.level, grants.unsaved)),
         if cfg.burst then BurstStep(f.burst, capacity, cfg.burstThresholdUs, p.len, Gap(f.clock, p), p.ts) else f.burst,
         if cfg.window then WindowStep(f.window, cfg.windowSizeMs, p.len, p.ts) else f.window,
         if cfg.response then ResponseStep(f.resp, RESP_CAPACITY, p.dir, p.ts) else f.resp)
  }

  /** A flow that has seen no packet, on a pool of the given level. */
  function NewFlow(level: Level): (f: Flow)
    ensures WellFormed(f)
  {
    Flow(level, 0, Clock(0, 0, 0, false, 0), Totals(0, 0, 0, 0, 0, 0, 0, 0), seq(DIR_LISTS, _ => []), seq(RINGS, _ => []),
         NO_BURST, NoWindows(NUM_WINDOWS), Response(0, []))
  }

  /** Slots available for intermediate results when features are computed. */
  function TempLen(level: Level): nat
  {
    var capacity := TEMP_SIZE / 16;
    if SeqLen(level) < capacity then SeqLen(level) else capacity
  }
}
