/** How the pool divides one allocation among its arrays and rings.

    Fourteen arrays come first, then the thirteen rings, then (at the far end) the temporary region.
    Regions are numbered in the order they are laid out; element sizes are those of the C types. */
module Layout {
  import opened BitMask

  datatype Level = TINY | SMALL | MEDIUM | LARGE

  function Rank(level: Level): nat
  {
    match level
    case TINY => 0
    case SMALL => 1
    case MEDIUM => 2
    case LARGE => 3
  }

  /** `(flow_level_t)((int)level + 1)`; there is nothing above LARGE. */
  function Next(level: Level): Level
    requires level != LARGE
  {
    match level
    case TINY => SMALL
    case SMALL => MEDIUM
    case MEDIUM => LARGE
  }

  function SeqLen(level: Level): nat
  {
    match level
    case TINY => 64
    case SMALL => 256
    case MEDIUM => 1000
    case LARGE => 5000
  }

  const TEMP_SIZE: nat := 8192
  const ARRAYS: nat := 14
  const RINGS: nat := 13
  const REGIONS: nat := ARRAYS + RINGS

  // Array numbers.
  const FWD_PKT_LENS: nat := 0
  const BWD_PKT_LENS: nat := 1
  const FWD_IATS: nat := 2
  const BWD_IATS: nat := 3
  const FWD_PAYLOAD_SIZES: nat := 4
  const BWD_PAYLOAD_SIZES: nat := 5
  const WINDOW_PKT_COUNTS: nat := 6
  const WINDOW_BYTE_COUNTS: nat := 7
  const WINDOW_BITRATE: nat := 8
  const BURST_SIZES: nat := 9
  const BURST_DURATIONS: nat := 10
  const BURST_INTERVALS: nat := 11
  const BURST_PACKET_COUNTS: nat := 12
  const RESP_DELAYS: nat := 13

  // Ring numbers.
  const PKT_LEN_SEQ: nat := 0
  const IAT_SEQ: nat := 1
  const DIR_SEQ: nat := 2
  const TS_SEQ: nat := 3
  const TCP_WINDOW_SEQ: nat := 4
  const UDP_LEN_SEQ: nat := 5
  const IP_TTL_SEQ: nat := 6
  const IP_TOS_SEQ: nat := 7
  const PAYLOAD_SIZE_SEQ: nat := 8
  const PAYLOAD_SIZE_DIFF_SEQ: nat := 9
  const L3_LEN_SEQ: nat := 10
  const L4_LEN_SEQ: nat := 11
  const PAYLOAD_LEN_SEQ: nat := 12

  /** What decides a layout: slots per sequence, number of windows, response-delay capacity. */
  datatype Dims = Dims(seqLen: nat, windows: nat, responses: nat)

  function ElemSize(r: nat): (size: nat)
    ensures size == 1 || size == 4 || size == 8
  {
    if r == FWD_IATS || r == BWD_IATS || r == BURST_DURATIONS || r == BURST_INTERVALS || r == RESP_DELAYS then 8
    else if r == ARRAYS + IAT_SEQ || r == ARRAYS + TS_SEQ then 8
    else if r == ARRAYS + DIR_SEQ then 1
    else 4
  }

  function Slots(r: nat, d: Dims): nat
  {
    if WINDOW_PKT_COUNTS <= r <= WINDOW_BITRATE then d.windows
    else if r == RESP_DELAYS then d.responses
    else d.seqLen
  }

  /** Region `r` starts where the regions before it end. */
  function Offset(r: nat, d: Dims): nat
  {
    if r == 0 then 0 else Offset(r - 1, d) + Slots(r - 1, d) * ElemSize(r - 1)
  }

  function RegionEnd(r: nat, d: Dims): nat
  {
    Offset(r, d) + Slots(r, d) * ElemSize(r)
  }

  /** Number of bytes to allocate.  The ring term counts fourteen rings, one 64-bit ring more than
      there are, and the total is rounded up to a multiple of 64. */
  function CalcSizeEx(level: Level, windows: nat, responses: nat): nat
  {
    var seqLen := SeqLen(level);
    var directional := seqLen * 4 + seqLen * 4 + seqLen * 8 + seqLen * 8 + seqLen * 4 + seqLen * 4;
    var window := windows * 4 + windows * 4 + windows * 4;
    var burst := seqLen * 4 + seqLen * 8 + seqLen * 8 + seqLen * 4;
    var delays := responses * 8;
    var rings := 5 * seqLen * 4 + 4 * seqLen * 8 + 1 * seqLen * 1 + 4 * seqLen * 4;
    AlignUp(directional + window + burst + delays + rings + TEMP_SIZE, 64)
  }

  /** Counts fit the 32-bit parameters they are passed in. */
  predicate WordSized(windows: nat, responses: nat)
  {
    windows < 0x1_0000_0000 && responses < 0x1_0000_0000
  }

  /** Later regions start no earlier than earlier ones end, so no two regions overlap. */
  lemma {:induction false} RegionsDisjoint(r: nat, r': nat, d: Dims)
    requires r < r'
    ensures RegionEnd(r, d) <= Offset(r', d)
    decreases r'
  {
    if r + 1 < r' {
      RegionsDisjoint(r, r' - 1, d);
    }
  }

  lemma ArrayOffsets(d: Dims)
    ensures Offset(1, d) == 4 * d.seqLen && Offset(2, d) == 8 * d.seqLen && Offset(3, d) == 16 * d.seqLen
    ensures Offset(4, d) == 24 * d.seqLen && Offset(5, d) == 28 * d.seqLen && Offset(6, d) == 32 * d.seqLen
    ensures Offset(7, d) == 32 * d.seqLen + 4 * d.windows && Offset(8, d) == 32 * d.seqLen + 8 * d.windows
    ensures Offset(9, d) == 32 * d.seqLen + 12 * d.windows && Offset(10, d) == 36 * d.seqLen + 12 * d.windows
    ensures Offset(11, d) == 44 * d.seqLen + 12 * d.windows && Offset(12, d) == 52 * d.seqLen + 12 * d.windows
    ensures Offset(13, d) == 56 * d.seqLen + 12 * d.windows
    ensures Offset(14, d) == 56 * d.seqLen + 12 * d.windows + 8 * d.responses
  {
    assert Offset(0, d) == 0;
    assert Offset(1, d) == 4 * d.seqLen;
    assert Offset(2, d) == 8 * d.seqLen;
    assert Offset(3, d) == 16 * d.seqLen;
    assert Offset(4, d) == 24 * d.seqLen;
    assert Offset(5, d) == 28 * d.seqLen;
    assert Offset(6, d) == 32 * d.seqLen;
    assert Offset(7, d) == 32 * d.seqLen + 4 * d.windows;
    assert Offset(8, d) == 32 * d.seqLen + 8 * d.windows;
    assert Offset(9, d) == 32 * d.seqLen + 12 * d.windows;
    assert Offset(10, d) == 36 * d.seqLen + 12 * d.windows;
    assert Offset(11, d) == 44 * d.seqLen + 12 * d.windows;
    assert Offset(12, d) == 52 * d.seqLen + 12 * d.windows;
    assert Offset(13, d) == 56 * d.seqLen + 12 * d.windows;
  }

  lemma RingOffsets(d: Dims)
    ensures Offset(15, d) == Offset(14, d) + 4 * d.seqLen && Offset(16, d) == Offset(14, d) + 12 * d.seqLen
    ensures Offset(17, d) == Offset(14, d) + 13 * d.seqLen && Offset(18, d) == Offset(14, d) + 21 * d.seqLen
    ensures forall r :: 18 <= r <= REGIONS ==> Offset(r, d) == Offset(14, d) + (21 + 4 * (r - 18)) * d.seqLen
  {
    assert Offset(15, d) == Offset(14, d) + 4 * d.seqLen;
    assert Offset(16, d) == Offset(14, d) + 12 * d.seqLen;
    assert Offset(17, d) == Offset(14, d) + 13 * d.seqLen;
    assert Offset(18, d) == Offset(14, d) + 21 * d.seqLen;
    forall r | 18 <= r <= REGIONS
      ensures Offset(r, d) == Offset(14, d) + (21 + 4 * (r - 18)) * d.seqLen
    {
      LastRings(r, d);
    }
  }

  lemma {:induction false} LastRings(r: nat, d: Dims)
    requires 18 <= r <= REGIONS
    ensures Offset(r, d) == Offset(18, d) + (4 * (r - 18)) * d.seqLen
  {
    if r > 18 {
      LastRings(r - 1, d);
      assert Offset(r, d) == Offset(r - 1, d) + d.seqLen * 4;
      hide *;
      OneMoreRing(r - 19, d.seqLen);
    }
  }

  lemma OneMoreRing(k: nat, len: nat)
    ensures (4 * (k + 1)) * len == (4 * k) * len + len * 4
  {
  }

  /** The allocation covers every region and the temporary area behind them, ends on a 64-byte
      boundary, and its size cannot leave a 64-bit word. */
  lemma SizeCoversLayout(level: Level, windows: nat, responses: nat)
    requires WordSized(windows, responses)
    ensures var total, d := CalcSizeEx(level, windows, responses), Dims(SeqLen(level), windows, responses);
            && total % 64 == 0
            && Offset(REGIONS, d) + TEMP_SIZE <= total
            && Offset(ARRAYS, d) + 69 * d.seqLen + TEMP_SIZE <= total < Offset(ARRAYS, d) + 69 * d.seqLen + TEMP_SIZE + 64
            && total < 0x1_0000_0000_0000_0000
  {
    var d := Dims(SeqLen(level), windows, responses);
    ArrayOffsets(d);
    RingOffsets(d);
    assert Offset(REGIONS, d) == Offset(14, d) + 57 * d.seqLen;
    SixtyFour();
    AlignUpRounds(Offset(ARRAYS, d) + 69 * d.seqLen + TEMP_SIZE, 6);
  }

  /** What a flow's block takes at each level, with the dimensions that flows use. */
  lemma BlockSizes()
    ensures CalcSizeEx(TINY, 100, 1000) == 25408 && CalcSizeEx(SMALL, 100, 1000) == 49408
    ensures CalcSizeEx(MEDIUM, 100, 1000) == 142400 && CalcSizeEx(LARGE, 100, 1000) == 642432
  {
    BlockSize(TINY);
    BlockSize(SMALL);
    BlockSize(MEDIUM);
    BlockSize(LARGE);
    hide CalcSizeEx;
  }

  lemma BlockSize(level: Level)
    ensures var total, used := CalcSizeEx(level, 100, 1000), 125 * SeqLen(level) + 17392;
            total % 64 == 0 && used <= total < used + 64
  {
    SizeCoversLayout(level, 100, 1000);
    ArrayOffsets(Dims(SeqLen(level), 100, 1000));
    hide CalcSizeEx, Offset, SeqLen;
  }

  /** All regions lie one behind the other within the block, and before the temporary area at its end. */
  lemma LayoutIsSound(level: Level, windows: nat, responses: nat, r: nat, r': nat)
    requires WordSized(windows, responses) && r < r' < REGIONS
    ensures var total, d := CalcSizeEx(level, windows, responses), Dims(SeqLen(level), windows, responses);
            RegionEnd(r, d) <= Offset(r', d) <= RegionEnd(r', d) <= total - TEMP_SIZE
  {
    var d := Dims(SeqLen(level), windows, responses);
    SizeCoversLayout(level, windows, responses);
    RegionsDisjoint(r, r', d);
    RegionsDisjoint(r', REGIONS, d);
    hide Offset, CalcSizeEx;
    assert Slots(r', d) * ElemSize(r') >= 0;
  }

  /** Every 64-bit element starts on an 8-byte boundary exactly when the window count is even: the
      three window arrays take 12 bytes per window and push what follows off the boundary. */
  lemma WideElementsAligned(level: Level, windows: nat, responses: nat)
    ensures var d := Dims(SeqLen(level), windows, responses);
            (forall r :: 0 <= r < REGIONS && ElemSize(r) == 8 ==> Offset(r, d) % 8 == 0) <==> windows % 2 == 0
  {
    var d := Dims(SeqLen(level), windows, responses);
    if windows % 2 == 0 {
      WideOffsetsEven(d, windows / 2);
      forall r | 0 <= r < REGIONS && ElemSize(r) == 8
        ensures Offset(r, d) % 8 == 0
      {
        assert r in {2, 3, 10, 11, 13, 15, 17};
      }
    } else {
      assert ElemSize(BURST_DURATIONS) == 8;
      WideOffsetOdd(d, windows / 2);
    }
  }

  lemma WideOffsetsEven(d: Dims, w: nat)
    requires d.seqLen % 8 == 0 && d.windows == 2 * w
    ensures forall r :: r in {2, 3, 10, 11, 13, 15, 17} ==> Offset(r, d) % 8 == 0
  {
    var q := d.seqLen / 8;
    WideOffsets(d, q);
    MultipleOfEight(Offset(2, d), 8 * q);
    MultipleOfEight(Offset(3, d), 16 * q);
    MultipleOfEight(Offset(10, d), 36 * q + 3 * w);
    MultipleOfEight(Offset(11, d), 44 * q + 3 * w);
    MultipleOfEight(Offset(13, d), 56 * q + 3 * w);
    MultipleOfEight(Offset(15, d), 60 * q + d.responses + 3 * w);
    MultipleOfEight(Offset(17, d), 69 * q + d.responses + 3 * w);
  }

  lemma MultipleOfEight(x: nat, k: nat)
    requires x == 8 * k
    ensures x % 8 == 0
  {
  }

  lemma WideOffsetOdd(d: Dims, w: nat)
    requires d.seqLen % 8 == 0 && d.windows == 2 * w + 1
    ensures Offset(BURST_DURATIONS, d) % 8 == 4
  {
    var q := d.seqLen / 8;
    WideOffsets(d, q);
    HalfwayToEight(Offset(10, d), 36 * q + 3 * w + 1);
  }

  lemma HalfwayToEight(x: nat, k: nat)
    requires x == 8 * k + 4
    ensures x % 8 == 4
  {
  }

  lemma WideOffsets(d: Dims, q: nat)
    requires d.seqLen == 8 * q
    ensures Offset(2, d) == 8 * (8 * q) && Offset(3, d) == 8 * (16 * q)
    ensures Offset(10, d) == 8 * (36 * q) + 12 * d.windows && Offset(11, d) == 8 * (44 * q) + 12 * d.windows
    ensures Offset(13, d) == 8 * (56 * q) + 12 * d.windows
    ensures Offset(15, d) == 8 * (60 * q + d.responses) + 12 * d.windows
    ensures Offset(17, d) == 8 * (69 * q + d.responses) + 12 * d.windows
  {
    ArrayOffsets(d);
    RingOffsets(d);
  }
}
