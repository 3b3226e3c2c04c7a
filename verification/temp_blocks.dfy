/** The temporary area under any sequence of requests. */
module TempBlocks {
  import opened BitMask
  import opened MemoryPool

  /** A request asks for `size` bytes aligned to `2^log`; a reset gives everything back. */
  datatype Request = Alloc(size: nat, log: nat) | Reset

  datatype Block = Block(at: nat, size: nat, log: nat)

  /** Where the next block may go, and the blocks handed out since the area last started over. */
  datatype Area = Area(offset: nat, live: seq<Block>)

  predicate Legal(r: Request)
  {
    r.Alloc? ==> r.log < 64
  }

  /** A request that is refused: nothing, or more than the whole area. */
  predicate Refused(r: Request, capacity: nat)
  {
    r.Alloc? && (r.size == 0 || r.size > capacity)
  }

  /** What the pool does with a request; a block that had to go back to the start invalidates all
      blocks before it. */
  function Serve(area: Area, r: Request, capacity: nat): Area
    requires Legal(r)
  {
    if r.Reset? then Area(0, [])
    else if Refused(r, capacity) then area
    else
      AlignmentFits(r.log);
      var at := TempPlace(area.offset, r.size, Pow2(r.log), capacity);
      var block := Block(at, r.size, r.log);
      Area(at + r.size, if at < area.offset then [block] else area.live + [block])
  }

  function ServeAll(requests: seq<Request>, capacity: nat): Area
    requires forall r <- requests :: Legal(r)
  {
    if requests == [] then Area(0, [])
    else Serve(ServeAll(requests[..|requests| - 1], capacity), requests[|requests| - 1], capacity)
  }

  lemma AlignmentFits(log: nat)
    requires log < 64
    ensures 1 <= Pow2(log) <= SIZE_MAX
  {
    Pow2Monotone(log, 63);
    WordPowers();
  }

  predicate Aligned(b: Block)
  {
    IsMultiple(b.at, Pow2(b.log))
  }

  /** Aligned, not empty blocks, each behind the one before, and all before `end`. */
  predicate Stacked(live: seq<Block>, end: nat)
  {
    live == [] ||
    var b := live[|live| - 1];
    Aligned(b) && b.size > 0 && b.at + b.size <= end && Stacked(live[..|live| - 1], b.at)
  }

  predicate Sound(area: Area, capacity: nat)
  {
    area.offset <= capacity && Stacked(area.live, area.offset)
  }

  /** Whatever is asked for, in whatever order, the area stays sound. */
  lemma {:induction false} BlocksStayStacked(requests: seq<Request>, capacity: nat)
    requires forall r <- requests :: Legal(r)
    requires capacity + Pow2(63) <= SIZE_MAX
    ensures Sound(ServeAll(requests, capacity), capacity)
  {
    if requests != [] {
      var front, last := requests[..|requests| - 1], requests[|requests| - 1];
      BlocksStayStacked(front, capacity);
      assert last in requests && Legal(last);
      ServeKeepsSound(ServeAll(front, capacity), last, capacity);
    }
  }

  lemma ServeKeepsSound(area: Area, r: Request, capacity: nat)
    requires Legal(r) && Sound(area, capacity) && capacity + Pow2(63) <= SIZE_MAX
    ensures Sound(Serve(area, r, capacity), capacity)
  {
    if r.Alloc? && !Refused(r, capacity) {
      AlignmentFits(r.log);
      PlaceIsAligned(area.offset, r.size, r.log, capacity);
      hide TempPlace, Pow2, IsMultiple;
      var at := TempPlace(area.offset, r.size, Pow2(r.log), capacity);
      var block := Block(at, r.size, r.log);
      StackOneMore([], 0, block);
      assert [] + [block] == [block];
      if at >= area.offset {
        StackOneMore(area.live, area.offset, block);
      }
    }
  }

  lemma StackOneMore(live: seq<Block>, end: nat, b: Block)
    requires Stacked(live, end) && end <= b.at && Aligned(b) && b.size > 0
    ensures Stacked(live + [b], b.at + b.size)
  {
    var more := live + [b];
    assert more[..|more| - 1] == live;
  }

  /** Blocks handed out since the area last started over: every one is in bounds and aligned, and no
      two share a byte. */
  lemma BlocksNeverOverlap(requests: seq<Request>, capacity: nat, i: nat, j: nat)
    requires forall r <- requests :: Legal(r)
    requires capacity + Pow2(63) <= SIZE_MAX
    requires i < j < |ServeAll(requests, capacity).live|
    ensures var live := ServeAll(requests, capacity).live;
            && Aligned(live[i]) && Aligned(live[j])
            && live[i].at + live[i].size <= live[j].at < live[j].at + live[j].size <= capacity
  {
    BlocksStayStacked(requests, capacity);
    var area := ServeAll(requests, capacity);
    hide ServeAll;
    StackedAt(area.live, area.offset, j);
    StackedAt(area.live[..j], area.live[j].at, i);
  }

  lemma {:induction false} StackedAt(live: seq<Block>, end: nat, k: nat)
    requires Stacked(live, end) && k < |live|
    ensures Aligned(live[k]) && live[k].size > 0 && live[k].at + live[k].size <= end
    ensures Stacked(live[..k], live[k].at)
  {
    var n := |live| - 1;
    if k < n {
      StackedAt(live[..n], live[n].at, k);
      assert live[..n][..k] == live[..k];
    }
  }

  /** A block goes to the first aligned place behind the last one, or to the start of the area. */
  lemma PlaceIsAligned(offset: nat, size: nat, log: nat, capacity: nat)
    requires log < 64 && 1 <= Pow2(log) <= SIZE_MAX
    requires offset <= capacity && 0 < size <= capacity && capacity + Pow2(63) <= SIZE_MAX
    ensures var at := TempPlace(offset, size, Pow2(log), capacity);
            && IsMultiple(at, Pow2(log)) && at + size <= capacity
            && (at >= offset ==> at < offset + Pow2(log))
            && (at < offset ==> at == 0)
            && (forall m: nat :: IsMultiple(m, Pow2(log)) && offset <= m && m + size <= capacity ==> offset <= at <= m)
  {
    hide *;
    Pow2Monotone(log, 63);
    AlignUpRounds(offset, log);
    TrivialMultiples(offset, Pow2(log));
    PlaceOf(offset, size, Pow2(log), capacity);
    forall m: nat | IsMultiple(m, Pow2(log)) && offset <= m && m + size <= capacity
      ensures offset <= TempPlace(offset, size, Pow2(log), capacity) <= m
    {
      AlignUpIsLeast(offset, log, m);
    }
  }

  lemma PlaceOf(offset: nat, size: nat, alignment: nat, capacity: nat)
    requires 1 <= alignment <= SIZE_MAX
    ensures var aligned := if alignment == 1 then offset else AlignUp(offset, alignment);
            TempPlace(offset, size, alignment, capacity) == if aligned + size > capacity then 0 else aligned
  {
    hide AlignUp;
  }
}
