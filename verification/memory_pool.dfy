/** The tiered memory pool of one flow: one allocation divided among arrays, rings and a temporary
    area, replaced by a larger one as the flow grows. */
module MemoryPool {
  import opened BitMask
  import opened Memory
  import opened Layout
  import opened Regions

  const UINT_MAX: nat := 0xFFFF_FFFF

  /** Packets at which a level counts as nearly full: 80% of its slots. */
  function Threshold(level: Level): (t: nat)
    ensures t >= 1
  {
    var t := SeqLen(level) * 8 / 10;
    if t == 0 then 1 else t
  }

  /** The packet count after one more upgrade check; LARGE pools no longer count. */
  function CheckedCount(level: Level, count: nat): nat
  {
    if level == LARGE || count >= UINT_MAX then count else count + 1
  }

  /** The verdict of an upgrade check, given the count after it. */
  predicate NeedsUpgrade(level: Level, checkedCount: nat)
  {
    level != LARGE && checkedCount >= Threshold(level)
  }

  /** Where the next temporary block goes: the aligned offset, or the start of the area when the block
      does not fit behind it. */
  function TempPlace(offset: nat, size: nat, alignment: nat, capacity: nat): nat
    requires alignment <= SIZE_MAX
  {
    var aligned := if alignment > 1 then AlignUp(offset, alignment) else offset;
    if aligned + size > capacity then 0 else aligned
  }

  class FlowMemPool {
    var dynamicMem: array?<Byte>
    var dynamicMemSize: nat
    var dynamicMemOffset: nat
    // Positions below are offsets into dynamicMem.
    var tempMem: nat
    var tempMemSize: nat
    var tempMemOffset: nat
    var arrays: seq<nat>
    var ringBufferData: nat
    var ringBufferSize: nat
    var level: Level
    var actualSeqLen: nat
    var currentPktCount: nat
    var needsUpgrade: bool
    var numWindows: nat
    var respDelayCapacity: nat

    constructor ()
      ensures dynamicMem == null
    {
      dynamicMem := null;
      arrays := [];
      level := TINY;
    }

    function Dimensions(): Dims
      reads this`actualSeqLen, this`numWindows, this`respDelayCapacity
    {
      Dims(actualSeqLen, numWindows, respDelayCapacity)
    }

    /** The first `n` arrays are packed one behind the other, and the next free byte follows them. */
    ghost predicate Packed(n: nat)
      reads this`arrays, this`dynamicMemOffset, this`actualSeqLen, this`numWindows, this`respDelayCapacity
    {
      && |arrays| == n && dynamicMemOffset == Offset(n, Dimensions())
      && forall r :: 0 <= r < n ==> arrays[r] == Offset(r, Dimensions())
    }

    /** The pool's pointers divide its block the way the layout says. */
    ghost predicate LaidOut()
      reads this`dynamicMem, this`dynamicMemSize, this`dynamicMemOffset, this`tempMem, this`tempMemSize, this`tempMemOffset
      reads this`arrays, this`ringBufferData, this`ringBufferSize, this`level, this`actualSeqLen, this`numWindows
      reads this`respDelayCapacity
    {
      && WordSized(numWindows, respDelayCapacity)
      && actualSeqLen == SeqLen(level)
      && dynamicMem != null
      && dynamicMem.Length == dynamicMemSize == CalcSizeEx(level, numWindows, respDelayCapacity)
      && Packed(ARRAYS)
      && ringBufferData == dynamicMemOffset
      && tempMemSize == TEMP_SIZE
      && ringBufferData + ringBufferSize == tempMem
      && tempMem + TEMP_SIZE == dynamicMemSize
      && tempMemOffset <= TEMP_SIZE
    }

    /** What the regions of the block hold. */
    ghost predicate Stores(lists: seq<seq<int>>)
      reads this`dynamicMem, this`actualSeqLen, this`numWindows, this`respDelayCapacity, dynamicMem
    {
      dynamicMem != null && Represents(dynamicMem[..], Dimensions(), lists)
    }

    /** Reserves the next array of the block. */
    method AllocArray(count: nat, size: nat)
      requires Packed(|arrays|)
      requires count == Slots(|arrays|, Dimensions()) && size == ElemSize(|arrays|)
      modifies this`arrays, this`dynamicMemOffset
      ensures |arrays| == old(|arrays|) + 1 && Packed(|arrays|)
    {
      arrays := arrays + [dynamicMemOffset];
      dynamicMemOffset := dynamicMemOffset + count * size;
    }

    method AllocArrays(seqLen: nat, windows: nat, responses: nat)
      requires Packed(0) && Dimensions() == Dims(seqLen, windows, responses)
      modifies this`arrays, this`dynamicMemOffset
      ensures Packed(ARRAYS)
    {
      AllocArray(seqLen, 4);      // fwd_pkt_lens
      AllocArray(seqLen, 4);      // bwd_pkt_lens
      AllocArray(seqLen, 8);      // fwd_iats
      AllocArray(seqLen, 8);      // bwd_iats
      AllocArray(seqLen, 4);      // fwd_payload_sizes
      AllocArray(seqLen, 4);      // bwd_payload_sizes
      AllocArray(windows, 4);     // window_pkt_counts
      AllocArray(windows, 4);     // window_byte_counts
      AllocArray(windows, 4);     // window_bitrate
      AllocArray(seqLen, 4);      // burst_sizes
      AllocArray(seqLen, 8);      // burst_durations
      AllocArray(seqLen, 8);      // burst_intervals
      AllocArray(seqLen, 4);      // burst_packet_counts
      AllocArray(responses, 8);   // resp_delays
    }

    /** Zeroes the pool and records its level and sizes. */
    method Clear(level: Level, windows: nat, responses: nat)
      modifies this
      ensures dynamicMem == null && dynamicMemOffset == tempMemOffset == 0 && arrays == []
      ensures this.level == level && actualSeqLen == SeqLen(level) && currentPktCount == 0 && !needsUpgrade
      ensures numWindows == windows && respDelayCapacity == responses
    {
      dynamicMem, dynamicMemSize, dynamicMemOffset := null, 0, 0;
      tempMem, tempMemSize, tempMemOffset := 0, 0, 0;
      arrays, ringBufferData, ringBufferSize := [], 0, 0;
      this.level, actualSeqLen := level, SeqLen(level);
      currentPktCount, needsUpgrade := 0, false;
      numWindows, respDelayCapacity := windows, responses;
    }

    /** Divides a block of the right size among arrays, rings and the temporary area. */
    method Carve(block: array<Byte>)
      requires WordSized(numWindows, respDelayCapacity) && actualSeqLen == SeqLen(level)
      requires arrays == [] && dynamicMemOffset == tempMemOffset == 0
      requires block.Length == CalcSizeEx(level, numWindows, respDelayCapacity)
      modifies this`dynamicMem, this`dynamicMemSize, this`dynamicMemOffset, this`arrays, this`tempMem, this`tempMemSize
      modifies this`ringBufferData, this`ringBufferSize
      ensures LaidOut() && dynamicMem == block
    {
      SizeCoversLayout(level, numWindows, respDelayCapacity);
      RegionsDisjoint(ARRAYS, REGIONS, Dimensions());
      AllocArrays(actualSeqLen, numWindows, respDelayCapacity);
      dynamicMem, dynamicMemSize := block, block.Length;
      tempMemSize := TEMP_SIZE;
      tempMem := block.Length - TEMP_SIZE;
      ringBufferData := dynamicMemOffset;
      ringBufferSize := block.Length - dynamicMemOffset - TEMP_SIZE;
    }

    method InitEx(level: Level, windows: nat, responses: nat, mallocOk: bool) returns (rc: int)
      requires WordSized(windows, responses)
      modifies this
      ensures rc == if mallocOk then 0 else -1
      ensures rc != 0 ==> dynamicMem == null
      ensures this.level == level && numWindows == windows && respDelayCapacity == responses
      ensures currentPktCount == 0 && !needsUpgrade && tempMemOffset == 0
      ensures rc == 0 ==> LaidOut() && fresh(dynamicMem)
      ensures rc == 0 ==> forall i :: 0 <= i < dynamicMem.Length ==> dynamicMem[i] == Zero
    {
      Clear(level, windows, responses);
      if !mallocOk {
        return -1;
      }
      var total := CalcSizeEx(level, windows, responses);
      var block := new Byte[total](_ => Zero);
      Carve(block);
      rc := 0;
    }

    /** A zeroed pool holds zero window counters and otherwise nothing. */
    lemma ZeroedStores()
      requires LaidOut() && forall i :: 0 <= i < dynamicMem.Length ==> dynamicMem[i] == Zero
      ensures Stores(EmptyLists(numWindows))
    {
      SizeCoversLayout(level, numWindows, respDelayCapacity);
      ZeroedBlock(dynamicMem[..], Dimensions());
    }

    /** Counts a packet and says whether the pool should move to the next level. */
    method CheckUpgrade() returns (upgrade: bool)
      requires actualSeqLen == SeqLen(level)
      modifies this`currentPktCount, this`needsUpgrade
      ensures currentPktCount == CheckedCount(level, old(currentPktCount))
      ensures upgrade == NeedsUpgrade(level, currentPktCount)
      ensures level == LARGE || old(currentPktCount) >= 0xFFFF_FFFF ==> currentPktCount == old(currentPktCount)
      ensures level != LARGE && old(currentPktCount) < 0xFFFF_FFFF ==> currentPktCount == old(currentPktCount) + 1
      ensures upgrade <==> || (level == TINY && currentPktCount >= 51) || (level == SMALL && currentPktCount >= 204)
                           || (level == MEDIUM && currentPktCount >= 800)
      ensures needsUpgrade == if level == LARGE then false else upgrade || old(needsUpgrade)
    {
      if level == LARGE {
        needsUpgrade := false;
        return false;
      }
      if currentPktCount < UINT_MAX {
        currentPktCount := currentPktCount + 1;
      }
      var threshold := (actualSeqLen * 8) / 10;
      if threshold == 0 {
        threshold := 1;
      }
      if currentPktCount >= threshold {
        needsUpgrade := true;
        return true;
      }
      return false;
    }

    /** Copies the first `copySlots` elements of the next array to its place in the new block. */
    method UpgradeArray(newMem: array<Byte>, oldMem: array<Byte>, oldAt: nat, offset: nat, size: nat, copySlots: nat,
                        newSlots: nat, ghost d: Dims, ghost d0: Dims, ghost lists: seq<seq<int>>)
      returns (next: nat)
      requires newMem != oldMem && |arrays| < ARRAYS && Represents(oldMem[..], d0, lists)
      requires HoldsFirst(newMem[..], d, lists, |arrays|) && Offset(REGIONS, d) <= newMem.Length
      requires |lists[|arrays|]| <= copySlots <= Slots(|arrays|, d0) && copySlots <= Slots(|arrays|, d) == newSlots
      requires oldAt == Offset(|arrays|, d0) && offset == Offset(|arrays|, d) && size == ElemSize(|arrays|)
      requires forall r :: 0 <= r < |arrays| ==> arrays[r] == Offset(r, d)
      modifies newMem, this`arrays
      ensures |arrays| == old(|arrays|) + 1 && HoldsFirst(newMem[..], d, lists, |arrays|)
      ensures forall r :: 0 <= r < |arrays| ==> arrays[r] == Offset(r, d)
      ensures next == Offset(|arrays|, d)
    {
      CopyRegion(newMem[..], d, oldMem[..], d0, lists, |arrays|, copySlots);
      arrays := arrays + [offset];
      if copySlots > 0 {
        MemCpy(newMem, offset, oldMem[oldAt..At(oldAt, size, copySlots)]);
      } else {
        assert newMem[..] == Splice(newMem[..], offset, []);
      }
      next := At(offset, size, newSlots);
    }

    /** Lays the fourteen arrays out in the new block, with their contents: the per-direction arrays
        first, then the window, burst and response-delay arrays. */
    method UpgradeArrays(newMem: array<Byte>, oldMem: array<Byte>, from: seq<nat>, copySeqLen: nat, newSeqLen: nat,
                         ghost d: Dims, ghost d0: Dims, ghost lists: seq<seq<int>>)
      returns (next: nat)
      requires newMem != oldMem && |from| == ARRAYS && Represents(oldMem[..], d0, lists)
      requires forall r :: 0 <= r < ARRAYS ==> |lists[r]| <= Slots(r, d0)
      requires Offset(REGIONS, d) <= newMem.Length
      requires d == Dims(newSeqLen, numWindows, respDelayCapacity)
      requires d0.windows == numWindows && d0.responses == respDelayCapacity
      requires copySeqLen == d0.seqLen <= newSeqLen
      requires forall r :: 0 <= r < ARRAYS ==> from[r] == Offset(r, d0)
      modifies newMem, this`arrays
      ensures HoldsFirst(newMem[..], d, lists, ARRAYS)
      ensures |arrays| == ARRAYS && forall r :: 0 <= r < ARRAYS ==> arrays[r] == Offset(r, d)
      ensures next == Offset(ARRAYS, d)
    {
      arrays := [];
      next := 0;
      next := UpgradeArray(newMem, oldMem, from[0], next, 4, copySeqLen, newSeqLen, d, d0, lists);
      next := UpgradeArray(newMem, oldMem, from[1], next, 4, copySeqLen, newSeqLen, d, d0, lists);
      next := UpgradeArray(newMem, oldMem, from[2], next, 8, copySeqLen, newSeqLen, d, d0, lists);
      next := UpgradeArray(newMem, oldMem, from[3], next, 8, copySeqLen, newSeqLen, d, d0, lists);
      next := UpgradeArray(newMem, oldMem, from[4], next, 4, copySeqLen, newSeqLen, d, d0, lists);
      next := UpgradeArray(newMem, oldMem, from[5], next, 4, copySeqLen, newSeqLen, d, d0, lists);
      next := UpgradeLaterArrays(newMem, oldMem, from, next, copySeqLen, newSeqLen, d, d0, lists);
    }

    method UpgradeLaterArrays(newMem: array<Byte>, oldMem: array<Byte>, from: seq<nat>, offset: nat, copySeqLen: nat,
                              newSeqLen: nat, ghost d: Dims, ghost d0: Dims, ghost lists: seq<seq<int>>)
      returns (next: nat)
      requires newMem != oldMem && |from| == ARRAYS && Represents(oldMem[..], d0, lists)
      requires forall r :: 0 <= r < ARRAYS ==> |lists[r]| <= Slots(r, d0)
      requires Offset(REGIONS, d) <= newMem.Length
      requires d == Dims(newSeqLen, numWindows, respDelayCapacity)
      requires d0.windows == numWindows && d0.responses == respDelayCapacity
      requires copySeqLen == d0.seqLen <= newSeqLen
      requires forall r :: 0 <= r < ARRAYS ==> from[r] == Offset(r, d0)
      requires |arrays| == 6 && offset == Offset(6, d) && HoldsFirst(newMem[..], d, lists, 6)
      requires forall r :: 0 <= r < |arrays| ==> arrays[r] == Offset(r, d)
      modifies newMem, this`arrays
      ensures HoldsFirst(newMem[..], d, lists, ARRAYS)
      ensures |arrays| == ARRAYS && forall r :: 0 <= r < ARRAYS ==> arrays[r] == Offset(r, d)
      ensures next == Offset(ARRAYS, d)
    {
      next := offset;
      next := UpgradeArray(newMem, oldMem, from[6], next, 4, numWindows, numWindows, d, d0, lists);
      next := UpgradeArray(newMem, oldMem, from[7], next, 4, numWindows, numWindows, d, d0, lists);
      next := UpgradeArray(newMem, oldMem, from[8], next, 4, numWindows, numWindows, d, d0, lists);
      next := UpgradeArray(newMem, oldMem, from[9], next, 4, copySeqLen, newSeqLen, d, d0, lists);
      next := UpgradeArray(newMem, oldMem, from[10], next, 8, copySeqLen, newSeqLen, d, d0, lists);
      next := UpgradeArray(newMem, oldMem, from[11], next, 8, copySeqLen, newSeqLen, d, d0, lists);
      next := UpgradeArray(newMem, oldMem, from[12], next, 4, copySeqLen, newSeqLen, d, d0, lists);
      next := UpgradeArray(newMem, oldMem, from[13], next, 8, respDelayCapacity, respDelayCapacity, d, d0, lists);
    }

    /** Copies the old ring area, as it is, to where the new one starts. */
    method CopyRingBytes(newMem: array<Byte>, oldMem: array<Byte>, oldAt: nat, oldSize: nat, newAt: nat, newSize: nat,
                         ghost d: Dims, ghost lists: seq<seq<int>>)
      requires newMem != oldMem && |lists| == REGIONS
      requires oldAt + oldSize <= oldMem.Length && newAt + newSize <= newMem.Length
      requires newAt == Offset(ARRAYS, d) && HoldsFirst(newMem[..], d, lists, ARRAYS)
      modifies newMem
      ensures HoldsFirst(newMem[..], d, lists, ARRAYS)
    {
      if oldSize > 0 && newSize > 0 {
        var n := if oldSize < newSize then oldSize else newSize;
        TailWriteKept(newMem[..], d, lists, ARRAYS, newAt, oldMem[oldAt..oldAt + n]);
        MemCpy(newMem, newAt, oldMem[oldAt..oldAt + n]);
      }
    }

    /** Moves the pool to a larger block.  The arrays keep their contents; the rings have to be bound
        again, since the raw copy of their bytes does not follow the new layout. */
    method Upgrade(newLevel: Level, mallocOk: bool, ghost lists: seq<seq<int>>) returns (rc: int)
      requires LaidOut() && Stores(lists)
      modifies this
      ensures rc == if Rank(newLevel) > Rank(old(level)) && mallocOk then 0 else -1
      ensures rc != 0 ==> unchanged(this) && unchanged(dynamicMem)
      ensures rc == 0 ==> LaidOut() && fresh(dynamicMem) && level == newLevel && actualSeqLen == SeqLen(newLevel)
      ensures rc == 0 ==> !needsUpgrade && tempMemOffset == 0
      ensures currentPktCount == old(currentPktCount) && numWindows == old(numWindows)
      ensures respDelayCapacity == old(respDelayCapacity)
      ensures rc == 0 ==> Stores(ArraysOnly(lists))
    {
      if Rank(newLevel) <= Rank(level) {
        return -1;
      }
      var newSeqLen := SeqLen(newLevel);
      var copySeqLen := if actualSeqLen < newSeqLen then actualSeqLen else newSeqLen;
      var newSize := CalcSizeEx(newLevel, numWindows, respDelayCapacity);
      if !mallocOk {
        return -1;
      }
      var newMem := new Byte[newSize](_ => Zero);
      Relocate(newMem, newLevel, copySeqLen, newSeqLen, lists);
      rc := 0;
    }

    method Relocate(newMem: array<Byte>, newLevel: Level, copySeqLen: nat, newSeqLen: nat, ghost lists: seq<seq<int>>)
      requires LaidOut() && Stores(lists) && newMem != dynamicMem
      requires newSeqLen == SeqLen(newLevel) && copySeqLen == actualSeqLen <= newSeqLen
      requires newMem.Length == CalcSizeEx(newLevel, numWindows, respDelayCapacity)
      modifies this, newMem
      ensures dynamicMem == newMem && level == newLevel && !needsUpgrade && tempMemOffset == 0
      ensures LaidOut()
      ensures currentPktCount == old(currentPktCount) && numWindows == old(numWindows)
      ensures respDelayCapacity == old(respDelayCapacity)
      ensures Stores(ArraysOnly(lists))
    {
      hide *;
      ghost var d := Dims(newSeqLen, numWindows, respDelayCapacity);
      OldBlock(lists);
      NewBlockFits(newLevel, numWindows, respDelayCapacity);
      var ringsAt, newRingSize := CopyBlock(newMem, copySeqLen, newSeqLen, d, lists);
      Install(newMem, newLevel, newSeqLen, ringsAt, newRingSize);
      NowStores(lists);
    }

    /** Copies the arrays to their places in the new block, and the bytes of the rings behind them. */
    method CopyBlock(newMem: array<Byte>, copySeqLen: nat, newSeqLen: nat, ghost d: Dims, ghost lists: seq<seq<int>>)
      returns (ringsAt: nat, newRingSize: nat)
      requires LaidOut() && Stores(lists) && newMem != dynamicMem && |lists| == REGIONS
      requires copySeqLen == actualSeqLen <= newSeqLen && d == Dims(newSeqLen, numWindows, respDelayCapacity)
      requires Offset(ARRAYS, d) <= Offset(REGIONS, d) <= newMem.Length - TEMP_SIZE
      modifies newMem, this`arrays
      ensures |lists| == REGIONS && Represents(newMem[..], d, ArraysOnly(lists))
      ensures |arrays| == ARRAYS && forall r :: 0 <= r < ARRAYS ==> arrays[r] == Offset(r, d)
      ensures ringsAt == Offset(ARRAYS, d) && newMem.Length == ringsAt + newRingSize + TEMP_SIZE
    {
      OldBlock(lists);
      hide *;
      ringsAt := UpgradeArrays(newMem, dynamicMem, arrays, copySeqLen, newSeqLen, d, Dimensions(), lists);
      newRingSize := newMem.Length - ringsAt - TEMP_SIZE;
      CopyRingBytes(newMem, dynamicMem, ringBufferData, ringBufferSize, ringsAt, newRingSize, d, lists);
      ArraysRepresent(newMem[..], d, lists);
    }

    /** What a laid out pool that stores `lists` offers for copying. */
    lemma OldBlock(lists: seq<seq<int>>)
      requires LaidOut() && Stores(lists)
      ensures WordSized(numWindows, respDelayCapacity)
      ensures |arrays| == ARRAYS && forall r :: 0 <= r < ARRAYS ==> arrays[r] == Offset(r, Dimensions())
      ensures |lists| == REGIONS && forall r :: 0 <= r < ARRAYS ==> |lists[r]| <= Slots(r, Dimensions())
      ensures dynamicMem != null && Represents(dynamicMem[..], Dimensions(), lists)
      ensures ringBufferData + ringBufferSize <= dynamicMem.Length
      ensures Dimensions() == Dims(actualSeqLen, numWindows, respDelayCapacity) && ARRAYS < REGIONS
    {
      ArraysFit(lists);
      hide Layout.Offset, Layout.CalcSizeEx, Layout.Slots, Layout.ElemSize;
    }

    lemma NowStores(lists: seq<seq<int>>)
      requires dynamicMem != null && |lists| == REGIONS
      requires Represents(dynamicMem[..], Dims(actualSeqLen, numWindows, respDelayCapacity), ArraysOnly(lists))
      ensures Stores(ArraysOnly(lists))
    {
    }

    lemma ArraysFit(lists: seq<seq<int>>)
      requires Stores(lists)
      ensures |lists| == REGIONS && forall r :: 0 <= r < ARRAYS ==> |lists[r]| <= Slots(r, Dimensions())
    {
      forall r | 0 <= r < ARRAYS
        ensures |lists[r]| <= Slots(r, Dimensions())
      {
        HoldsAt(dynamicMem[..], Dimensions(), lists, REGIONS, r);
      }
    }

    lemma NewBlockFits(newLevel: Level, windows: nat, responses: nat)
      requires WordSized(windows, responses)
      ensures var d := Dims(SeqLen(newLevel), windows, responses);
              Offset(ARRAYS, d) <= Offset(REGIONS, d) <= CalcSizeEx(newLevel, windows, responses) - TEMP_SIZE
    {
      SizeCoversLayout(newLevel, windows, responses);
      RegionsDisjoint(ARRAYS, REGIONS, Dims(SeqLen(newLevel), windows, responses));
    }

    /** Points the pool at its new block. */
    method Install(newMem: array<Byte>, newLevel: Level, newSeqLen: nat, ringsAt: nat, newRingSize: nat)
      requires WordSized(numWindows, respDelayCapacity) && newSeqLen == SeqLen(newLevel)
      requires newMem.Length == CalcSizeEx(newLevel, numWindows, respDelayCapacity)
      requires newMem.Length == ringsAt + newRingSize + TEMP_SIZE
      requires ringsAt == Offset(ARRAYS, Dims(newSeqLen, numWindows, respDelayCapacity)) && |arrays| == ARRAYS
      requires forall r :: 0 <= r < ARRAYS ==> arrays[r] == Offset(r, Dims(newSeqLen, numWindows, respDelayCapacity))
      modifies this`dynamicMem, this`dynamicMemSize, this`dynamicMemOffset, this`ringBufferData, this`ringBufferSize
      modifies this`tempMem, this`tempMemSize, this`tempMemOffset, this`level, this`actualSeqLen, this`needsUpgrade
      ensures dynamicMem == newMem && level == newLevel && !needsUpgrade && tempMemOffset == 0
      ensures LaidOut()
    {
      PlaceAreas(ringsAt, newRingSize, newMem.Length - TEMP_SIZE);
      dynamicMem, dynamicMemSize := newMem, newMem.Length;
      level, actualSeqLen, needsUpgrade := newLevel, newSeqLen, false;
    }

    /** The ring area follows the arrays, the scratch area follows the rings. */
    method PlaceAreas(ringsAt: nat, newRingSize: nat, tempAt: nat)
      modifies this`dynamicMemOffset, this`ringBufferData, this`ringBufferSize
      modifies this`tempMem, this`tempMemSize, this`tempMemOffset
      ensures dynamicMemOffset == ringBufferData == ringsAt && ringBufferSize == newRingSize
      ensures tempMem == tempAt && tempMemSize == TEMP_SIZE && tempMemOffset == 0
    {
      dynamicMemOffset, ringBufferData, ringBufferSize := ringsAt, ringsAt, newRingSize;
      tempMemSize, tempMem, tempMemOffset := TEMP_SIZE, tempAt, 0;
    }

    /** Position of a ring's data area, or -1; only the start of the area is checked. */
    method GetRingBuffer(offset: nat) returns (at: int)
      ensures at == if offset >= ringBufferSize then -1 else ringBufferData + offset
    {
      if offset >= ringBufferSize {
        return -1;
      }
      return ringBufferData + offset;
    }

    /** Hands out a block of the temporary area, or -1; when the area is used up it starts over. */
    method AllocTemp(size: nat, alignment: nat) returns (at: int)
      requires alignment <= SIZE_MAX
      modifies this`tempMemOffset
      ensures at == -1 <==> size == 0 || size > tempMemSize
      ensures at == -1 ==> tempMemOffset == old(tempMemOffset)
      ensures at != -1 ==> at == tempMem + TempPlace(old(tempMemOffset), size, alignment, tempMemSize)
      ensures at != -1 ==> tempMemOffset == at - tempMem + size
    {
      if size == 0 {
        return -1;
      }
      if size > tempMemSize {
        return -1;
      }
      var offset := tempMemOffset;
      if alignment > 1 {
        offset := AlignUp(offset, alignment);
      }
      if offset + size > tempMemSize {
        tempMemOffset := 0;
        offset := 0;
      }
      at := tempMem + offset;
      tempMemOffset := offset + size;
    }

    method ResetTemp()
      modifies this`tempMemOffset
      ensures tempMemOffset == 0
    {
      tempMemOffset := 0;
    }
  }
}
