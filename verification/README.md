# Verification of the flow feature extractor

`ti_features` follows every TCP and UDP flow packet by packet and, when a flow closes, turns what it
has kept into some hundreds of features. This project models the parts of it that hold state or run
an algorithm, and proves what they promise.

**Tiered flow memory.** All sequences of a flow live in one block: fourteen arrays, thirteen ring
buffers and a scratch area. A flow starts with 64 slots per sequence and is moved, while it runs, to
256, 1000 and 5000 slots. A move saves the rings, allocates a larger block, lays it out anew, copies
the arrays, and rebuilds every ring from its saved copy. The memory is modelled byte by byte
(`memory.dfy`): a stored number leaves fragments that only together can be read back, so a write into
a neighbour would be noticed. On it stand the layout (`layout.dfy`, `regions.dfy`), the rings
(`circular_buffer.dfy`), the pool (`memory_pool.dfy`) and the flow state with its per-packet update
(`flow_state.dfy`). `flow_spec.dfy`, `burst_spec.dfy` and `window_spec.dfy` say the same in terms of
plain lists, and the method for a data packet is proved to do exactly what they say. `tiering.dfy`
then proves, over all runs, that consumers cannot tell which levels a flow went through, and what the
rings still hold, and how they line up, when the larger block or the saved copy of a ring gets no memory.
`recordings.dfy` says what all this has recorded in terms of the packets alone, by filters over the trace
that share nothing with the step-by-step specification. `whole_flow.dfy` closes the circle: it runs the in-place state over a whole trace and reads the promises
back from its bytes.

**State machines over a run.** `bursts.dfy`, `windows.dfy`, `responses.dfy` and `bigrams.dfy` say
what the flow's counters mean after any sequence of packets, and `temp_blocks.dfy` what the scratch
allocator guarantees after any sequence of requests.

**Sequence and selection algorithms.** `lz78.dfy`, `run_length.dfy`, `chunks.dfy`, `rates.dfy`,
`top_k.dfy`, `quantiles.dfy`, `percentile.dfy` and `insertion_sort.dfy` prove loops against simple
specifications.

**Statistics.** `running_stats.dfy`, `higher_moments.dfy`, `moments.dfy`, `pearson.dfy` and
`chi_square.dfy` relate one-pass formulas to what they stand for, over the reals. `real_algebra.dfy` and
`real_sums.dfy` hold the algebra, `common.dfy` what several parts share.

Choices made throughout:

- Doubles are `real`; `sqrt` is any function that gives the root that is not negative.
- Unsigned 64-bit differences wrap (`Sub64`), and conversions to 32 bits truncate (`Trunc32`), where
  the code has them. Counters are unbounded.
- Which calls of `malloc` succeed is a parameter of each step: for a larger pool, and for the saved copy
  of each ring.
- Response delays are stored as the microseconds that the stored number of milliseconds stands for.
- Configuration flags are fields of a record; what a packet's headers say is part of the packet.

## What turned out differently than expected

- The project's own documentation says that a flow leaves 256 slots at its 205th packet. The code
  does so at the 204th (`Tiering.LevelByPackets`).
- The size computation makes room for fourteen rings, one 64-bit ring more than are used; the excess
  is harmless (`Layout.SizeCoversLayout`).
- 64-bit elements are aligned exactly if the number of windows is even; the pool is always created
  with 100 (`Layout.WideElementsAligned`).
- The correlation of lengths and inter-arrival times needs one length more than there are times. From
  the 5001st packet on both rings are full, so it is 0 for longer flows (`Tiering.CorrelatedUpTo5000`).
- From then on, too, the combined listing of layer lengths and times shows with each packet the time
  of the packet before it (`Tiering.ListedGapLagsOnceFull`).
- A comment puts a new flow's memory at about 12 KB; its block takes 25408 bytes (`Layout.BlockSizes`).
- The first packet of a flow leaves no arrival time for its direction, so the direction's next packet adds
  no gap (`Recordings.DirectionGapsByPacket`).
- A packet 2^32 windows after the first one is counted in window 0 again
  (`Windows.TargetIsElapsedWindows`).
- Each window's bit rate is computed when the window is entered, before it has counted anything, and
  stays 0 (`Windows.WindowsTally`).
- A flow's first burst is recorded with the start time 0, and an interval is the gap that closes a
  burst (`Bursts.RecordsAreTheBursts`).
- The kurtosis of a spectrum has no guard against short inputs and differs from the guarded function
  for two and for three values (`Moments.KurtosisAgreesFromFour`).
- The unsigned median wraps when its two middle elements add up to 2^32 or more
  (`Percentiles.MedianUintIs50th`).
- The running `M3` and `M4` are not the sums of third and fourth powers of distances from the mean
  (`HigherMoments.ThirdSumIsNotCentral`, `HigherMoments.FourthSumDoesNotScale`). They differ from them by
  a drift that every update adds to, so they agree exactly for runs whose drift is 0
  (`HigherMoments.CentralIfNoDrift`).
- If an upgrade cannot save a ring it goes on with that ring empty, and the rings no longer line up
  (`Tiering.UnsavedFallsOutOfStep`) until the shorter one has been full (`Tiering.RingsLineUp`). Even then
  the correlation never pairs the wrong values: it is not computed unless the pairs are right
  (`Tiering.CorrelatedPairsNextGap`).

## Model

| member | source | states |
|---|---|---|
| `BitMask.MaskClearsLowBits` | src/utils/memory_pool.h:322-326 | masking with the complement of `2^k - 1` takes away the remainder modulo `2^k`, at any word width |
| `BitMask.AlignUpRounds` | src/utils/memory_pool.h:322-326 | the mask expression gives a multiple of a power of two that is not below the offset, and less than one multiple above it |
| `BitMask.AlignUpIsLeast` | src/utils/memory_pool.h:322-326 | no smaller multiple at or above the offset exists |
| `Layout.RegionsDisjoint` | src/utils/memory_pool.h:215-250 | every array and ring ends before any later one starts, for all dimensions |
| `Layout.SizeCoversLayout` | src/utils/memory_pool.h:125-166 | the computed size is a multiple of 64, covers all arrays, all rings and the scratch area, and exceeds the code's own sum by less than 64 |
| `Layout.BlockSizes` | src/utils/memory_pool.h:125-166 | with 100 windows and 1000 delays a block takes 25408, 49408, 142400 or 642432 bytes |
| `Layout.ArrayOffsets` | src/utils/memory_pool.h:215-242 | where each of the fourteen arrays starts, in multiples of the slots, windows and delays before it |
| `Layout.RingOffsets` | src/ti_features.cpp:299-312 | where each of the thirteen rings starts |
| `Layout.LayoutIsSound` | src/utils/memory_pool.h:125-253 | for every level, window count and response capacity, all 27 regions are disjoint and in bounds, clear of the scratch area |
| `Layout.WideElementsAligned` | src/utils/memory_pool.h:216-242 | all 64-bit regions start at multiples of 8 if and only if the number of windows is even |
| `Memory.StoreHolds` | src/ti_features.cpp:108-115 | storing an element in slot k of an array changes that element of the list the bytes represent and no other |
| `Regions.OtherRegionKept` | src/utils/memory_pool.h:215-250 | a write inside one region leaves the list of every other region as it was |
| `Regions.StoreRegion` | src/calc_iat.cpp:128-131 | storing an element of one region changes that region's list and leaves the other 26 lists alone |
| `Regions.CopyRegion` | src/utils/memory_pool.h:397-415 | copying a region into a block with another layout carries its list over, and keeps the regions copied before |
| `CircularBuffers.CircularBuffer.Push` | src/utils/circular_buffer.cpp:42-68 | the elements in order become the old ones with the new one behind, without the oldest if the ring was full; refused exactly for unusable rings |
| `CircularBuffers.CircularBuffer.Get` | src/utils/circular_buffer.cpp:71-91 | gives the address of the index-th oldest element, or none exactly if there is no such element |
| `CircularBuffers.CircularBuffer.GetArray` | src/utils/circular_buffer.cpp:94-123 | copies all elements, oldest first, into a fresh array |
| `CircularBuffers.CircularBuffer.Clear` | src/utils/circular_buffer.cpp:126-134 | leaves an empty ring on the same data area |
| `CircularBuffers.PushView` | src/utils/circular_buffer.cpp:52-65 | writing one slot and moving the indices is appending to a bounded list, for every position of the indices |
| `MemoryPool.FlowMemPool.InitEx` | src/utils/memory_pool.h:182-253 | a successful start leaves a zeroed block laid out as the layout says; a failed one leaves none |
| `MemoryPool.FlowMemPool.ZeroedStores` | src/utils/memory_pool.h:206-250 | a zeroed block represents empty sequences and window counters of 0 |
| `MemoryPool.FlowMemPool.CheckUpgrade` | src/utils/memory_pool.h:269-297 | counts the packet, up to the largest unsigned number, and asks for a move at every packet from the 51st, 204th or 800th on, by level, and never at the largest level |
| `MemoryPool.FlowMemPool.Upgrade` | src/utils/memory_pool.h:359-465 | a move to a higher level leaves a sound layout that stores the same fourteen arrays; a failed one changes nothing |
| `MemoryPool.FlowMemPool.Relocate` | src/utils/memory_pool.h:394-462 | rebuilding the layout in a new block and copying carries over the contents of all fourteen arrays |
| `MemoryPool.FlowMemPool.AllocTemp` | src/utils/memory_pool.h:315-337 | refuses empty and oversized requests; otherwise hands out the place that the scratch area's specification says |
| `TempBlocks.PlaceIsAligned` | src/utils/memory_pool.h:322-336 | a block goes to the first aligned place behind the last one where it fits, or else to the start, and ends within the area |
| `TempBlocks.BlocksNeverOverlap` | src/utils/memory_pool.h:315-345 | after any sequence of requests and resets, blocks handed out since the area last started over are aligned, in bounds and disjoint |
| `FlowState.SlotsPushed` | src/utils/circular_buffer.cpp:52-65 | a push on slots in storage order is a push on the elements in order |
| `FlowState.FlowFeatureState.PushRing` | src/utils/circular_buffer.cpp:42-68 | a push changes the pushed ring's view as the specification says and keeps the other twelve rings and all arrays |
| `FlowState.FlowFeatureState.ReadRing` | src/utils/circular_buffer.cpp:71-91 | the number read at a position of a ring is that element of the flow's view, and there is one exactly within the view |
| `FlowState.FlowFeatureState.ReadList` | src/calc_basic.cpp:455-468 | the number read from a per-direction array is that element of the flow's list, within its count |
| `FlowState.FlowFeatureState.Capture` | src/ti_features.cpp:56-73 | a saved ring holds all its elements, oldest first, and none if there is no memory for the copy |
| `FlowState.FlowFeatureState.RingAreaFits` | src/utils/memory_pool.h:348-352 | no lookup of one of the thirteen rings is refused, and each ring fits before the next one and before the scratch area |
| `FlowState.FlowFeatureState.BindTempBuffers` | src/ti_features.cpp:120-144 | both scratch arrays get their place, with 64, 256, 512 and 512 doubles at the four levels |
| `FlowState.FlowFeatureState.RebindAll` | src/ti_features.cpp:558-585 | rebuilding all rings from their saved copies gives every ring its view back and leaves the arrays alone |
| `FlowState.FlowFeatureState.Init` | src/ti_features.cpp:151-332 | a new flow state stands for a flow that has seen nothing |
| `FlowState.FlowFeatureState.CheckAndUpgrade` | src/ti_features.cpp:498-606 | the upgrade check and the move change the level as specified, empty exactly the rings whose copies got no memory, and change no other ring, no array, burst, window or response |
| `FlowState.FlowFeatureState.CollectPacket` | src/ti_features.cpp:608-673 | counters, per-direction arrays and all thirteen rings change as the one-step specification says; what that amounts to over a run is stated from the packets alone in `Recordings` |
| `FlowState.FlowFeatureState.Data` | src/ti_features.cpp:493-696 | the in-place processing of a packet does to the flow exactly what the specification's single step does, whichever allocations of an upgrade fail; `Recordings` says what a run of such steps has recorded |
| `FlowState.AllRings` | src/ti_features.cpp:608-673 | the pushes spread over the processing of a packet add up to one push per ring, computed from the clock before the packet |
| `Tiering.NeverFullBelowLarge` | src/utils/memory_pool.h:284-295 | while allocations succeed, no array or ring below the largest level is four fifths full |
| `Tiering.StepAgrees` | src/ti_features.cpp:493-696 | flows that look alike still do after a packet, if none runs out of room |
| `Tiering.TieringIsInvisible` | src/ti_features.cpp:498-606 | while allocations succeed, a flow looks after every packet as if it had had the largest pool from the start |
| `Tiering.GatesAgree` | src/ti_features.cpp:120-144 | while allocations succeed, the count of every array and ring is what it would be at the largest level, and fits the scratch space at either level exactly if it is at most 512 |
| `Tiering.LevelByPackets` | src/utils/memory_pool.h:269-297 | the level after n packets: moves happen at packets 51, 204 and 800 |
| `Tiering.LevelRises` | src/utils/memory_pool.h:269-297 | whichever allocations fail, a packet raises the level, by one, if and only if the flow has reached 51, 204 or 800 packets, by level, and the larger pool gets its memory: a refused move is tried again with every packet |
| `Tiering.RingsHoldTheLatest` | src/ti_features.cpp:86-118 | whichever allocations fail, every ring holds the latest part of what was pushed since an upgrade last failed to save it, at least as much as the starting level has slots |
| `Tiering.RingIsRecent` | src/ti_features.cpp:558-585 | however often it was lost, a ring holds the latest of all its pushes, without a gap |
| `Tiering.RememberedIsLatest` | src/ti_features.cpp:56-73 | what was pushed since a ring was last lost are its latest pushes, and all of them if its copies always get memory |
| `Tiering.RingsHoldTheLatest5000` | src/ti_features.cpp:498-606 | while allocations succeed, a ring holds its latest 5000 pushes, or all |
| `Tiering.ArraysHoldTheFirst5000` | src/calc_basic.cpp:49-69 | while allocations succeed, a per-direction array holds the first 5000 values offered to it, or all |
| `Tiering.RingsLineUp` | src/ti_features.cpp:630-640 | whichever allocations fail, the rings for lengths, directions, times and layer lengths tell of the latest packets; two of them are equally long, so that position k is about the same packet, if and only if as much was pushed to both since they were last lost or the one with less has been full since; always if they are saved together |
| `Tiering.EquallyLong` | src/ti_features.cpp:558-585 | the same condition for any two of these rings and the ring of inter-arrival times |
| `Tiering.UnsavedFallsOutOfStep` | src/ti_features.cpp:64-71 | if the copy of one ring gets no memory at packet 51, that ring has 1 element and the others 51 |
| `Tiering.GapsCatchUp` | src/calc_iat.cpp:103-160 | saved together, the ring of inter-arrival times is one shorter than those rings until they drop an element, and equally long from then on |
| `Tiering.CorrelatedUntilFull` | src/calc_sequence.cpp:336-350 | saved together, the length test of the correlation passes exactly as long as the ring of lengths has dropped nothing |
| `Tiering.CorrelatedPairsNextGap` | src/calc_sequence.cpp:336-368 | whichever allocations fail, whenever the length test passes every length is paired with the time to the next packet |
| `Tiering.CorrelatedUpTo5000` | src/calc_sequence.cpp:336-368 | while allocations succeed, it passes exactly for 1 to 5000 packets, and then pairs each length with the time to the next packet |
| `Tiering.ListedGapLagsOnceFull` | src/calc_sequence.cpp:602-627 | which gap is listed with a packet's layer lengths, whichever allocations fail; saved together it is that packet's until the rings are full, and the packet before's from then on |
| `Tiering.CountersAreSums` | src/calc_basic.cpp:38-70 | packet and byte counters, in all and per direction, are the sums over the run |
| `Tiering.ActiveAndIdleCoverFlow` | src/calc_iat.cpp:162-172 | active and idle time add up to the time from the first packet to the last |
| `Recordings.ArraysByPacket` | src/calc_basic.cpp:49-108 | while allocations succeed, the arrays of lengths and payload sizes hold the first 5000 lengths, and sizes above 0, of the forward packets and of the backward ones |
| `Recordings.DirectionGapsByPacket` | src/calc_iat.cpp:119-155 | while allocations succeed, the arrays of times per direction hold the first 5000 gaps between successive packets of the direction, the first packet of the flow left out |
| `Recordings.RingsByPacket` | src/ti_features.cpp:630-640 | whichever allocations fail, the rings of lengths, directions, times and layer lengths hold the latest ones of all packets, and the latest 5000 while allocations succeed |
| `Recordings.HeaderRingsByPacket` | src/calc_protocol.cpp:96-156 | the same for window sizes of TCP packets, UDP lengths (payload and 8 bytes), TTL and TOS of packets with headers, and payload sizes above 0 |
| `Recordings.DifferenceRingsByPacket` | src/calc_iat.cpp:142-145 | the same for the times between successive packets and the distances between successive payload sizes |
| `Recordings.ActiveAndIdleTimes` | src/calc_iat.cpp:162-172 | active time is the sum of the gaps up to the threshold, idle time that of the longer ones, and both are 0 if switched off |
| `Recordings.WindowsByPacket` | src/calc_window.cpp:7-47 | whichever allocations fail, window w of the hundred counts the packets and bytes whose 64-bit time since the first packet, over 1000 times the size in milliseconds, is w in 32 bits; all bit rates are 0 |
| `Recordings.WindowsByTime` | src/calc_window.cpp:14-46 | for times in order and less than 2^32 windows, window w counts exactly the packets and bytes from w to w + 1 window lengths after the first packet |
| `Recordings.CurrentWindow` | src/calc_window.cpp:16-40 | for times in order, the first window starts with the first packet and the current window is one past the latest packet's, at most 100 |
| `Recordings.SwitchedOff` | src/ti_features.cpp:642-696 | bursts, windows and responses that are switched off stay empty |
| `WholeFlow.Live` | src/ti_features.cpp:151-696 | a state that is initialised at any level and driven over any trace stands for the run of that trace, whichever allocations of upgrades fail |
| `WholeFlow.ReadRingOfBoth` | src/utils/circular_buffer.cpp:71-91 | reading a position of a ring from the bytes of a state that grew and of one that was large from the start gives the same, namely that element of the latest 5000 pushes |
| `WholeFlow.ReadListOfBoth` | src/calc_basic.cpp:455-468 | the same for the per-direction arrays and the first 5000 values offered |
| `WholeFlow.ReadDirectionLength` | src/calc_basic.cpp:101-108 | the numbers read from the bytes of the two length arrays are the lengths of the first 5000 packets of the direction, for flows whose allocations succeed |
| `WholeFlow.LiveTwice` | src/ti_features.cpp:493-696 | two states driven over the same trace from any level and from the largest answer any read of a ring and of an array alike, if allocations succeed |
| `Bursts.SegmentsCutTheTrace` | src/calc_burst.cpp:12-34 | the segments put together are the trace, cut at exactly the gaps above the threshold |
| `Bursts.SizedSelects` | src/calc_burst.cpp:16-17 | the segments taken for bursts are exactly the closed ones with two packets or more, in order |
| `Bursts.RecordsAreTheBursts` | src/calc_burst.cpp:5-36 | record k is about the k-th burst (size, packets, duration, closing gap), for as many bursts as fit, and the live counters describe the open segment |
| `Bursts.RecordByRecord` | src/calc_burst.cpp:12-34 | record k spelled out: bytes, packets, the time from the start of its segment (0 for the first) to the packet that closed it and, but for the first record, the closing gap |
| `Bursts.BytesAndPacketsAddUp` | src/calc_burst.cpp:5-36 | records, open segment, short segments and bursts without room add up to the run's bytes and packets |
| `Bursts.FlowRecordsItsBursts` | src/ti_features.cpp:642-678 | while allocations succeed, a flow records its first 5000 bursts at whatever level |
| `Bursts.ArrivalsAre` | src/ti_features.cpp:642-678 | the gap that burst detection sees is the time since the packet before, 0 for the first packet |
| `Bursts.FlowBurstsAddUp` | src/calc_burst.cpp:5-36 | while allocations succeed, a flow's records, open segment, short segments and bursts without room add up to its counters of bytes and packets, at whatever level |
| `Windows.WindowsTally` | src/calc_window.cpp:7-47 | every window counts exactly the packets and bytes that belong to it; the current window is one past the highest reached, at most the number of windows; bit rates are 0 |
| `Windows.AdvanceReaches` | src/calc_window.cpp:27-40 | entering windows moves to the target or the end, and finds nothing to compute a rate from |
| `Windows.TargetIsElapsedWindows` | src/calc_window.cpp:24-25 | a packet's window is its distance from the first packet over 1000 times the size in milliseconds, rounded down, in 32 bits; its time lies in that window if and only if the distance is less than 2^32 windows |
| `Windows.WindowsAddUp` | src/calc_window.cpp:42-46 | the windows and the packets past the last one account for all packets and bytes |
| `Windows.FlowWindowsTally` | src/ti_features.cpp:691-693 | the windows of a flow tally its packets, whichever allocations fail |
| `Responses.ResponsesAnswerLatestRequest` | src/calc_iat.cpp:175-193 | the flow keeps the first 1000 delays of its answers, and remembers an open request |
| `Responses.AnswersSelect` | src/calc_iat.cpp:179-182 | answers are exactly the backward packets that directly follow a forward one, undirected packets aside, in order |
| `Responses.FlowResponses` | src/calc_iat.cpp:175-193 | whichever allocations fail, a flow keeps the first 1000 delays, and delay m is the time from the forward packet that the m-th answer follows to that answer |
| `Bigrams.OneStep` | src/feature_stats.h:206-214 | a packet adds one step out of the class before it and one into its own |
| `Bigrams.WalkBalances` | src/feature_stats.h:206-214 | each class is left as often as it is entered, but for the class SMALL at the start and the class of the last packet |
| `Bigrams.StepsAddUp` | src/feature_stats.h:206-214 | the nine counts add up to the number of packets |
| `Bigrams.BigramStats.Packet` | src/ti_features.cpp:680-685 | the counts, the total and the last class stay those of the walk; a packet is small up to the first threshold, medium up to the second and large beyond both, and adds 1 to count 3·last + new |
| `Bigrams.Rank` | src/calc_sequence.cpp:554-563 | the exchange sort gives a permutation in descending order |
| `Bigrams.Ranking` | src/calc_sequence.cpp:549-563 | the ranking holds every bigram's number with its count, largest count first |
| `Lz78.ParseIsParse` | src/calc_sequence.cpp:202-225 | phrases and residual give back the input; phrases are new and extend earlier ones by one symbol; the residual is empty or a phrase |
| `Lz78.ParseIsUnique` | src/calc_sequence.cpp:202-225 | no other list of phrases has these properties |
| `Lz78.PhrasesAreDistinctAndPrefixClosed` | src/calc_sequence.cpp:213-217 | every phrase differs from all before it, and is one symbol or extends one of them |
| `Lz78.PhraseBounds` | src/calc_sequence.cpp:202-225 | the count c of phrases of n symbols satisfies c <= n <= c(c+3)/2 |
| `Lz78.KeyInjective` | src/calc_sequence.cpp:212-213 | different phrases have different string keys |
| `Lz78.NextSymbol` | src/calc_sequence.cpp:211-219 | looking up the key of the symbols read decides exactly whether a phrase ends |
| `Lz78.Complexity` | src/calc_sequence.cpp:202-225 | the nested loops over string keys count the phrases of the parse; fewer than two symbols give 0 |
| `RunLength.EncodeIsLossless` | src/calc_sequence.cpp:152-162 | expanding the runs gives the sequence back; no run is empty and neighbouring values differ |
| `RunLength.EncodeIsUnique` | src/calc_sequence.cpp:152-162 | no other list of such runs expands to the sequence |
| `RunLength.CountsAddUp` | src/calc_sequence.cpp:152-162 | the run lengths add up to the length of the sequence |
| `RunLength.RunLengths` | src/calc_sequence.cpp:134-162 | the loop fills in exactly the run lengths and never writes past the buffer |
| `Chunks.StartsAreTheCuts` | src/calc_sequence.cpp:648-651 | chunks start at the first packet, at every change of direction and after every pause of more than 100 ms, in order |
| `Chunks.ChunksAreBetweenStarts` | src/calc_sequence.cpp:643-660 | every chunk holds exactly the bytes from its start to the next one |
| `Chunks.ReportLosesNothing` | src/calc_sequence.cpp:661-665 | the values written out add up to all bytes, although a last chunk without bytes is dropped |
| `Chunks.ChunkSequence` | src/calc_sequence.cpp:642-667 | the loop writes out exactly the closed chunks, and the open one if it has bytes, and reports as many as it writes |
| `Rates.RateSequences` | src/calc_sequence.cpp:682-708 | sequences are made exactly if the three rings are equally long and not empty and there is memory; each 50 ms window and direction then gets 160 times the bytes of its packets |
| `Rates.RatesConserveBytes` | src/calc_sequence.cpp:690-699 | the rates of a direction add up to 160 times its bytes, whatever the order of times |
| `Rates.NoClampInOrder` | src/calc_sequence.cpp:691-692 | for times in order the clamp never changes a packet's window |
| `Rates.RatesByTime` | src/calc_sequence.cpp:682-699 | for times in order there is one rate for every 50 ms from the first packet to the last, 160 times the bytes the direction sent in them |
| `Rates.WindowsWrap` | src/calc_sequence.cpp:685 | the number of windows wraps to 0 if and only if the last window is the largest unsigned number |
| `TopK.RankedIsSorted` | src/utils/fft.cpp:218-233 | the ranking holds bins 1 to n-1 once each, by descending magnitude, then ascending index |
| `TopK.ShiftInKeepsBest` | src/utils/fft.cpp:222-230 | shifting a bin into the best k gives the best k of the longer ranking, padded with -1 |
| `TopK.InsertAt` | src/utils/fft.cpp:223-229 | the shifting loop makes room at one place by dropping the last entry |
| `TopK.GetTopK` | src/utils/fft.cpp:207-237 | one scan leaves the first k entries of the ranking and their magnitudes, with -1 where bins run out, and the others alone; refused exactly for spectra of fewer than two bins and k below 1 or above 5 |
| `TopK.PsdPeak` | src/utils/fft.cpp:255-269 | the peak is the largest square of a magnitude from bin 1 on, 0 if there is none |
| `Quantiles.RankIsPosition` | src/calc_payload.cpp:252-281 | a value with rank k is at position k of every sorted arrangement of the bytes |
| `Quantiles.RanksAreMonotone` | src/calc_payload.cpp:252-281 | quartiles come in order |
| `Quantiles.PayloadHistogram.AddPayload` | src/calc_basic.cpp:165-184 | each of the 256 bins is how often its byte has occurred, each of the 16 coarse ones the sum of 16 of them |
| `Quantiles.PayloadHistogram.Quartiles` | src/calc_payload.cpp:252-281 | for n bytes, the results are the elements at (n-1)/4, (n-1)/2 and 3(n-1)/4, rounded down, of every sorted arrangement; 0 without bytes |
| `InsertionSort.SortedSeqSorts` | src/calc_basic.cpp:13-26 | sorting gives a sorted permutation |
| `InsertionSort.SortSmallUintArray` | src/calc_basic.cpp:13-26 | the in-place sort puts the first n elements in order, keeps them as a multiset, and leaves the others alone |
| `Percentiles.PercentileInRange` | src/utils/stats_utils.h:61-77 | every percentile lies between the first and the last element |
| `Percentiles.PercentileMonotone` | src/utils/stats_utils.h:61-77 | a higher percentile has a higher value |
| `Percentiles.PercentileIsLinear` | src/utils/stats_utils.h:67-76 | between positions k and k + 1 the percentile p is on the line through their values, at p(n-1)/100 |
| `Percentiles.PercentileOutside` | src/utils/stats_utils.h:63-66 | below 0 and above 100 it is the first and the last element |
| `Percentiles.MedianIs50th` | src/utils/stats_utils.h:35-77 | the 50th percentile is the median, for both parities of the length |
| `Percentiles.QuartilesAroundMedian` | src/utils/stats_utils.h:35-98 | the quartiles lie on either side of the median |
| `Percentiles.PercentileUintMonotone` | src/utils/stats_utils.h:79-94 | unsigned percentiles are in range and monotone, too |
| `Percentiles.MedianUintIs50th` | src/utils/stats_utils.h:47-94 | the unsigned median is the 50th percentile if and only if its sum does not wrap |
| `Percentiles.QuartilesAroundMedianUint` | src/utils/stats_utils.h:47-100 | without wrapping, the unsigned quartiles lie on either side of the median |
| `Percentiles.MedianUintWraps` | src/utils/stats_utils.h:47-57 | with wrapping, the median of two equal large numbers is 0 |
| `Pearson.VarianceNonNegative` | src/calc_sequence.cpp:327-328 | neither factor under the root is negative |
| `Pearson.CauchySchwarz` | src/calc_sequence.cpp:327-328 | the square of the numerator is at most the product under the root |
| `Pearson.CoefficientInRange` | src/calc_sequence.cpp:327-333 | a coefficient lies between -1 and 1 for every pair of sequences |
| `Pearson.SelfCorrelation` | src/calc_sequence.cpp:327-333 | a sequence that is not constant correlates fully with itself |
| `Pearson.CoefficientCorrelates` | src/calc_sequence.cpp:326-332 | the coefficient has the sign of n·Σxy - Σx·Σy, and its square times both variance factors is the square of that |
| `Pearson.CoefficientIsUnique` | src/calc_sequence.cpp:326-332 | no other number has these properties |
| `Pearson.OpposedSequences` | src/calc_sequence.cpp:326-332 | turning the sign of every element of one sequence turns the sign of the coefficient |
| `Pearson.LengthDirectionCorrelation` | src/calc_sequence.cpp:301-333 | the result has the sign and the square that the sums over lengths and directions give, in range, or is 0 if there are none or not equally many |
| `Pearson.LengthIatCorrelation` | src/calc_sequence.cpp:336-373 | the result has the sign and the square that the sums over lengths and times give, in range, or is 0 unless there is one length more |
| `Moments.OnePassVarianceIsExact` | src/utils/fft.cpp:168-172 | the variance formula is the mean squared distance, so the clamp at 0 never acts |
| `Moments.OnePassSkewIsExact` | src/utils/fft.cpp:184-186 | the power-sum formula for the skewness is the mean cubed score |
| `Moments.OnePassKurtIsExact` | src/utils/fft.cpp:192-195 | the power-sum formula for the kurtosis is the mean fourth power of the scores |
| `Moments.ShortSkew` | src/utils/stats_utils.h:103-113 | for fewer than three values the skewness formula gives the 0 that the guard gives |
| `Moments.KurtosisAgreesFromFour` | src/utils/stats_utils.h:116-126 | the kurtosis formula equals the guarded function if and only if there are four values or more, and is -11/4 for two and -7/3 for three |
| `Moments.ComputeStatistics` | src/utils/fft.cpp:138-204 | fails exactly without values or without memory; else mean, deviation, skewness and kurtosis satisfy their defining equations over the distances from the mean, and extremes, median and quartiles are the elements of the sorted copy at their places |
| `Moments.CalcSkewness` | src/utils/stats_utils.h:103-113 | the loop gives what, times the count and the cube of the deviation, is the sum of cubed distances from the mean, or 0 for short or constant inputs |
| `Moments.CalcKurtosis` | src/utils/stats_utils.h:116-126 | the loop gives what, plus 3 and times the count and the fourth power of the deviation, is the sum of fourth powers of distances, or 0 for short or constant inputs |
| `ChiSquare.CalcChiSquareUniform` | src/utils/stats_utils.h:157-176 | the statistic is not negative, 0 exactly for equal bins, and total times it is n times the sum of squares less the total squared |
| `RunningStatistics.RunningIsBatch` | src/feature_stats.h:39-55 | after any sequence of updates the mean times the count is the sum, and `M2` the sum of squared distances from the mean |
| `RunningStatistics.RunningVarianceIsBatch` | src/feature_stats.h:57-60 | the running mean and variance equal those of the batch formula |
| `RunningStatistics.ExtremesBound` | src/feature_stats.h:53-54 | minimum and maximum bound all values, and are among them unless all values are beyond 10^18 |
| `RunningStatistics.MeanBetweenExtremes` | src/feature_stats.h:39-55 | the mean lies between minimum and maximum |
| `HigherMoments.UpdateGains` | src/feature_stats.h:42-50 | what an update adds to `M3` and `M4`, as polynomials in the count and in how far the mean moves; the last term of `M4` is of the third degree in the move |
| `HigherMoments.ThirdSumDrifts` | src/feature_stats.h:48 | after any run, `M3` is the sum of cubed distances from the mean plus a drift, to which an update adds 3e·M2 - n(2n-1)e³, with n the count before it and e the distance of the value from the mean over n + 1 |
| `HigherMoments.FourthSumDrifts` | src/feature_stats.h:49-50 | after any run, `M4` is the sum of fourth powers of distances from the mean plus a drift of its own |
| `HigherMoments.CentralIfNoDrift` | src/feature_stats.h:48-50 | `M3` and `M4` are those sums if and only if their drift is 0 |
| `HigherMoments.ThirdStepIsExact` | src/feature_stats.h:42-48 | an update adds nothing to the drift of `M3` if and only if its value is the mean, or n(2n-1)e² is three times `M2` |
| `HigherMoments.ThirdSumIsNotCentral` | src/feature_stats.h:48 | for the values 0 and 2, `M3` is -1 although the distances balance |
| `HigherMoments.FourthSumDoesNotScale` | src/feature_stats.h:49-50 | doubling the values 0 and 2 takes `M4` from -4.5 to -84 instead of making it 16 times as large |
| `RunningStatistics.RunningStats.Update` | src/feature_stats.h:39-55 | the in-place update is the specification's step on all seven fields |
| `RunningStatistics.RunningStats.Variance` | src/feature_stats.h:57-60 | for statistics of a sequence, gives what the batch formula gives for it |
| `RunningStatistics.BatchVariance` | src/calc_basic.cpp:467-474 | two sums give the mean and what, times n - 1, is the sum of squared distances from it |

## Left out

- I/O and plumbing: packet capture, SNI and TLS entry points, Kafka, the stream bridge, JSON output, logging, configuration files.
- Entropies, the FFT itself, logarithmic inter-arrival times, the Hurst exponent, and compression ratios: they need cos, sin, log or zlib. (The logarithms are overwritten anyway, as their buffer is the second half of the sorting buffer.)
- Floating-point rounding, infinities and NaN.
- 32-bit wrap-around of packet, byte and histogram counters, of `int` products such as a squared packet length, and the truncation of values to their element's width when they are stored.
- Pools that a caller could create with dimensions so large that the size computation wraps.
- Port and address tables, TCP flag and retransmission counters, payload format detection, first-N statistics: one-branch facts.
- The running statistics that the flow updates beside its sequences; `RunningStatistics` covers them on their own.
- Initialising and destroying rings that own their memory; the flow's rings borrow theirs from the pool.
- `flow_mem_guess_level`, which nothing on the packet path calls, and the pool's unused convenience wrappers.
- Peak and harmonics of autocorrelations, sub-window statistics and the remaining batch features: sums over the sequences modelled here.
- Windows.WindowsTally: assumes positive times, as the code takes a start time of 0 for "not started".
- Rates.RateSequences: takes the allocation of no windows, after a flow of almost seven years, for a failed one; an implementation of `calloc` may give memory there.
- FlowState.FlowFeatureState.Init: leaves out the first-N array with its own allocation, the statistics fields, and the set-up of port and address tables.
- FlowState.FlowFeatureState.CollectPacket: leaves out ports, TCP flags, first-N and payload-byte statistics, and the running statistics that are updated on the way.
- FlowState.FlowFeatureState.Data: leaves out bigrams, the payload histogram, running statistics and TCP flags, which the branch also updates; `Bigrams`, `Quantiles`, `RunningStatistics` and `HigherMoments` cover the first three on their own.
- WholeFlow.Live: leaves out what `Data` leaves out.
