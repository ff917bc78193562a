# Verified models of five parts of the Flipper Zero firmware

This project models, in Dafny 4.11, the parts of the firmware whose correctness rests on invariants
that no single function shows, and proves them. `dafny verify dfyconfig.toml` checks everything.

## What is modelled

**Heap allocator** (`furi/core/memmgr_heap.c`). The heap is an array of cells of eight bytes; a block
header is one cell with a next address and a size, and the free list lives inside that array. The
methods of `Heap.Heap` do the surgery of the C code on it: the search, the unlinking, the split, the
address-ordered insertion with its merges to both sides, the allocated bit, both memsets, the counters.
The only other state is the (ghost) set of live blocks. Every method is proved against it: the list in
memory is always the list of the gaps between the live blocks. Everything else follows from that.
`HeapPlacement` says where a request is placed in terms of free units alone, `ThreadHeap` adds the per-thread index of
traced allocations, `HeapRuns` the statements about whole runs.

**Digital signals** (`lib/digital_signal/`). `DigitalSignal` quantises pulses to timer reloads with a
carried remainder; `DigitalSequence` sends a series of registered signals, merging equal levels and
distributing rounding errors, through a ring of 128 slots. What is sent is proved to be the merged runs of
all periods, and `Waveform` says how far that is from the ideal time. `DmaRing` is the ring as a protocol:
every statement of the producer and every DMA transfer is a step, in any interleaving. `TimerRing` is the code
of the ring with its time limits, proved with that invariant, and with the reload register into which the slots go.
`StoredSequences` says what follows for the reload values that additions can store.

**Bit library** (`lib/bit_lib/bit_lib.c`). Bytes are `bv8`, and each operation is specified by what it does
to the string of all bits of the array. `BitBlocks` is what adding a bit to every block and removing it again have
in common. The CRCs are proved to be remainders of a division of polynomials
over GF(2), for every width, polynomial, initial value and message.

**Calendar** (`lib/datetime/datetime.c`). The two loop-based conversions, proved inverse to each other, and
the weekday and the days before a year compared with independent closed forms.

**Records and thread flags** (`furi/core/record.c`, `furi/core/thread.c`). `Record` is a state machine in which
every statement under the mutex is a step of its own, for any number of threads, and `RecordCalls` is what its calls do
from beginning to end; `ThreadFlags` is the wait loop against any schedule of other threads that set flags.

## What the proofs found

Each of these is a lemma or a clause of a contract, with the exact condition under which the code does
what its documentation says.

- An addition to a signal conserves time if and only if its 32-bit arithmetic does not wrap
  (`TimeConservedIffInRange`); a period shorter than the carried negative remainder wraps, and is stored as
  a period of 43 ms (`TinyPeriodWraps`). Extending such a period can undo the wrap (`ExtendingUndoesWrap`): what counts
  is the merged runs of the input, each with what the rounding before it has left over (`SignalRepresentsInput`).
- A merge across a signal boundary adds stored reload values, each of which is a duration less one, so that every
  merge loses one timer tick (`MergedDuration`), which `remainder_ticks` knows nothing of. And only positive rounding
  errors are ever corrected. A bank of signals keeps `remainder_ticks` within half a tick for all sequences if and only
  if no signal has a negative remainder (`RemainderBoundedIff`), and the output itself within half a tick of its ideal
  time if and only if, besides, no signal ends at the level at which one of the bank starts (`WireErrorIs`, `OnTimeIff`).
- A carry of zero means "send the last period". What is sent is therefore the merged runs without the last exactly if
  every run that is sent fits in 32 bits and no run, not even the last, which is never sent, has a sum at a signal
  boundary within it that is a multiple of 2^32 (`TransmissionMeaning`); at such a boundary a period of value zero is sent
  (`SumOfZeroIsSent`, with 2049 pulses of 33 ms).
- A run of exactly 2^32 - 1 ticks is taken for the stop value: the transmission ends before it, and what follows is
  never sent (`StopValueEnds`, with signals that additions store). Altogether the timer is given the merged runs without the
  last if and only if the sums are as said, none of these runs has the stop value, and, if there are none, the buffer has
  been reset before (`Transmit`). The output is left in the run behind those that have been sent (`HeldRun`).
- A caller is on the safe side with any sequence in which at most 1561 periods of equal level follow each other
  (`ShortRunsSent`), as in any of at most 1561 signals (`ShortSequenceSent`), and with any whose runs, the last included, fit in
  32 bits (`RunsThatFit`) and are not 2^32 - 1; the transmission may take longer than 2^32 ticks (`LongTransmission`).
- Four things end a transmission (`EndsAs`): everything has been given to the timer; the DMA has caught up with the
  producer, and the timer is given less; `digital_sequence_finish` has given up, and the timer is given less; an enqueue
  has given up after 10 ms without space, and writes over periods that have not been sent. The second and the last need
  more than 126 values, and do not happen if the DMA loads at most one slot between two polls of a wait and at least
  one within its 10 ms. The third happens if and only if the stop value is not among the slots that are loaded within
  the 10 ms of `digital_sequence_finish` (`Finish`): a transmission of up to 126 values that can be sent in that time is
  complete, as is any transmission at that pace if a full ring can be (`Transmit`).
- If the DMA channel catches up it finds the stop value, except between the two stores of an enqueue (`Overtaken`), and
  except before the first reset when nothing has been enqueued (`StartedUnset`); otherwise always (`CatchingUpStops`).
- A message followed by its own check has a check that depends on what is added at the end and on the polynomial alone,
  if input and output are reflected alike (`AppendedCrcResidue`); it is zero if nothing is added (`AppendedCrcIsZero`).
- `bit_lib_add_parity` can return more than 255 bits, but `bit_lib_remove_bit_every_nth` and `bit_lib_test_parity` take a
  length of eight bits. The bits that were read come back if and only if there are less than 256 bits with
  parity (`ParityRoundTrip`); of 128 bits in blocks of one, nothing comes back (`NothingComesBack`). The test looks at the
  lowest eight bits of the length, too.
- `bit_lib_add_parity` and `bit_lib_test_parity` use opposite names for the two parities: what was added with one passes for
  the other, and fails for its own name exactly if, in what the test looks at, there is a whole block (`AddedPasses`). For
  blocks of more than 32 bits only the last 32 count (`ParityOfBlock`). `bit_lib_get_bits` reads one byte further than
  it needs to (`Readable`).
- A date that passes validation survives the round trip through a timestamp if and only if its day exists in its
  month; otherwise it is taken for a day of the next month (`ValidatedRoundTrip`, `MissingDay`).
- `furi_thread_flags_wait` takes the whole time since its begin off the remaining time at every insufficient
  notification. A wait that times out does so too early, apart from the lag of its thread, exactly if its last
  notification came in time and one before it did not come in the very first tick (`TimesOutEarlyIff`, `EarlyWitness`). For
  the same reason an endless wait can time out (`EndlessIff`, `EndlessWitness`); any other always returns
  (`AlwaysReturns`). On an error the flags it has collected are gone (`ErrorFlags`).
- `memmgr_heap_get_thread_memory` adds what the thread's live traced blocks were charged, whoever frees what, and the
  entries of blocks that another thread has freed, as far as a header that looks live lies at their address: that of
  another block, or user data of that shape. It is exact if and only if there is no such entry, and never wraps
  (`GetThreadMemory`). In a run in which a second thread frees a block and gets it again the first one is charged for
  it (`StaleEntryRun`).

## Model

| member | source | states |
|---|---|---|
| HeapBlocks.SeparatedUnique | furi/core/memmgr_heap.c:619-664 | two address-ordered lists of blocks that do not touch and cover the same units are equal |
| HeapBlocks.GapsMeaning | furi/core/memmgr_heap.c:619-664 | the gaps between live blocks are ordered, do not touch, and cover exactly the units no live block covers |
| HeapBlocks.GapsUnique | furi/core/memmgr_heap.c:619-664 | the free list is a function of the live blocks: any list with these properties is the gap list |
| HeapBlocks.GapsAfterFree | furi/core/memmgr_heap.c:619-664 | inserting a freed block, merged with the neighbours it touches, gives the gap list of the remaining live blocks |
| HeapBlocks.GapsAfterTake | furi/core/memmgr_heap.c:417-440 | taking the front of a gap, with or without a split, gives the gap list of the live blocks and the new one |
| HeapBlocks.SumLenSplice | furi/core/memmgr_heap.c:533-536 | a coalescing insertion adds exactly the length of the block to the free total |
| HeapBlocks.RoomNeedsTotal | furi/core/memmgr_heap.c:399 | the early test of the free total never turns away a request that some block could satisfy |
| HeapBlocks.SameShapeGaps | furi/core/memmgr_heap.c:619-664 | who owns the live blocks does not matter for the free list |
| HeapMemory.WipedBytes | furi/core/memmgr_heap.c:490 | clearing n bytes from a unit on makes exactly these bytes zero |
| HeapMemory.CellOfBytes | furi/core/memmgr_heap.c:76-79 | a header is two little-endian words |
| HeapMemory.UnlinkNode | furi/core/memmgr_heap.c:417-419 | redirecting the predecessor's next address leaves the list without that node in memory |
| HeapMemory.LeftTouches | furi/core/memmgr_heap.c:630-638 | the node before the insertion point touches the block exactly if they are to be joined, and then the sum of their size words is the joint length |
| HeapMemory.RightTouches | furi/core/memmgr_heap.c:640-653 | the same to the right, where the end marker touches but does not join |
| HeapMemory.InsertWritesSplice | furi/core/memmgr_heap.c:619-664 | both merges and the redirection of the node before make the headers of the coalesced list, in all four cases |
| HeapMemory.LinkSplice | furi/core/memmgr_heap.c:619-664 | memory with those headers holds the coalesced list, ending at the end marker |
| HeapMemory.SplitPlan | furi/core/memmgr_heap.c:417-437 | without block k the list has room for the unused end of the block, and with it, it is the carved list |
| HeapMemory.SplitReady | furi/core/memmgr_heap.c:423-437 | after the two headers of a split are written the list is as it was and the rest is ready to be inserted |
| Heap.Heap.constructor | furi/core/memmgr_heap.c:344-370 | before the first request the heap is not initialised and nothing is live |
| Heap.Heap.AlignedBounds | furi/core/memmgr_heap.c:573-600 | the first multiple of eight from the start of the area on, and the last one with eight bytes before its end |
| Heap.Heap.Init | furi/core/memmgr_heap.c:573-616 | a single free block from the first aligned address to the end marker, in the last eight aligned bytes of the area; both counters are its length |
| Heap.Heap.FindPlace | furi/core/memmgr_heap.c:623-628 | the last node below the block is found |
| Heap.Heap.MergeLeft | furi/core/memmgr_heap.c:630-638 | the block goes on as its join with the left neighbour if they touch, whose one header is all that changes |
| Heap.Heap.MergeRight | furi/core/memmgr_heap.c:640-653 | the header has the length of all blocks that join, and leads to the node behind them |
| Heap.Heap.InsertBlock | furi/core/memmgr_heap.c:619-664 | the list in memory becomes its splice with the block; only two headers are written |
| Heap.Heap.FindFit | furi/core/memmgr_heap.c:402-407 | the lowest block with room is found, or the end marker |
| Heap.Heap.Unlink | furi/core/memmgr_heap.c:417-419 | the block leaves the list, all other nodes stay |
| Heap.Heap.Split | furi/core/memmgr_heap.c:423-437 | the block keeps the wanted size and its unused end is inserted into the list; no other header is written than these two and the one before |
| Heap.Heap.Take | furi/core/memmgr_heap.c:411-440 | the block is carved from the list; the rest is split off when it exceeds the minimum block size |
| Heap.Heap.RoundedSize | furi/core/memmgr_heap.c:383-397 | the request and its header in whole units |
| Heap.Heap.Search | furi/core/memmgr_heap.c:402-411 | the lowest block with room is found with its predecessor, or there is none |
| Heap.Heap.Fit | furi/core/memmgr_heap.c:376-411 | no block is found exactly if the request is empty, has the top bit set, or no free block has room |
| Heap.Heap.MemSet | furi/core/memmgr_heap.c:490 | the bytes are cleared and no others |
| Heap.Heap.Malloc | furi/core/memmgr_heap.c:344-492 | refused exactly when no free block has room; otherwise the lowest fitting block becomes live, its first n payload bytes are zero, no cell of another live block changes, and the history gains the new free total |
| Heap.Heap.FreeBlock | furi/core/memmgr_heap.c:503-538 | the block stops being live, its payload is cleared, nothing of another live block changes |
| Heap.Heap.Free | furi/core/memmgr_heap.c:495-550 | exactly the block of the address stops being live, and the list is again the gap list; NULL changes nothing |
| Heap.Heap.LargestBlock | furi/core/memmgr_heap.c:232-238 | the walk finds the greatest length in the list |
| Heap.Heap.GetMaxFreeBlock | furi/core/memmgr_heap.c:227-242 | the greatest length of a free block |
| Heap.MaxLenDecides | furi/core/memmgr_heap.c:227-242 | a request is refused exactly if it is empty, has the top bit set, or, rounded up with its header, exceeds the largest free block |
| Heap.MinOfAppend | furi/core/memmgr_heap.c:442-448 | the watermark stays the minimum of the free total over the whole history |
| Heap.TakeApart | furi/core/memmgr_heap.c:414-453 | taking a block writes to no live block and nowhere outside the heap |
| Heap.GrantApart | furi/core/memmgr_heap.c:414-490 | nor does clearing the payload |
| HeapPlacement.RefusedIff | furi/core/memmgr_heap.c:376-411 | a request is refused if and only if it is empty, has the top bit set, or nowhere as many free units lie in a row as it and a header need |
| HeapPlacement.GrantedPlace | furi/core/memmgr_heap.c:402-440 | otherwise it gets the lowest of these places, in exactly its rounded size, unless no more than two free units follow, which it gets as well |
| Heap.ReleasedMemory | furi/core/memmgr_heap.c:519-536 | freeing, with its merges, leaves every other live header and payload alone |
| Heap.PayloadKeeps | furi/core/memmgr_heap.c:344-550 | whatever the owners of live blocks write to their payloads, the free list and all headers stay |
| Heap.Heap.WritePayload | furi/core/memmgr_heap.c:344-550 | so that clients may use their memory between the calls |
| HeapTrace.MallocKeepsExact | furi/core/memmgr_heap.c:196-208 | after an allocation the index of every traced thread still lists its traced live blocks with their charge, and nothing else unless it has strayed |
| HeapTrace.FreeKeepsExact | furi/core/memmgr_heap.c:210-225 | so it does after a free, by whichever thread; a free by another thread is what makes the owner stray |
| HeapTrace.DisableKeepsExact | furi/core/memmgr_heap.c:154-162 | ending a trace keeps the others exact |
| HeapTrace.KeysSum | furi/core/memmgr_heap.c:174-188 | summing over index entries is summing over the blocks they list, each once |
| HeapTrace.ChargedMore | furi/core/memmgr_heap.c:196-208 | a new block adds its rounded request to what its traced owner is charged, and nothing to any other thread |
| HeapTrace.ChargedLess | furi/core/memmgr_heap.c:210-225 | and takes it away when it is freed |
| HeapTrace.ChargedBelowHeap | furi/core/memmgr_heap.c:164-194 | what a thread is charged never exceeds the heap |
| HeapTrace.SumFits | furi/core/memmgr_heap.c:172-188 | even with stale entries, which may be as many as there are addresses, no sum reaches 2^32 on a heap of 256 kilobytes |
| ThreadHeap.LeftoversAre | furi/core/memmgr_heap.c:164-194 | the entries add up to what the thread's live traced blocks were charged, and to the stale ones whose header looks live |
| ThreadHeap.LeftoversExactIff | furi/core/memmgr_heap.c:164-194 | the sum fits in 32 bits, and is exact if and only if no stale entry lies at an address whose header looks live |
| ThreadHeap.ThreadHeap.Malloc | furi/core/memmgr_heap.c:344-492 | an allocation by a traced thread is listed with its rounded request, and changes no other entry; one by another thread changes none |
| ThreadHeap.ThreadHeap.Free | furi/core/memmgr_heap.c:495-550 | any thread may free any block; the address is no longer listed for the thread that frees it, and only the traced owner of a block that another thread frees strays |
| ThreadHeap.ThreadHeap.EnableTrace | furi/core/memmgr_heap.c:140-152 | counting starts from nothing, for this thread only |
| ThreadHeap.ThreadHeap.DisableTrace | furi/core/memmgr_heap.c:154-162 | the index of the thread is dropped, the heap is unchanged |
| ThreadHeap.ThreadHeap.HeaderLooksLive | furi/core/memmgr_heap.c:178-185 | the test on a header: allocated bit set and no next block |
| ThreadHeap.ThreadHeap.SumLeftovers | furi/core/memmgr_heap.c:172-188 | the sum of the entries whose header looks live, in 32-bit arithmetic |
| ThreadHeap.ThreadHeap.GetThreadMemory | furi/core/memmgr_heap.c:164-194 | what the live traced blocks of the thread were charged and what the stale entries that look live were; exact if and only if there are none of these, as there are if nobody else freed a traced block of the thread; a fixed code for an untraced thread |
| ThreadHeap.ThreadHeap.StaleEntryRun | furi/core/memmgr_heap.c:164-225 | a run in which a thread that owns nothing is charged for a block of another |
| ThreadHeap.ThreadHeap.WritePayload | furi/core/memmgr_heap.c:164-225 | writes to payloads keep heap and index valid |
| HeapRuns.RequestStep | furi/core/memmgr_heap.c:344-492 | the step of a run is what the allocation method is specified to do |
| HeapRuns.Conservation | furi/core/memmgr_heap.c:442-533 | free and live lengths always add up to the heap |
| HeapRuns.AnyRunTilesTheHeap | furi/core/memmgr_heap.c:344-550 | after any run of requests and releases the free list is ordered, nothing touches, and free and live blocks tile the heap without overlap |
| HeapRuns.FreeListIndependentOfHistory | furi/core/memmgr_heap.c:619-664 | heaps with the same live blocks have the same free list, free total and answers, however they got there |
| HeapRuns.ReleaseUndoesRequest | furi/core/memmgr_heap.c:411-538 | freeing a block just obtained restores the free list, split or not |
| HeapRuns.AllReleasedIsInitial | furi/core/memmgr_heap.c:495-550 | once everything has been freed, in any order, the heap is the single initial block |
| DigitalSignal.NearestUnique | lib/digital_signal/digital_signal.c:48-54 | the stored ticks are the only number within half a tick of the duration |
| DigitalSignal.AddMeaning | lib/digital_signal/digital_signal.c:42-97 | in numbers: the pulse and the carried rest, and the last period if it has the same level, are stored as the last period in the nearest number of ticks of 1562 units, with the rest within half a tick; the check fails below one tick and a half |
| DigitalSignal.TimeConservedIffInRange | lib/digital_signal/digital_signal.c:46-59 | an addition conserves the total time exactly if its 32-bit sum does not wrap |
| DigitalSignal.TinyPeriodWraps | lib/digital_signal/digital_signal.c:46 | an input for which it wraps |
| DigitalSignal.ExtendingConfluent | lib/digital_signal/digital_signal.c:62-97 | t1 and then t2 at one level does exactly what t1 + t2 in 32 bits does at once, for any prior signal: the same check fails, or the same signal is stored |
| DigitalSignal.ExtendingStaysInRange | lib/digital_signal/digital_signal.c:62-97 | if neither addition wraps, the joint one does not, and passes its check |
| DigitalSignal.AddAllIsQuantised | lib/digital_signal/digital_signal.c:42-97 | only the merged runs of the input matter, not the additions that make them up |
| DigitalSignal.SignalRepresentsInput | lib/digital_signal/digital_signal.c:42-97 | any series of additions that pass their checks decodes to its input with equal neighbours merged, every boundary within half a tick of its ideal time and nothing lost, if and only if every run of the input, with what is left over when the time before it is rounded, fits in 32 bits |
| DigitalSignal.ModerateRunsFit | lib/digital_signal/digital_signal.c:42-97 | which holds if every run lasts at least half a tick and is that far below 2^32 |
| DigitalSignal.ExtendingUndoesWrap | lib/digital_signal/digital_signal.c:62-80 | an input with an addition that wraps, and is put right by the next |
| DigitalSignal.DigitalSignal.constructor | lib/digital_signal/digital_signal.c:8-15 | an empty signal |
| DigitalSignal.DigitalSignal.SetStartLevel | lib/digital_signal/digital_signal.c:30-34 | only the level at even periods changes |
| DigitalSignal.DigitalSignal.Quantise | lib/digital_signal/digital_signal.c:48-54 | the nearest number of ticks and the signed rest |
| DigitalSignal.DigitalSignal.AddPeriod | lib/digital_signal/digital_signal.c:42-60 | a period is appended, or the check fails for one of at most one tick, leaving the signal as it was |
| DigitalSignal.DigitalSignal.ExtendLastPeriod | lib/digital_signal/digital_signal.c:62-80 | the last period is replaced by the rounding of its own length plus the new one |
| DigitalSignal.DigitalSignal.AddPeriodWithLevel | lib/digital_signal/digital_signal.c:82-97 | the addition of a pulse, which extends the last period exactly if the level is the same |
| Waveform.DriftBounds | lib/digital_signal/digital_sequence.c:359-364 | corrections and what is carried add up to all remainders; the carry is below half a tick, and above minus half a tick but for negative remainders |
| Waveform.RemainderWithinHalfTick | lib/digital_signal/digital_sequence.c:359-364 | without negative remainders, remainder_ticks stays within half a tick for sequences of any length |
| Waveform.NegativeDriftAccumulates | lib/digital_signal/digital_sequence.c:359-364 | with negative remainders alone nothing is ever corrected |
| Waveform.RemainderBoundedIff | lib/digital_signal/digital_sequence.c:359-364 | a bank keeps remainder_ticks within half a tick for every sequence if and only if no signal has a negative remainder |
| Waveform.PeriodsFrom | lib/digital_signal/digital_sequence.c:303-367 | the waveform of a sequence has the stored periods of its signals one after the other, alternating in level from the start level of each, with the correction in the first of each |
| Waveform.MergeKeepsWeight | lib/digital_signal/digital_sequence.c:322-325 | merging across boundaries neither adds nor loses reload ticks |
| Waveform.RunsAlternate | lib/digital_signal/digital_sequence.c:188-194 | the merged runs alternate in level from that of the first signal |
| Waveform.MergedDuration | lib/digital_signal/digital_sequence.c:322-325 | every merge shortens the output by one timer tick |
| Waveform.WireErrorIs | lib/digital_signal/digital_sequence.c:322-364 | the output is late at a signal by what remainder_ticks carries, negated, less one timer tick for every merged boundary before it |
| Waveform.OnTimeIff | lib/digital_signal/digital_sequence.c:322-364 | a bank keeps the output within half a tick of its ideal time for every sequence if and only if no signal has a negative remainder and none ends at the level at which one starts |
| Waveform.StreamedIff | lib/digital_signal/digital_sequence.c:309-354 | a stream in which a sum of zero in 32 bits is sent at once is that of the merged runs without the last exactly if the runs that are sent fit in 32 bits and no run has such a sum at a boundary |
| Waveform.OutputLevels | lib/digital_signal/digital_sequence.c:188-194 | the alternating output buffer puts out the level of each run |
| DmaRing.NextKeeps | lib/digital_signal/digital_sequence.c:227-280 | every step of producer or DMA keeps the invariant of the ring |
| DmaRing.RunKeeps | lib/digital_signal/digital_sequence.c:227-353 | so that it holds in every state of every interleaving, through the idle fill, the hand-over and the wrap-around |
| DmaRing.WritesAvoidUnread | lib/digital_signal/digital_sequence.c:268-273 | neither the period nor the stop value is ever written over a period the DMA has still to load |
| DmaRing.NothingLost | lib/digital_signal/digital_sequence.c:268-273 | what has been stored and what is to come is what was given to enqueue |
| DmaRing.LoadsInOrder | lib/digital_signal/digital_sequence.c:227-274 | the DMA loads the enqueued values in order, none skipped, repeated or stale |
| DmaRing.CatchingUpStops | lib/digital_signal/digital_sequence.c:273-277 | exactly when a DMA that catches up finds the stop value |
| DmaRing.StartedUnset | lib/digital_signal/digital_sequence.c:273-353 | a run in which nothing is enqueued and the DMA starts on whatever the buffer holds |
| DmaRing.Overtaken | lib/digital_signal/digital_sequence.c:268-274 | a run in which the DMA has loaded the period just stored, and the slot it loads next has no stop value yet |
| DmaRing.WaitEnds | lib/digital_signal/digital_sequence.c:233-243 | the wait can be left exactly if the DMA is idle, or between one and 125 periods are unread |
| DmaRing.HandOver | lib/digital_signal/digital_sequence.c:342-353 | the DMA is started with 126 periods in the ring, or with all of them |
| TimerRing.TimerRing.WaitForSpace | lib/digital_signal/digital_sequence.c:230-266 | the wait ends with room for a period and the stop value behind at least one period to load, or the stop value has been loaded, or it hangs, only if none of the polls up to the time limit showed room; at a steady pace it ends with room, after a single load at most |
| TimerRing.TimerRing.EnqueuePeriod | lib/digital_signal/digital_sequence.c:227-274 | the period becomes the last stored one, and the ring is valid again: its protocol holds, or the stop value has been loaded behind a prefix of the stored periods, or it is known to be overwritten, which at a steady pace it is not |
| TimerRing.TimerRing.StartTimer | lib/digital_signal/digital_sequence.c:133-164 | the ring stays valid, with its first slot in the reload register |
| TimerRing.TimerRing.Finish | lib/digital_signal/digital_sequence.c:197-225 | it waits for the stop value, or for all of its time; it gives up if and only if the stop value is not among what is loaded in that time; the timer has been given the stored periods up to the first stop value, or less of them if it was overtaken or given up; with nothing stored, nothing exactly if the buffer had been reset |
| TimerRing.TimerRing.Reset | lib/digital_signal/digital_sequence.c:276-280 | the ring is empty and starts with the stop value |
| TimerRing.UpToStopIs | lib/digital_signal/digital_sequence.c:205-208 | the values before the first stop value, and nothing else, are a prefix without it that it follows or that is all |
| DigitalSequence.EnqueuedIsStreamed | lib/digital_signal/digital_sequence.c:303-367 | for signals of any length, the values enqueued from a signal on are the stream of its periods and all that follow, the carry included |
| DigitalSequence.TransmissionMeaning | lib/digital_signal/digital_sequence.c:295-367 | for a whole sequence they are the merged runs of all periods with their corrections, without the last, if and only if every run that is sent fits in 32 bits and no run has a sum of zero at a boundary |
| DigitalSequence.RunsThatFit | lib/digital_signal/digital_sequence.c:295-367 | which holds if all runs fit in 32 bits, however long the sequence |
| DigitalSequence.StopIff | lib/digital_signal/digital_sequence.c:205-367 | the values up to the first stop value are the merged runs without the last if and only if, besides, none of these runs has the stop value |
| DigitalSequence.HeldRun | lib/digital_signal/digital_sequence.c:188-225 | when the timer is stopped the output is in the run behind those that were sent, with its level: in the last run exactly if no run before that has the stop value, and otherwise in the first that has it |
| StoredSequences.StorableReloadable | lib/digital_signal/digital_signal.c:42-80 | additions only ever store reload values up to 2749658 |
| StoredSequences.ShortRunsSent | lib/digital_signal/digital_sequence.c:205-367 | stored signals are sent as they should be if at most 1561 periods of equal level follow each other |
| StoredSequences.ShortSequenceSent | lib/digital_signal/digital_sequence.c:205-367 | as in any sequence of at most 1561 signals |
| StoredSequences.LongTransmission | lib/digital_signal/digital_sequence.c:205-367 | a sequence of pulses of 64 us, of more than 2^32 ticks in all, that is sent as expected |
| StoredSequences.StopValueEnds | lib/digital_signal/digital_sequence.c:205-208 | a sequence of stored signals that is enqueued as expected, and of which nothing is sent |
| StoredSequences.SumOfZeroIsSent | lib/digital_signal/digital_sequence.c:323-340 | a sequence of stored signals of which nothing should be sent, and of which a period of value zero is |
| DigitalSequence.DigitalSequence.RegisterSignal | lib/digital_signal/digital_sequence.c:114-123 | one slot of the bank changes |
| DigitalSequence.DigitalSequence.AddSignal | lib/digital_signal/digital_sequence.c:125-131 | the index is appended to the order |
| DigitalSequence.DigitalSequence.MaybeStart | lib/digital_signal/digital_sequence.c:342-353 | the DMA is started once, when the ring is filled or nothing more comes |
| DigitalSequence.DigitalSequence.CarryAt | lib/digital_signal/digital_sequence.c:313-334 | a last period is kept back exactly if the level stays the same after it, or nothing follows |
| DigitalSequence.DigitalSequence.SendSignal | lib/digital_signal/digital_sequence.c:309-354 | what a signal enqueues, and what it carries into the next |
| DigitalSequence.DigitalSequence.Distribute | lib/digital_signal/digital_sequence.c:359-364 | the error after one signal more, with the correction that belongs to it: none is lost, and if both were below half a tick the new one is |
| DigitalSequence.DigitalSequence.Transmit | lib/digital_signal/digital_sequence.c:282-375 | for every pace of the DMA, the timer is given the enqueued values up to the first stop value, or less if a time limit or the DMA cuts it short; it is complete for up to 126 values if they can be sent within the time limit of the end, and at a steady pace if a full ring can; then these are the merged runs without the last if and only if the sums of reload ticks stay in 32 bits as said, no run has the stop value, and an empty buffer has been reset; the output levels alternate from that of the first signal; the bank and the order are unchanged |
| DigitalSequence.DigitalSequence.Clear | lib/digital_signal/digital_sequence.c:377-380 | the order is empty |
| BitLib.SetBit | lib/bit_lib/bit_lib.c:14-20 | one bit of the array changes |
| BitLib.GetBit | lib/bit_lib/bit_lib.c:32-34 | the addressed bit, counted from the top of the first byte |
| BitLib.SetBits | lib/bit_lib/bit_lib.c:22-30 | the lowest bits of a byte are stored, highest first, and no other bit changes |
| BitLib.CopyBits | lib/bit_lib/bit_lib.c:250-259 | a stretch of bits is replaced by one of the source, which may be the same array |
| BitLib.CopiedMeaning | lib/bit_lib/bit_lib.c:250-259 | it is the source stretch as it was, unless it is copied upwards within one array onto an overlap, when its beginning comes again and again |
| BitLib.PushBit | lib/bit_lib/bit_lib.c:5-12 | the array as one string of bits moves up by one |
| BitLib.ReverseBits | lib/bit_lib/bit_lib.c:261-272 | the stretch is reversed in place and no other bit changes |
| BitLib.KeptSplit | lib/bit_lib/bit_lib.c:228-233 | the bits kept so far and those still to be kept are the bits kept altogether |
| BitLib.RemoveBitEveryNth | lib/bit_lib/bit_lib.c:222-248 | the stretch is compacted in place to all but every n-th of its original bits, whose number is returned, and no other bit changes |
| BitLib.KeptIndex | lib/bit_lib/bit_lib.c:222-248 | of so many bits the n-th part is dropped, and number i of the rest is bit i + i / (n - 1) |
| BitLib.UnreadBit | lib/bit_lib/bit_lib.c:228-240 | the buffered writes never reach a bit that is still to be read |
| BitWords.WordParityIsOddOnes | lib/bit_lib/bit_lib.c:132-145 | the parity of a word is that of the number of ones of its bits |
| BitWords.OddOnesIs | lib/bit_lib/bit_lib.c:132-145 | which is counted |
| BitWords.ShiftWord | lib/bit_lib/bit_lib.c:196 | shifting bits into a 32-bit word keeps the last 32 |
| BitWords.GetBits | lib/bit_lib/bit_lib.c:36-47 | zeros followed by the addressed bits, across the byte boundary |
| BitWords.OrGlues | lib/bit_lib/bit_lib.c:60-79 | two adjacent stretches of bits, each shifted to its place, are joined by a bitwise or |
| BitWords.GetBits32 | lib/bit_lib/bit_lib.c:60-79 | the number whose binary digits are the addressed bits, for all lengths up to 32 |
| Parity.ParityOfBlock | lib/bit_lib/bit_lib.c:196-212 | with Even the appended bit makes the number of ones even, with Odd odd, as far as the last 32 bits of the block go |
| Parity.WordBitIsParityBit | lib/bit_lib/bit_lib.c:196-212 | the bit that the word gives is the parity of the last 32 bits of the block, under every name |
| Parity.AddedBits | lib/bit_lib/bit_lib.c:194-213 | every block is followed by a zero, by a one, or by the bit with which the ones in the last 32 bits of the block and this bit are even or odd in number |
| BitBlocks.BlockStart | lib/bit_lib/bit_lib.c:194-213 | block j lies behind j blocks of the source and j added bits |
| BitBlocks.Grows | lib/bit_lib/bit_lib.c:194-213 | one block more of the source adds that block and its bit |
| Parity.AddParity | lib/bit_lib/bit_lib.c:183-220 | the blocks of the bits it has read, each followed by its parity bit, are written at the destination and nowhere else, and their number is returned; in place, each bit is read as it is when its turn comes |
| Parity.ReadUnchanged | lib/bit_lib/bit_lib.c:194-198 | the source is read as it was unless the destination begins within it, or so closely before it that the inserted bits catch up |
| BitBlocks.KeptOfAdded | lib/bit_lib/bit_lib.c:222-248 | removing the n-th bits from blocks with a bit behind each leaves the source |
| BitBlocks.PaddedLength | lib/bit_lib/bit_lib.c:194-213 | the bits that are read are as many as the source has exactly if that is a multiple of the block length, and else less than a block more |
| Parity.ParityRoundTrip | lib/bit_lib/bit_lib.c:183-248 | adding parity for a source of any length and removing every n-th bit there, with the result reduced to an 8-bit length, gives back the first of the bits that were read, and all of them if and only if the result has less than 256 bits, for every parity |
| Parity.NothingComesBack | lib/bit_lib/bit_lib.c:183-248 | 128 bits of which none comes back |
| Parity.AddThenRemove | lib/bit_lib/bit_lib.c:183-248 | the two calls one after the other do that in the destination array |
| ParityTest.TestParity | lib/bit_lib/bit_lib.c:147-181 | accepts exactly if every whole block passes, by its number of ones or its last bit |
| ParityTest.TestAccepts | lib/bit_lib/bit_lib.c:132-181 | in numbers: if it accepts, every whole block has an odd number of ones for Even, an even one for Odd, and the last bit zero or one for the others |
| ParityTest.TestRejects | lib/bit_lib/bit_lib.c:132-181 | and if not, there is a whole block for which this is not so |
| ParityTest.AddedPasses | lib/bit_lib/bit_lib.c:132-220 | in as many bits as the 8-bit length says, what was added with Even passes for Odd and the other way round; it fails its own name exactly if they hold a whole block |
| CrcTheory.FeedConcat | lib/bit_lib/bit_lib.c:362-418 | processing a concatenation is continuing from the intermediate register |
| CrcTheory.FeedLinear | lib/bit_lib/bit_lib.c:362-418 | the register is linear in initial value and message |
| CrcTheory.SameCheckIff | lib/bit_lib/bit_lib.c:362-418 | two messages of equal length agree exactly if the check of their difference from zero is zero |
| CrcTheory.Residue | lib/bit_lib/bit_lib.c:362-418 | a message followed by its register leaves zero |
| CrcTheory.ResidueAndMore | lib/bit_lib/bit_lib.c:362-418 | a register cancels out of what is fed to it |
| CrcTheory.AddFirst | lib/bit_lib/bit_lib.c:377-385 | adding a byte to the register and shifting is feeding its bits one by one |
| CrcTheory.CrcIsRemainder | lib/bit_lib/bit_lib.c:362-418 | the register is the remainder of the shifted message, and initial value, divided by the generator polynomial |
| CrcTheory.DivisionUnique | lib/bit_lib/bit_lib.c:362-418 | and there is no other |
| CrcTheory.ZeroCheckIff | lib/bit_lib/bit_lib.c:362-418 | the messages with check zero are exactly the multiples of the generator |
| Crc.Reverse16Bits | lib/bit_lib/bit_lib.c:334-353 | the masks and shifts mirror the sixteen bits |
| Crc.ReverseLowBits | lib/bit_lib/bit_lib.c:405 | a byte reversed as a word and shifted down is the mirrored byte |
| Crc.Shift8Bits | lib/bit_lib/bit_lib.c:379-385 | one shift of the 8-bit register |
| Crc.Step16Bits | lib/bit_lib/bit_lib.c:407-412 | one message bit in the 16-bit register |
| Crc.MessageBit | lib/bit_lib/bit_lib.c:370-377 | a message is processed byte by byte, each from its highest bit down, or from its lowest up if the input is reflected |
| Crc.Crc8 | lib/bit_lib/bit_lib.c:362-390 | bit by bit, the register after the message bits, mirrored if asked, and inverted where xor_out is set |
| Crc.Crc16 | lib/bit_lib/bit_lib.c:392-418 | the same for sixteen bits |
| Crc.AppendedCrcResidue | lib/bit_lib/bit_lib.c:362-418 | with input and output reflected alike, a message followed by its check has a check that depends on xor_out and the polynomial alone |
| Crc.AppendedCrcIsZero | lib/bit_lib/bit_lib.c:362-418 | with nothing added at the end and input and output reflected alike, a message followed by its check has check zero, for every polynomial, initial value and message |
| Crc.TailOf16 | lib/bit_lib/bit_lib.c:392-418 | for sixteen bits the check is appended high byte first, and if reflected low byte first |
| Calendar.DaysOfYear | lib/datetime/datetime.c:11-15 | the months of the table add up to the year |
| Calendar.OrderPreserved | lib/datetime/datetime.c:39-67 | seconds order dates as their fields do, so that no two dates share a timestamp |
| Calendar.ClosedForm | lib/datetime/datetime.c:44-50 | the year loop agrees with section 4.16 (Seconds Since the Epoch) of IEEE Std 1003.1-2017 |
| Calendar.PosixSeconds | lib/datetime/datetime.c:39-67 | the seconds of a date are the whole formula of that section |
| DateTimeConversion.YearCounters | lib/datetime/datetime.c:41-50 | the two counters of eight bits count leap and other years |
| DateTimeConversion.AddMonths | lib/datetime/datetime.c:57-59 | the days of the months before are added, in 32-bit arithmetic |
| DateTimeConversion.ToTimestamp | lib/datetime/datetime.c:39-67 | the seconds since the epoch, for every date that exists and fits in 32 bits |
| DateTimeConversion.StampIsSeconds | lib/datetime/datetime.c:39-67 | neither the counters nor the timestamp wrap before 7 February 2106 |
| DateTimeConversion.FindYear | lib/datetime/datetime.c:76-79 | the year of a day, and the days since its first |
| DateTimeConversion.FindMonth | lib/datetime/datetime.c:81-88 | the month of a day of the year; the table of twelve is never left |
| DateTimeConversion.FromTimestamp | lib/datetime/datetime.c:69-93 | the date that exists and has these seconds |
| DateTimeConversion.TimestampRoundTrip | lib/datetime/datetime.c:39-93 | every 32-bit timestamp comes back from its date, which is the only one |
| DateTimeConversion.DateRoundTripIff | lib/datetime/datetime.c:39-93 | a date comes back from its timestamp if and only if it exists and is in range |
| DateTimeConversion.Validate | lib/datetime/datetime.c:17-37 | all fields are in their ranges |
| DateTimeConversion.ValidatedRoundTrip | lib/datetime/datetime.c:17-93 | a validated date survives the round trip if and only if its day exists in its month, with its weekday if that was right |
| DateTimeConversion.MissingDay | lib/datetime/datetime.c:39-67 | otherwise it is taken for a day of the next month |
| DateTimeConversion.WeekdayIsRight | lib/datetime/datetime.c:74 | the weekday is a number from 1 to 7 that agrees with Sakamoto's method for every date, with Sunday as 7 |
| Record.StepKeeps | furi/core/record.c:31-146 | every statement of every thread keeps the invariant of the records |
| Record.Safety | furi/core/record.c:47-146 | in every interleaving of any number of threads: the number of holders is the number of opens that were counted and not closed, no entry or event flag goes away under one of them, and each returns the pointer given to the create of its own incarnation |
| Record.OnlyOwnCloseEnds | furi/core/record.c:136-146 | an open lasts until its own thread closes it |
| Record.WaitEndsIff | furi/core/record.c:125-133 | a waiting open goes on exactly if its incarnation has been made ready |
| Record.StaysReady | furi/core/record.c:82-146 | the pointer of an incarnation never changes, and as long as somebody has it open it stays ready |
| Record.ReadingReturns | furi/core/record.c:125-133 | a wait that has ended returns that pointer, whenever it goes on |
| Record.OpenReturns | furi/core/record.c:82-133 | in every reachable state, an open that waits for a created record goes on as soon as no create is about to set READY, and returns the pointer of that create |
| Record.DestroyIff | furi/core/record.c:96-113 | a destroy removes the record exactly if nobody holds it or waits for it |
| Record.SectionIsAtomic | furi/core/record.c:61-146 | from taking the mutex to releasing it a thread changes the records as if it were alone |
| Record.RecordTable.GetOrCreateEntry | furi/core/record.c:47-59 | an entry with a new event flag is made only for a name that has none |
| RecordCalls.CreateRuns | furi/core/record.c:82-94 | from its call to its return, a create leaves the record with its pointer, ready, with its holders, and every other record as it was |
| RecordCalls.OpenRuns | furi/core/record.c:115-123 | an open counts one more holder, of the record or of a new one that is not ready, and waits for it |
| RecordCalls.CloseRuns | furi/core/record.c:136-146 | a close counts one less |
| RecordCalls.DestroyRuns | furi/core/record.c:96-113 | a destroy removes a record that nobody has open, and its event flag |
| RecordCalls.DestroyRefused | furi/core/record.c:96-113 | and changes nothing otherwise |
| Record.RecordTable.Create | furi/core/record.c:82-94 | the entry has the pointer, its READY flag is set, and no other entry has changed |
| Record.RecordTable.Open | furi/core/record.c:115-123 | one more holder, of an existing or a new entry, and no other entry has changed |
| Record.RecordTable.Close | furi/core/record.c:136-146 | one holder less, and nothing else |
| Record.RecordTable.Destroy | furi/core/record.c:96-113 | entry and event flag go exactly if there are no holders, and otherwise nothing changes |
| ThreadFlags.RemainingIs | furi/core/thread.c:453-460 | the recomputed time is the timeout less the sum of all distances from the begin |
| ThreadFlags.EarlyIff | furi/core/thread.c:453-460 | the deadline that is computed is before the timeout exactly if the last notification came in time and one before it did not come in the very first tick |
| ThreadFlags.EarlyWitness | furi/core/thread.c:453-466 | a wait for ten ticks that times out after seven |
| ThreadFlags.EndsOnce | furi/core/thread.c:426-468 | for every schedule of setters the wait ends in one way only, so that its specification determines the result |
| ThreadFlags.FlagsAfter | furi/core/thread.c:427-431 | the flags collected over the notifications are all that were ever set, and only requested ones are cleared |
| ThreadFlags.FlagsOfWakes | furi/core/thread.c:427-431 | these are the flags of each notification |
| ThreadFlags.ResultFlags | furi/core/thread.c:429-451 | a result has every flag that was set, by whichever thread: all of the requested ones are among them, or at least one, as asked; the requested ones are cleared unless that was not wanted, and no others |
| ThreadFlags.EnoughEnds | furi/core/thread.c:429-451 | a notification with which the requested flags are there ends the wait with them |
| ThreadFlags.AnyEndsAtOnce | furi/core/thread.c:442-451 | if any is enough, the first notification in which one of them is set does |
| ThreadFlags.ErrorFlags | furi/core/thread.c:434-467 | an error after a notification means that one of the requested flags was missing, or all; those that were set are lost, and no others; the error says whether there was a timeout |
| ThreadFlags.OnSchedule | furi/core/thread.c:453-460 | what has passed and what remains stay within the timeout and the lags of the thread |
| ThreadFlags.NeverTooLong | furi/core/thread.c:422-468 | however often it is woken, the wait takes no longer than the timeout and the lags of its thread |
| ThreadFlags.TimesOutWhen | furi/core/thread.c:453-466 | a wait that times out does so exactly at the deadline of its notifications |
| ThreadFlags.TimesOutEarlyIff | furi/core/thread.c:453-466 | so that it times out early, apart from the lag of its thread, exactly under that condition |
| ThreadFlags.AlwaysReturns | furi/core/thread.c:422-468 | a wait with a timeout returns under every schedule |
| ThreadFlags.EndlessIff | furi/core/thread.c:453-460 | an endless wait stays endless exactly as long as all notifications come in its first tick |
| ThreadFlags.EndlessWitness | furi/core/thread.c:453-466 | an endless wait that times out |
| ThreadFlags.Task.Round | furi/core/thread.c:427-467 | one notification ends the wait as specified, or leaves the variables of the loop as specified |
| ThreadFlags.Task.WaitLoop | furi/core/thread.c:422-468 | the loop ends as specified, with its result and its effect on the notification |
| ThreadFlags.Task.FlagsWait | furi/core/thread.c:405-473 | the same, and refused calls change nothing; a result has all or at least one of the requested flags as asked, which are cleared if that was wanted |

## Left out

- Wrappers over FreeRTOS, hardware and register access, heap debug printing, the libc layer over the heap, `realloc`, and the number and printing helpers of the bit library: they would only add easy members.
- Assertions and checks that crash: a failed `furi_check` is an outcome of the model where a caller can cause it (the reload check), and a precondition where it states a caller's duty; a refused allocation is the NULL before the crash with "out of memory".
- Heap: the scheduler suspension is atomicity. The header test and the clearing of the allocated bit in `vPortFree`, and the clearing of the payload in `pvPortMalloc`, lie outside the suspended section and are taken to be atomic with it.
- Heap: the list head `xStart` is a cell of the same array outside the heap area, `portBYTE_ALIGNMENT` is 8 and `size_t` has 32 bits, as on the target; the heap area has room for at least one block.
- Heap: allocations of the trace dictionary itself, which are excluded from tracing, are not modelled; dictionaries are maps.
- DigitalSequence.DigitalSequence.Transmit: the bank holds the signals by value, so that a signal changed between registration and transmission is not captured; GPIO, timer and critical sections are not part of this model.
- TimerRing.TimerRing.WaitForSpace: time is measured by what the DMA does: how many slots it loads before each poll of each wait, the last of which is the one that sees the time limit of 10 ms, and in `Finish` how many it loads before that limit, are arguments of the transmission. DMA transfers between two other statements are the subject of `DmaRing`, where there are no time limits.
- TimerRing.TimerRing.StartTimer: the update event is taken to have the first slot loaded before the reload register is read.
- TimerRing.TimerRing.Finish: what the timer is given once an enqueue has given up and written over periods is not specified.
- DmaRing.LoadsInOrder: a DMA that overtakes the producer is not followed further; what it would load first is the subject of `CatchingUpStops`.
- BitLib.CopyBits: positions and the lengths of stretches that C holds in `size_t` are natural numbers, as are all counters; lengths of eight bits are bounded as in C.
- BitLib.ReverseBits: a length of zero, for which the C code starts from the last address, is excluded.
- Parity.AddParity: a parity length of one, for which the C loop does not advance, is excluded.
- BitWords.GetBits32: the wider and narrower variants of `bit_lib_get_bits` are built the same way and would only repeat it.
- DateTimeConversion.ToTimestamp: the product of days and seconds is taken modulo 2^32; in C it overflows a signed int for dates after January 2038.
- Record.Safety: the callers' duties are part of the steps: a thread closes only an open of its own that has returned, an incarnation is created once, and a record that is destroyed exists; pointers to dictionary entries are taken to stay valid while other entries come and go.
- Record.RecordTable.Open: the wait for the event flag and the reading of the pointer, which happen without the mutex, are steps of the state machine and not of this method.
- ThreadFlags.NeverTooLong: the kernel's notification wait is an atomic operation, given by when the next flags arrive and how late the thread runs; words of flags are sets of bit numbers, and error codes are a separate type; the time bound is stated for timeouts and lags that together stay below 2^32 ticks, where the tick difference does not wrap.
