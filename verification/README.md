# Models of the drivers, solvers and codecs of the code collection

These Dafny files model the parts of the repository where something can go wrong that is hard to
see by reading one function: the Linux driver examples with several processes on one device, the
storage behind them, the contest solvers whose answers are optimal for reasons the code does not
state, base64, and programs that exist in several forms. Classes, methods and loops follow the C and
C++ code; each is proved against a function or predicate, and the laws are proved about those.

| files | what they model |
|---|---|
| `ScullPipe`, `ScullPipeDevice`, `ScullPipeProtocol`, `ScullPipeProgress` | the scull pipe: the ring as a value, the device in place, any number of processes with the semaphore, both wait queues and the unlocked checks, and which way each step leads |
| `Shortprint`, `ShortprintDevice`, `ShortprintProtocol`, `ShortprintProgress` | the printer's output queue: a producer that looks without the lock, one work item, the wake-ups between them, and which way each step leads |
| `SnullDevice`, `SnullProtocol`, `SnullCounts`, `SnullWakeups`, `SnullEmptyPools`, `SnullRuns`, `SnullRaces`, `SnullLostBits` | the packet lists of one interface in place; two interfaces back to back with transmit, interrupt and poll contexts interleaved, what their steps and runs keep, and runs in which they go wrong |
| `ScullAccess` | opening and closing: the single-open counter, the blocking open by user, the list of cloned devices |
| `ScullGeometry`, `ScullStore`, `Layouts` | scull's list of quantum sets, as a heap structure that refines a sparse byte map, and the allocations it needs |
| `ScullpPages`, `ScullpMappings` | the page-based variant, with the page fault's walk, and the race between mapping and trimming |
| `DragonHeads`, `CoinTransfers`, `CommandoBrief`, `Sorting` | UVA 11292, 11300 and 11729 |
| `Clocks`, `ClockSearch`, `ClockAlgebra` | the clocks puzzle: moves, breadth-first search, and which dials can be solved |
| `Base64`, `Base64Codec` | encoder and decoder (section 5.2 of RFC 1341), sizes included |
| `Beads`, `PrimeNumbers`, `PrimePrinters`, `LineFilter` | the necklace, three prime printers, three line filters |
| `Bytes` | what several files share: C's division, options, the allocator, bytes and the circular buffer |

Some promises one would like to read into the code do not hold. The model keeps the code as it is,
shows a run or input that fails, and says exactly when the promise does hold:

- Opening a scull pipe empties it without waking anybody, so that a writer asleep on the full pipe is
  forgotten, and one that has fetched a single pointer may go to sleep on an empty pipe
  (`PipeProtocol.OpenIsQuietExactlyWhen`, `PipeProtocol.OpenCanLoseAWriter`,
  `PipeProtocol.OpenCanMisleadAHalfLook`). Readers are never forgotten.
- A printer's writer may sleep for good. `shortp_out_space` reads the tail twice; if the tail wraps in
  between, it reports no space on a nearly empty queue, and the wake-up test, which takes an empty queue
  for a full one, does not fire again (`ShortprintProtocol.SleepIsDueExactlyWhen`,
  `ShortprintProtocol.WriterCanSleepForever`). The variables are pointers to volatile bytes, not volatile
  pointers, so a compiler may merge the two reads; then this cannot happen.
- `snull_release_buffer` reads the packet's link after it has dropped the lock. Overtaken by transmits, it
  restarts a queue whose pool is empty (`SnullRuns.QueuesAreSafeExactlyWhen`). Some run does so exactly
  under NAPI with two buffers per pool or more (`SnullRaces.EmptyPoolIsWokenExactlyWhen`,
  `SnullRaces.WakeCanFireOnEmptyPool`).
- Bits of snull's status word are set without the lock. Two interfaces that transmit at once may lose one.
  A packet sent is then never counted (`SnullRuns.TransmitsAreCountedExactlyWhen`,
  `SnullLostBits.TransmitBitCanBeLost`). Without NAPI, one that was queued lies there until another such
  mistake (`SnullRuns.PacketsAreReceivedExactlyWhen`, `SnullRuns.LeftPacketsStayExactlyWhen`,
  `SnullLostBits.ReceiveBitCanBeLost`, `SnullLostBits.LostPacketCanTurnUp`).
- Under NAPI a queued packet may be left with nobody to attend to it, and the sender stalled for good, by
  either of two causes: a packet that arrives after the poll's last look and before it re-enables
  interrupts, and a lost receive bit (`SnullRuns.PacketsAreAttendedExactlyWhen`,
  `SnullRuns.EnableIntsStrandsExactlyWhen`, `SnullRaces.PollCanStallTheSender`,
  `SnullLostBits.LostBitsCanStallTheSender`, `SnullRaces.StalledStays`).
- scullp adds list items of order 0 to a device of any order, so that their blocks are smaller than the
  slots it divides positions into (`ScullpPages.ScullpDev.WritesStayInBlockExactlyWhen`,
  `ScullpPages.ScullpDev.SecondItemIsTooSmall`).
- A mapping of a scullp device may overtake a trim that sets another order, may be counted while a trim
  is freeing the pages, and may get lost in the count, which changes without a lock
  (`ScullpMappings.MappingIsSafeExactlyWhen`, `ScullpMappings.MappingCanOvertakeTrim`,
  `ScullpMappings.TrimCanFreeUnderAMapping`, `ScullpMappings.CountCanBeLost`).
- `ans` of UVA 11729 is never reset (`CommandoBrief.SolveAll`, `CommandoBrief.SecondCaseCanBeWrong`).
- The nested prime printer prints squares of primes, the recursive one ends only for a `cap` of 2 or
  more (`PrimePrinters.NestedPrintsFour`, `PrimePrinters.StopsExactlyWhen`), and the nested-loop filter prints a
  line feed that the automaton does not (`LineFilter.Traditional`).
- The decoder takes padding anywhere in the first block that has any, and stops there, so that some
  texts it accepts are not encodings (`Base64Text.EncodeUndoesDecodeExactlyWhen`,
  `Base64Text.DecodesToOtherText`).

Inputs from outside become parameters: how many allocations are granted before one is refused, how
many bytes of a copy between kernel and user space arrive, the values of module parameters when a
device is emptied. Each such method says exactly when it fails.

## Model

| member | source | states |
|---|---|---|
| `PipeRing.SpaceFreeIsCapacityLeft` | c/ldd3_codes/scull/pipe.c:181-186 | the free-space formula, on any pointers in range, is the capacity of size - 1 less the bytes buffered, and never negative |
| `PipeRing.ReadTakesPrefix` | c/ldd3_codes/scull/pipe.c:138-148 | what one read hands out, followed by what stays buffered, is what was buffered; a non-empty request gets at least one byte, and less than it asks for only where the buffered bytes or the buffer end |
| `PipeRing.WriteAppendsPrefix` | c/ldd3_codes/scull/pipe.c:203-215 | one write appends a prefix of its data to the buffered bytes, at least one byte when there is room and data, and less than all only when the pipe is then full or the buffer ends |
| `PipeRing.PartialWriteKeepsContents` | c/ldd3_codes/scull/pipe.c:209-212 | a copy from user space that fails part of the way changes no buffered byte |
| `PipeDevice.ScullPipe.constructor` | c/ldd3_codes/scull/pipe.c:33-42 | a device that nobody has opened has no buffer |
| `PipeDevice.ScullPipe.Open` | c/ldd3_codes/scull/pipe.c:61-90 | fails exactly when there is no buffer yet and its allocation is refused; else both pointers are reset, whatever is buffered, an existing buffer is kept as it is, and the opening is counted |
| `PipeDevice.ScullPipe.Release` | c/ldd3_codes/scull/pipe.c:94-111 | frees the buffer exactly on the last release; any other changes nothing that is buffered |
| `PipeDevice.ScullPipe.SpaceFree` | c/ldd3_codes/scull/pipe.c:181-186 | the number returned is the capacity less the bytes buffered |
| `PipeDevice.ScullPipe.Read` | c/ldd3_codes/scull/pipe.c:126-150 | blocks exactly on an empty buffer; otherwise the bytes returned, followed by the new contents, are the old contents, and fewer bytes than asked for only if nothing is left or the pointer wraps; a fault changes nothing |
| `PipeDevice.ScullPipe.Write` | c/ldd3_codes/scull/pipe.c:188-216 | refuses, faults or accepts exactly as the effect whose meaning the next row proves |
| `PipeDevice.WriteEffectMeaning` | c/ldd3_codes/scull/pipe.c:188-216 | refused exactly at capacity; an accepted count is positive for non-empty data and the contents grow by exactly that prefix, which is all of the data unless the pipe is then full or the pointer wraps; otherwise the contents are unchanged |
| `PipeProtocol.SaneStep` | c/ldd3_codes/scull/pipe.c:118-226 | every step of any process, between any two others, leaves the semaphore with at most one holder and the pointers in bounds outside critical sections |
| `PipeProtocol.FifoStep` | c/ldd3_codes/scull/pipe.c:118-226 | every step keeps: bytes returned, then bytes buffered, are the bytes accepted |
| `PipeProtocol.ReadersSoundStep` | c/ldd3_codes/scull/pipe.c:126-152 | every step, opens included, keeps every sleeping or half-decided reader right about the pipe being empty, or a wake-up owed |
| `PipeProtocol.WritersSoundStep` | c/ldd3_codes/scull/pipe.c:159-219 | every step but an open keeps every sleeping or half-decided writer right about the pipe being full, or a wake-up owed |
| `PipeProtocol.PipeIsFifoAndWakesReaders` | c/ldd3_codes/scull/pipe.c:118-226 | in every run of any number of processes: first in, first out since the last open; and a reader asleep on data is owed a wake-up by a writer that has moved the pointer, or wrapped it and released the semaphore, and has not yet called `wake_up` |
| `PipeProtocol.OpenKeepsWritersExactlyWhen` | c/ldd3_codes/scull/pipe.c:78-87 | an open keeps every writer right about the pipe, or owed a wake-up, exactly when one is owed or none unwoken sleeps or has fetched a pointer that will mislead it |
| `PipeProtocol.OpenIsQuietExactlyWhen` | c/ldd3_codes/scull/pipe.c:78-219 | that condition holds exactly when no way of going on before the next open can leave a writer asleep on a pipe with room and no wake-up owed |
| `PipeProtocol.NoisyOpenCanLose` | c/ldd3_codes/scull/pipe.c:78-219 | when it does not hold, a way of going on that loses a writer: at most the opener writes as many bytes as make the stale pointer pair read as full |
| `PipeProtocol.PipeWakesWriters` | c/ldd3_codes/scull/pipe.c:159-219 | over every run from a fresh pipe, writers are right or owed a wake-up all along exactly when every open meets that condition; and then a writer asleep on a pipe with room is owed one |
| `PipeProtocol.OpenLosesWriterExactlyWhen` | c/ldd3_codes/scull/pipe.c:78-87 | of the state right after an open: a writer sleeps with room and no wake-up coming exactly when one slept unwoken before, no reader owed a wake-up, and the buffer has more than one byte |
| `PipeProtocol.OpenCanLoseAWriter` | c/ldd3_codes/scull/pipe.c:78-87 | a run from a fresh two-byte pipe in which an open comes when the writer is asleep |
| `PipeProtocol.OpenCanMisleadAHalfLook` | c/ldd3_codes/scull/pipe.c:78-87 | a run in which it comes when the writer has fetched one pointer and not the other: the writer goes to sleep on an empty pipe |
| `PipeProtocol.NoStandstill` | c/ldd3_codes/scull/pipe.c:126-176 | when no wake-up is owed, a reader and a writer are never both asleep unwoken (buffers of more than one byte) |
| `PipeProtocol.SemaphoreStep` | c/ldd3_codes/scull/pipe.c:123-216 | the semaphore passes from a holder to nobody and from nobody to a process, and a process takes it by `down` and nothing else |
| `PipeProtocol.UpsMatchDowns` | c/ldd3_codes/scull/pipe.c:123-216 | over every run the semaphore becomes free from a process as often as it becomes that process's, once less if it ends as its own; exactly as often for a process that ends where it began |
| `PipeProgress.RequestsReachTheSemaphore` | c/ldd3_codes/scull/pipe.c:118-191 | a read or write reaches the semaphore with the count or data and the mode it was called with |
| `PipeProgress.LockedReaderGoesOn` | c/ldd3_codes/scull/pipe.c:126-150 | a reader with the semaphore takes the first bytes, or faults and leaves all, exactly when there are any; on an empty pipe it releases the semaphore and returns if non-blocking, else waits |
| `PipeProgress.LockedWriterGoesOn` | c/ldd3_codes/scull/pipe.c:156-216 | a writer with the semaphore appends what fits, or faults and leaves what is buffered, exactly when there is room; on a full pipe it releases the semaphore and returns if non-blocking, else waits |
| `PipeProgress.StillLookDecides` | c/ldd3_codes/scull/pipe.c:126-176 | a look at the pointers that nobody disturbs leads to sleep exactly when the pipe is empty, or for a writer full |
| `PipeProgress.WakeReachesTheQueue` | c/ldd3_codes/scull/pipe.c:152-220 | a wake-up makes runnable exactly those on the other queue and moves nobody |
| `PipeProgress.CanGoOnExactlyWhen` | c/ldd3_codes/scull/pipe.c:118-226 | every process can take a step but one asleep and not woken and, while the semaphore is held, one that needs it |
| `ShortpRing.SpaceIsNeverOverstated` | c/ldd3_codes/shortprint/shortprint.c:119-126 | however the tail moves between its two looks and afterwards, the space reported still fits in front of the tail without wrapping |
| `ShortpRing.SpaceWhenTailIsStill` | c/ldd3_codes/shortprint/shortprint.c:119-126 | with no race the space is zero exactly when the queue is full, and never negative |
| `ShortpRing.SpaceIsAllOrToTheEnd` | c/ldd3_codes/shortprint/shortprint.c:119-126 | and it is all that is free, unless the page ends before |
| `ShortpRing.WakesWritersMeans` | c/ldd3_codes/shortprint/shortprint.c:346-348 | the wake-up test is true exactly when more than half a page is free and the queue is not empty |
| `ShortpRing.FillAppends` | c/ldd3_codes/shortprint/shortprint.c:298-304 | advancing the head over stored bytes appends them to the queue |
| `ShortpRing.StrobeRemovesOldest` | c/ldd3_codes/shortprint/shortprint.c:231-240 | advancing the tail removes the oldest byte |
| `ShortprintDevice.ShortpOut.OutSpace` | c/ldd3_codes/shortprint/shortprint.c:119-126 | zero exactly for a full queue, and what is reported fits |
| `ShortprintDevice.ShortpOut.WriteChunk` | c/ldd3_codes/shortprint/shortprint.c:286-311 | refused exactly when full, a fault exactly when less can be copied than data and contiguous space allow, and else exactly that much joins the queue and output is active, all the data unless the queue is then full or the head wraps; refusal and fault change neither |
| `ShortprintDevice.ShortpOut.DoWork` | c/ldd3_codes/shortprint/shortprint.c:325-349 | stops output exactly on an empty queue, else removes the oldest byte; the wake-up goes out exactly for a non-empty queue with more than half a page free |
| `ShortprintProtocol.InvStep` | c/ldd3_codes/shortprint/shortprint.c:271-349 | every interleaved step keeps order, bounds and active output |
| `ShortprintProtocol.QueueKeepsItsPromises` | c/ldd3_codes/shortprint/shortprint.c:271-349 | in every run: bytes strobed, then bytes queued, are the bytes accepted; a non-empty queue has output active or a writer about to start it; every pending store fits |
| `ShortprintProtocol.SleepIsDueExactlyWhen` | c/ldd3_codes/shortprint/shortprint.c:288-293 | a writer that decides to sleep has a wake-up coming exactly when its two looks at the tail were not torn across the wrap with at most the last byte left |
| `ShortprintProtocol.DueIsDelivered` | c/ldd3_codes/shortprint/shortprint.c:286-349 | a coming wake-up is delivered in every run that gives the work item enough turns, and output is active meanwhile |
| `ShortprintProtocol.NotDueIsNeverWoken` | c/ldd3_codes/shortprint/shortprint.c:286-349 | without one, no run ever wakes the sleeper, short of a signal |
| `ShortprintProtocol.WriterCanSleepForever` | c/ldd3_codes/shortprint/shortprint.c:119-126 | for every page size a run from the initial state that leaves a writer asleep on an empty queue, semaphore held, output stopped |
| `ShortprintProgress.StillLookDecides` | c/ldd3_codes/shortprint/shortprint.c:286-300 | a look during which the tail stays asks for all the data, or as much as the queue or the page holds, exactly when the queue is not full; else the writer looks once more, queues and looks, and then sleeps |
| `ShortprintProgress.ChunkGoesIn` | c/ldd3_codes/shortprint/shortprint.c:298-311 | a chunk that can be copied joins the queue; output that was stopped is started by queueing work, and the loop goes on with the rest |
| `ShortprintProgress.ShortCopyFaults` | c/ldd3_codes/shortprint/shortprint.c:300-303 | one that cannot be copied in full ends the write, with the queue as it was |
| `ShortprintProgress.WorkGoesOn` | c/ldd3_codes/shortprint/shortprint.c:332-343 | a round of the work item prints the oldest byte, or stops output exactly when there is none |
| `ShortprintProgress.WorkWakesExactlyWhen` | c/ldd3_codes/shortprint/shortprint.c:345-348 | its last test wakes a waiting writer exactly when more than half of the page is free and the queue not empty |
| `ShortprintProgress.CanGoOnExactlyWhen` | c/ldd3_codes/shortprint/shortprint.c:271-349 | the writer can take a step unless it sleeps and was not woken or needs the lock, and the work item once it is queued |
| `ScullGeometry.PlaceIsBijective` | c/ldd3_codes/scull/main.c:309-312 | the divisions give an in-range place from which the position is recovered |
| `ScullGeometry.PosIsBijective` | c/ldd3_codes/scull/main.c:309-312 | every in-range place is the place of exactly the position computed from it |
| `ScullGeometry.SameQuantum` | c/ldd3_codes/scull/main.c:320-322 | positions up to the end of a quantum lie in its slot, at consecutive offsets |
| `SparseBytes.SlotWrittenMeans` | c/ldd3_codes/scull/main.c:349-374 | copying into the quantum that the divisions select writes exactly the addressed positions, changes no other byte that existed, and brings bytes into being only in that quantum |
| `SparseBytes.ReadReturnsWhatIsThere` | c/ldd3_codes/scull/main.c:304-329 | a read returns the bytes of its positions; it is empty exactly for no count, past the end, or a hole |
| `SparseBytes.StopsShortAtTheEnd` | c/ldd3_codes/scull/main.c:320-322 | a transfer moves fewer bytes than asked for only up to the end of a quantum, and all it moves lie in one |
| `SparseBytes.ReadStopsShort` | c/ldd3_codes/scull/main.c:304-329 | a read that returns fewer bytes ends at a quantum's end or at the size, or begins in a hole |
| `ScullStore.AnswerMeans` | c/ldd3_codes/scull/main.c:304-329 | a read faults exactly when its copy does and there is a byte to copy |
| `ScullStore.ScullDev.constructor` | c/ldd3_codes/scull/main.c:79-82 | a new device is empty, with the given geometry |
| `ScullStore.ScullDev.Append` | c/ldd3_codes/scull/main.c:266-281 | one new item, without a table, is linked at the end of the list |
| `ScullStore.ScullDev.Follow` | c/ldd3_codes/scull/main.c:262-286 | reaches the n-th list item behind those already there, creating exactly the missing ones; null exactly when an allocation for one of these is refused, and then with as many created as were granted |
| `ScullStore.ScullDev.EnsureTable` | c/ldd3_codes/scull/main.c:358-363 | an item without a table gets one exactly when the allocation is granted; a table that exists stays; the bytes of the device stay the same |
| `ScullStore.ScullDev.PutBytes` | c/ldd3_codes/scull/main.c:364-376 | the bytes arrive unless a new quantum is needed and refused, and then the bytes of the device stay the same |
| `ScullStore.ScullDev.Write` | c/ldd3_codes/scull/main.c:336-387 | out of memory exactly when the allocator refuses one of the list items, table and quantum that are missing, and then contents and size stay; else one overwrite of the sparse byte map, up to the end of the quantum, whose end the size covers |
| `ScullStore.ScullDev.Read` | c/ldd3_codes/scull/main.c:292-334 | the answer is the sparse byte map's, a fault only where a byte would have been copied; the bytes of the device stay the same |
| `ScullStore.ScullDev.FreeAll` | c/ldd3_codes/scull/main.c:69-78 | frees every list item once, in order, and every quantum once |
| `ScullStore.ScullDev.Trim` | c/ldd3_codes/scull/main.c:63-84 | leaves an empty device with the module's geometry, everything freed once |
| `ScullStore.WriteAll` | c/ldd3_codes/scull/main.c:336-387 | repeating short writes stores the whole buffer at its positions exactly when as many allocations are granted as its bytes need in all, and says so |
| `Layouts.WithCosts` | c/ldd3_codes/scull/main.c:349-363 | what one slot adds to what a device has allocated is the missing list items up to it, its table if that is missing, and its quantum if that is |
| `Layouts.CoveringSteps` | c/ldd3_codes/scull/main.c:336-387 | what a stretch of bytes needs is the first write's slot, and what a device that has it needs for the rest |
| `ScullStore.ScullDev.NeededIsGrowth` | c/ldd3_codes/scull/main.c:349-363 | the allocations one write needs are what its slot adds to what the device has |
| `ScullStore.ReadAll` | c/ldd3_codes/scull/main.c:292-334 | repeating short reads returns held bytes, stopping short only at the size or a hole |
| `ScullStore.WriteThenRead` | c/ldd3_codes/scull/main.c:292-387 | when as many allocations are granted as its bytes need, a whole buffer written by short writes comes back by short reads, on any device, at any position, and whatever memory the reads find; and exactly then it is written |
| `SnullCounts.TotalStep` | c/ldd3_codes/snull/snull.c:132-186 | every interleaved step conserves every weighting of packets over the lists and hands |
| `SnullRuns.EachPacketInOnePlace` | c/ldd3_codes/snull/snull.c:98-186 | in every run, races included, each packet is in exactly one list or one context's hands |
| `SnullCounts.CountsStep` | c/ldd3_codes/snull/snull.c:287-418 | every step keeps packets sent equal to those received, dropped or queued at the twin |
| `SnullCounts.ReceivedStep` | c/ldd3_codes/snull/snull.c:261-318 | a step that takes a packet off a receive queue counts it as received exactly when a buffer is granted and as dropped when it is refused; no other changes either count |
| `SnullRuns.ReceivedAreTheGranted` | c/ldd3_codes/snull/snull.c:261-318 | over every run, packets received are those taken off the queue with a buffer granted, packets dropped those with one refused |
| `SnullRuns.PollKeepsToItsQuota` | c/ldd3_codes/snull/snull.c:287-325 | a poll that has not ended has received no more than its quota, and ends when that is used up or nothing is queued |
| `SnullProtocol.TransmitsGoOn` | c/ldd3_codes/snull/snull.c:439-505 | a transmit begins exactly while the queue runs, and stops halfway only for want of a buffer |
| `SnullProtocol.PollsGoOn` | c/ldd3_codes/snull/snull.c:287-325 | a poll begins exactly when one is scheduled, and always has a next step |
| `SnullRuns.PollAloneEnds` | c/ldd3_codes/snull/snull.c:319-325 | a poll that ends with packets left stays scheduled; one that has taken all is over, with interrupts on again |
| `SnullRuns.HandlersExclude` | c/ldd3_codes/snull/snull.c:336-418 | in every run no interface is served by two handlers at once |
| `SnullRuns.ServedIsLeftAlone` | c/ldd3_codes/snull/snull.c:132-186 | while a handler serves an interface nobody else touches its pool and its queue |
| `SnullCounts.TxCountedStepExactlyWhen` | c/ldd3_codes/snull/snull.c:486-503 | a step keeps packets sent equal to those counted as transmitted, or about to be, exactly when it does not store over, or act on, a transmit bit that has changed since it was loaded |
| `SnullCounts.PromptStepExactlyWhen` | c/ldd3_codes/snull/snull.c:487-490 | without NAPI, a step keeps packets queued only while their receive bit is to be raised or stands, exactly when it does not so treat a receive bit and thereby miss a packet or take one too early |
| `SnullRuns.TransmitsAreCountedExactlyWhen` | c/ldd3_codes/snull/snull.c:486-503 | over every run, transmitted packets are counted rightly all along exactly when no transmit bit is lost or brought back |
| `SnullRuns.PacketsAreReceivedExactlyWhen` | c/ldd3_codes/snull/snull.c:487-490 | over every run without NAPI, packets are received promptly all along exactly when no handler misses or imagines one |
| `SnullLostBits.TransmitBitCanBeLost` | c/ldd3_codes/snull/snull.c:487-495 | for every pool size, a run in which two interfaces that transmit at once lose a transmit bit, so that at rest a packet sent is not counted |
| `SnullLostBits.ReceiveBitCanBeLost` | c/ldd3_codes/snull/snull.c:487-495 | for every pool size, a run without NAPI in which they lose a receive bit, so that at rest a packet lies in the queue; it stays its last in every run on in which no handler misses or imagines a packet |
| `SnullRuns.LeftPacketsStayExactlyWhen` | c/ldd3_codes/snull/snull.c:287-418 | without NAPI, packets that lie there unreceived stay the last of their queues, with every other received promptly, all along a run exactly when no handler misses or imagines one |
| `SnullLostBits.LostPacketCanTurnUp` | c/ldd3_codes/snull/snull.c:487-495 | a run on in which such a mistake takes the packet that lay there |
| `SnullLostBits.LostBitsCanStallTheSender` | c/ldd3_codes/snull/snull.c:487-495 | for every pool size, a run under NAPI in which receive bits are lost until all the sender's packets lie at the other side, interrupts on, and no poll has ever begun |
| `SnullRuns.PacketsAreConserved` | c/ldd3_codes/snull/snull.c:287-503 | in every run: pool, packets queued at the twin and packets in hand make up the pool size; sent = rx_packets + rx_dropped + queued |
| `SnullWakeups.SafeExactlyWhen` | c/ldd3_codes/snull/snull.c:150-161 | a step keeps an empty pool's queue stopped, and transmits under way supplied, exactly when it is not the last stage of a wake test whose pool is empty by then |
| `SnullWakeups.DueStep` | c/ldd3_codes/snull/snull.c:150-161 | a queue stopped over free buffers always has a wake test under way that will restart it |
| `SnullRuns.QueuesAreSafeExactlyWhen` | c/ldd3_codes/snull/snull.c:132-161 | over every run, queues of empty pools are stopped, transmits under way find a buffer, and queues stopped over free buffers have their wake-up coming, all along exactly when no wake test wakes the queue of an empty pool |
| `SnullRuns.AtRestStoppedExactlyWhenEmpty` | c/ldd3_codes/snull/snull.c:132-161 | with nothing under way all packets are pooled or queued at the twin; all sent are counted as transmitted if no transmit bit was disturbed; none is queued without NAPI if no receive was misled, and with it a poll is scheduled for those queued if none was left behind; a queue is stopped exactly when its pool is empty if no empty pool was woken |
| `SnullRaces.WakeCanFireOnEmptyPool` | c/ldd3_codes/snull/snull.c:159-160 | under NAPI, for every pool size from two on, a run in which the link read after the lock is dropped restarts a queue over an empty pool, so that the next transmit finds no buffer |
| `SnullEmptyPools.SecureStep` | c/ldd3_codes/snull/snull.c:150-161 | without NAPI every step keeps a packet in each pool, or on its way back, while one released to it is under test, and none wakes the queue of an empty pool |
| `SnullEmptyPools.SingleStep` | c/ldd3_codes/snull/snull.c:150-161 | with one buffer per pool every step keeps the queue stopped, and the buffer in the pool, while that is under test, and none wakes the queue of an empty pool |
| `SnullRaces.EmptyPoolIsWokenExactlyWhen` | c/ldd3_codes/snull/snull.c:150-161 | some run wakes the queue of an empty pool exactly under NAPI with two buffers per pool or more |
| `SnullRuns.AttendedStepExactlyWhen` | c/ldd3_codes/snull/snull.c:287-418 | under NAPI a step keeps every queued packet attended to, by a poll, a handler or its sender, exactly when it neither strands one nor stores or acts on a stale receive bit in a way that matters |
| `SnullRuns.PacketsAreAttendedExactlyWhen` | c/ldd3_codes/snull/snull.c:287-418 | over every run under NAPI, queued packets are attended to all along exactly when no step is of that kind |
| `SnullRuns.EnableIntsStrandsExactlyWhen` | c/ldd3_codes/snull/snull.c:320-324 | re-enabling interrupts strands packets exactly when some arrived since the poll saw none and their sender has already looked at the switch |
| `SnullRaces.PollCanStallTheSender` | c/ldd3_codes/snull/snull.c:320-324 | for every pool size, a run in which that stalls the sender |
| `SnullRaces.StalledStays` | c/ldd3_codes/snull/snull.c:481-503 | over every run on from there the sender stays stalled and sends nothing |
| `SnullDevice.SnullPriv.constructor` | c/ldd3_codes/snull/snull.c:98-115 | the pool is a list of distinct packets, as many as asked for or as were granted, and the queue runs |
| `SnullDevice.SnullPriv.GetTxBuffer` | c/ldd3_codes/snull/snull.c:132-147 | takes the first packet of the pool, and stops the queue exactly when it was the last |
| `SnullDevice.SnullPriv.ReleaseBuffer` | c/ldd3_codes/snull/snull.c:150-161 | puts the packet first in the pool, and restarts the queue exactly when the pool was empty |
| `SnullDevice.SnullPriv.EnqueueBuf` | c/ldd3_codes/snull/snull.c:163-172 | puts the packet first on the receive queue: last in, first out |
| `SnullDevice.SnullPriv.DequeueBuf` | c/ldd3_codes/snull/snull.c:174-186 | takes the first packet of the receive queue, or none from an empty one |
| `SingleOpen.InvStep` | c/ldd3_codes/scull/access.c:52-72 | every step keeps the counter at one less the holders less the refused openers still to undo |
| `SingleOpen.AtMostOneHolder` | c/ldd3_codes/scull/access.c:52-72 | in every run at most one process holds the device |
| `SingleOpen.OpenSucceedsExactlyWhen` | c/ldd3_codes/scull/access.c:56-59 | an open succeeds exactly when nobody holds the device and no refused opener is still undoing |
| `SingleOpen.OpenThenCloseIsNothing` | c/ldd3_codes/scull/access.c:56-72 | an open and its close, or its undoing when refused, leave everything as it was |
| `BlockingOpen.LookStep` | c/ldd3_codes/scull/access.c:176-206 | every step keeps every half-made unlocked look and every sleep right, or a wake-up owed |
| `BlockingOpen.InvStep` | c/ldd3_codes/scull/access.c:171-207 | every step keeps the count, the access rule and the soundness of sleeps |
| `BlockingOpen.BlockingOpenKeeps` | c/ldd3_codes/scull/access.c:156-207 | in every run: the count is the number of holders, every holder is the owner by uid or euid or may override, and a sleeper who could open is owed a wake-up by a releaser |
| `BlockingOpen.OpenSucceedsExactlyWhen` | c/ldd3_codes/scull/access.c:168-186 | an open takes the device exactly when it is closed or the opener runs as its owner or may override, and owns it when it was closed; otherwise a non-blocking opener returns and a blocking one queues or tries again |
| `BlockingOpen.StillLookDecides` | c/ldd3_codes/scull/access.c:156-180 | a look at the condition that nobody disturbs leads to sleep exactly when the device is not to be had |
| `BlockingOpen.CloseWakesExactlyWhen` | c/ldd3_codes/scull/access.c:195-207 | a close lowers the count, and wakes the others exactly when nobody holds the device any more |
| `BlockingOpen.WakeReachesTheQueue` | c/ldd3_codes/scull/access.c:205-206 | a wake-up makes runnable exactly those who wait and moves nobody |
| `BlockingOpen.CanGoOnExactlyWhen` | c/ldd3_codes/scull/access.c:166-207 | every process can take a step but one asleep and not woken |
| `ClonedDevices.DeviceList.LookFor` | c/ldd3_codes/scull/access.c:246-270 | returns the device of the key if there is one, changing nothing; else, with memory, puts a fresh empty one in front, and without, returns none and changes nothing; keys stay distinct |
| `ScullpPages.PageNumberPlaces` | c/ldd3_codes/scullp/mmap.c:77-82 | item, slot and offset by counting pages and dividing by the table size are those of a read's divisions, for every position |
| `ScullpPages.ScullpDev.NoPage` | c/ldd3_codes/scullp/mmap.c:60-93 | the subtracting walk along the list finds the page of the position, or null exactly at a hole or past the size; it changes nothing |
| `ScullpPages.ScullpDev.FaultAndReadAgree` | c/ldd3_codes/scullp/mmap.c:60-93 | a page fault finds a page exactly where a non-empty read returns bytes, and it is the page they are copied from |
| `ScullpPages.ScullpDev.MappedPageShowsTheDevice` | c/ldd3_codes/scullp/mmap.c:77-87 | every byte of the page found is the device's byte at the position that shares its page |
| `ScullpPages.ScullpDev.Follow` | c/ldd3_codes/scullp/main.c:151-162 | reaches the n-th item behind those already there, creating exactly the missing ones |
| `ScullpPages.ScullpDev.EnsurePage` | c/ldd3_codes/scullp/main.c:244-250 | an empty slot gets a block of zeros, as large as its list item's order says, exactly when the allocation is granted; a filled slot keeps its block |
| `ScullpPages.ScullpDev.Write` | c/ldd3_codes/scullp/main.c:216-268 | out of memory exactly when a missing table or page is refused, and then contents and size stay; else overwrites exactly the addressed positions; other new bytes are zero; every block that existed stays the same page in the same slot, so that mappings see the write |
| `ScullpPages.ScullpDev.WritesStayInBlockExactlyWhen` | c/ldd3_codes/scullp/main.c:224-258 | writes to a position, of whatever length, stay inside the block that is allocated for its slot exactly when the order is 0 or the position belongs to the first list item |
| `ScullpPages.ScullpDev.SecondItemIsTooSmall` | c/ldd3_codes/scullp/main.c:151-162 | on a device of any other order a whole slot does not fit the block of the second list item |
| `ScullpPages.ScullpDev.Read` | c/ldd3_codes/scullp/main.c:168-212 | for every order, answers as the sparse byte map, also at a position equal to the size; creates no block |
| `ScullpPages.ScullpDev.Mmap` | c/ldd3_codes/scullp/mmap.c:104-118 | succeeds exactly for order 0 and then counts one mapping |
| `ScullpPages.ScullpDev.FreeAll` | c/ldd3_codes/scullp/main.c:491-504 | frees every page once |
| `ScullpPages.ScullpDev.Trim` | c/ldd3_codes/scullp/main.c:482-510 | refused exactly while something is mapped, and then nothing changes; otherwise every page is freed once and the device is as new |
| `ScullpMappings.CountedStepExactlyWhen` | c/ldd3_codes/scullp/mmap.c:33-45 | a step keeps the count equal to the number of mappings exactly when it does not write back a count that has changed since it was read |
| `ScullpMappings.OrderSoundStepExactlyWhen` | c/ldd3_codes/scullp/mmap.c:104-118 | a step gives a device that is mapped, or about to be, another order than 0 exactly when it is a trim's reset to one that a mapping has overtaken |
| `ScullpMappings.ApartStepExactlyWhen` | c/ldd3_codes/scullp/mmap.c:104-118 | with the count right, a step lets a trim free pages under a mapping exactly when it counts a mapping during a trim |
| `ScullpMappings.MappingIsSafeExactlyWhen` | c/ldd3_codes/scullp/mmap.c:33-118 | over every run each of these holds all along exactly when no step of its kind occurs |
| `ScullpMappings.MappedDevicesAreLeftAlone` | c/ldd3_codes/scullp/mmap.c:33-118 | at the end of a run without any of them a mapped device has order 0, no trim is under way, and one that begins is refused |
| `ScullpMappings.MappingCanOvertakeTrim` | c/ldd3_codes/scullp/mmap.c:104-118 | a run in which a mapping looks at the order while a trim is under way, and ends up mapping a device of order 2 |
| `ScullpMappings.TrimCanFreeUnderAMapping` | c/ldd3_codes/scullp/mmap.c:104-118 | a run in which a mapping is counted while a trim is freeing the pages |
| `ScullpMappings.CountCanBeLost` | c/ldd3_codes/scullp/mmap.c:33-45 | a run in which two processes count at once, one unmaps, and a trim begins under the mapping of the other |
| `ScullpMappings.MapAlone` | c/ldd3_codes/scullp/mmap.c:33-45 | with nobody else acting, a mapping is refused exactly for a non-zero order, else counted, and unmapping undoes it |
| `ScullpMappings.TrimAlone` | c/ldd3_codes/scullp/main.c:482-510 | with nobody else acting, a trim is refused exactly while mappings are counted, else sets the new order and nothing else |
| `ScullpMappings.OneTrimAtATime` | c/ldd3_codes/scullp/main.c:134-140 | the semaphore keeps trims apart |
| `DragonHeads.Exchange` | c/UVA/uva11292/uva11292.cpp:44-51 | any plan can be traded, at no more pay, so that the weakest usable knight cuts the smallest head |
| `DragonHeads.WeakKnightUnused` | c/UVA/uva11292/uva11292.cpp:44-51 | a knight too weak for the smallest head takes part in no plan |
| `DragonHeads.GreedyBeatsPlans` | c/UVA/uva11292/uva11292.cpp:44-51 | whenever a plan exists the greedy finds one, and pays no more |
| `DragonHeads.GreedyIsAPlan` | c/UVA/uva11292/uva11292.cpp:44-51 | what the greedy pays is the pay of an actual plan |
| `DragonHeads.HireInOrder` | c/UVA/uva11292/uva11292.cpp:44-59 | the loop ends with the greedy's verdict on the two sorted arrays |
| `DragonHeads.Solve` | c/UVA/uva11292/uva11292.cpp:37-59 | doom is printed exactly when no plan of strong enough distinct knights exists, and else the least pay of any |
| `DragonHeads.NoHeadsAreFree` | c/UVA/uva11292/uva11292.cpp:37-59 | no heads cost nothing |
| `DragonHeads.OneHeadOneKnight` | c/UVA/uva11292/uva11292.cpp:44-51 | one knight cuts one head exactly when he is at least as strong as that is big, and is paid his strength |
| `CoinTransfers.TransferIsShift` | c/UVA/uva11300/uva11300.c:35-38 | every balanced transfer is the prefix sums shifted by one number |
| `CoinTransfers.BalancedNeedsDivisibility` | c/UVA/uva11300/uva11300.c:34-38 | a balanced transfer exists only when the share times the people is the total |
| `CoinTransfers.ShiftIsBalanced` | c/UVA/uva11300/uva11300.c:35-38 | and then every shift of the prefix sums is one |
| `CoinTransfers.MedianIsNearest` | c/UVA/uva11300/uva11300.c:39-42 | no number has a smaller sum of distances to a sorted sequence than its middle element |
| `CoinTransfers.MedianIsLeast` | c/UVA/uva11300/uva11300.c:39-42 | no balanced transfer moves fewer coins than the printed sum |
| `CoinTransfers.MedianSuffices` | c/UVA/uva11300/uva11300.c:39-42 | some balanced transfer moves exactly that many |
| `CoinTransfers.MovedAddsUp` | c/UVA/uva11300/uva11300.c:40-42 | the coins moved are the sum over the people of what each passes on, either way, and none for nobody |
| `CoinTransfers.ZeroExactlyWhenEven` | c/UVA/uva11300/uva11300.c:28-43 | the least number is zero exactly on a table where everyone has the share |
| `CoinTransfers.Solve` | c/UVA/uva11300/uva11300.c:28-43 | prints the least number of coins that must move when the share is exact; when it is not, no transfer evens out |
| `CommandoBrief.SwapNeighbours` | c/UVA/uva11729/uva11729.cpp:14-24 | briefing the longer worker of two neighbours first finishes no later |
| `CommandoBrief.MoveToFront` | c/UVA/uva11729/uva11729.cpp:46-50 | so does moving him to the front past people with no more work |
| `CommandoBrief.DescendingIsBest` | c/UVA/uva11729/uva11729.cpp:46-50 | descending work finishes no later than any other order of the same people |
| `CommandoBrief.LatestIsTheLargest` | c/UVA/uva11729/uva11729.cpp:47-50 | what the loop computes is the largest of the earlier answer and of every soldier's own finish, his briefing after all before him and then his work |
| `CommandoBrief.FloorsCombine` | c/UVA/uva11729/uva11729.cpp:47-50 | an optimum above an earlier answer is the larger of the two |
| `CommandoBrief.SolveCase` | c/UVA/uva11729/uva11729.cpp:46-50 | one case leaves `ans` at its optimum over all orders, above the `ans` it began with |
| `CommandoBrief.SolveAll` | c/UVA/uva11729/uva11729.cpp:32-52 | the number printed for each case is the largest optimum of the cases so far; it is the case's own exactly when no earlier optimum is larger |
| `CommandoBrief.SecondCaseCanBeWrong` | c/UVA/uva11729/uva11729.cpp:41-52 | two cases of one soldier each, with optima five and one, for which five is printed twice |
| `Sorting.Sort` | c/UVA/uva11729/uva11729.cpp:46 | the sorted array is ascending in the key and a permutation |
| `ClockMoves.PlayIsAfterCounts` | c/bfs/clock.cpp:91-102 | where the dials stand after any moves depends only on how often each was made |
| `ClockMoves.TableIsTheLayout` | c/bfs/clock.cpp:11 | the table of moves by the layout of the dials: four around a corner, three along an edge, five across the middle |
| `ClockMoves.TurnIsThreeHours` | c/bfs/clock.cpp:91-102 | a move takes its dials three hours on, past twelve to where they began, and no others |
| `ClockMoves.AfterReduce` | c/bfs/clock.cpp:48 | uses modulo four turn the dials the same |
| `ClockMoves.SolutionsReduce` | c/bfs/clock.cpp:48 | every solution is matched by one, no longer, with at most three uses of each move |
| `ClockAlgebra.UndoTurning` | c/bfs/clock.cpp:11 | undoing the table of moves and its inverse modulo four: every use is recovered up to a multiple of four |
| `ClockAlgebra.TurnUndoing` | c/bfs/clock.cpp:11 | and every quarter turn likewise |
| `ClockAlgebra.QuartersAreSolvable` | c/bfs/clock.cpp:38-76 | dials that all stand on quarters have a solution, given explicitly |
| `ClockAlgebra.SolvableIsOnQuarters` | c/bfs/clock.cpp:91-102 | dials that have one all stand on quarters |
| `ClockAlgebra.SolutionIsUnique` | c/bfs/clock.cpp:38-76 | no dials have two solutions with at most three uses of each move |
| `ClockAlgebra.SolvedStaysOnlyByNone` | c/bfs/clock.cpp:38-76 | from solved dials no reduced use but none leads back to solved dials |
| `ClockSearch.PushInv` | c/bfs/clock.cpp:46-59 | adding a child keeps the queue well linked, complete so far, without repetition and in layers |
| `ClockSearch.Covers` | c/bfs/clock.cpp:42-75 | when a head is reached, every reduced use no larger than the head's is in the queue; when the queue runs out, every one |
| `ClockSearch.QueueBound` | c/bfs/clock.cpp:12 | distinct reduced uses are at most 4^9, so that indices stay below 262144 and inside the arrays of 270000 |
| `ClockSearch.FirstSolvedIsShortest` | c/bfs/clock.cpp:61-72 | when the first solved entry appears, no sequence of moves in any order or number solves in fewer |
| `ClockSearch.ExhaustedMeansNone` | c/bfs/clock.cpp:42-75 | when none appears, no sequence solves |
| `ClockSearch.Work` | c/bfs/clock.cpp:91-102 | the new entry holds the dials of its parent after the move; no other entry changes |
| `ClockSearch.Check` | c/bfs/clock.cpp:78-89 | true exactly when all nine dials are at zero |
| `ClockSearch.Trace` | c/bfs/clock.cpp:63-69 | following the parents gives the moves of the entry, first to last |
| `ClockSearch.Bfs` | c/bfs/clock.cpp:38-76 | an answer solves the dials, is in non-decreasing order and, for unsolved dials, no sequence of any kind is shorter; no answer for unsolved dials means that none exists |
| `ClockAlgebra.Solve` | c/bfs/clock.cpp:20-32 | an answer is printed exactly for dials on quarters and not all at zero, and is a shortest one; otherwise none exists or none is needed |
| `Base64Text.EncodedLength` | c/base64/base64.c:43 | four symbols for every started group of three bytes |
| `Base64Text.AlphabetInOrder` | c/base64/base64.c:17-18 | the symbols are the 64 characters of the table in order |
| `Base64Text.TableMarksTheRest` | c/base64/base64.c:133-140 | the decoder's table counts padding as zero bits and marks exactly what is neither padding nor a symbol |
| `Base64Text.SymbolsHoldTheBits` | c/base64/base64.c:64-70 | four symbols hold the bits of three bytes in order, the first highest |
| `Base64Text.ShortGroupsArePadded` | c/base64/base64.c:80-98 | a group of one or two bytes is that of three with zero bits, and pads for what is missing |
| `Base64Text.TextFits` | c/base64/base64.c:43-45 | for every input the text with line feeds and the final zero byte fits in the computed size |
| `Base64Text.OneByteFillsTheRoom` | c/base64/base64.c:43-45 | for one byte it fills that size completely |
| `Base64Text.OverflowIsFoundExactly` | c/base64/base64.c:43-50 | with any `size_t` of 65536 values or more, the test for overflow fires exactly when four times the length wraps; when it does not fire, nothing wrapped |
| `Base64Text.LinesAreShort` | c/base64/base64.c:73-77 | any 73 bytes in a row of the text hold a line feed |
| `Base64Text.LineFeedsExactlyAt` | c/base64/base64.c:73-77 | line feeds stand exactly after every 72 symbols and at the end |
| `Base64Text.DecodeUndoesEncode` | c/base64/base64.c:35-214 | decoding the encoding of any non-empty bytes gives them back; the encoding of none is refused |
| `Base64Text.StrangeBytesAreIgnored` | c/base64/base64.c:167-174 | inserting any bytes outside the alphabet and `=` anywhere in any text leaves the decoder's answer the same |
| `Base64Text.DecodesExactlyWhen` | c/base64/base64.c:152-207 | a text decodes exactly when its alphabet and `=` bytes are a positive multiple of four in number and the first block with padding has at most two pads |
| `Base64Text.EncodeUndoesDecodeExactlyWhen` | c/base64/base64.c:176-209 | encoding a decoded text gives its symbols back exactly when they are canonical: padding only at the very end and no non-zero bits in front of it |
| `Base64Text.DecodesToOtherText` | c/base64/base64.c:176-209 | a text that decodes and is not the encoding of what it decodes to |
| `Base64Codec.StoreGroups` | c/base64/base64.c:64-78 | the loop stores the broken lines of the groups it has read and stays inside the buffer |
| `Base64Codec.StoreRest` | c/base64/base64.c:80-103 | the rest, its padding and the last line feed complete the text, with room for the zero byte |
| `Base64Codec.Encode` | c/base64/base64.c:35-113 | null exactly on overflow or failed allocation; else the buffer of the computed size holds the lines of the encoding and a zero byte |
| `Base64Codec.Table` | c/base64/base64.c:133-140 | the filled table holds every byte's value |
| `Base64Codec.CountKept` | c/base64/base64.c:142-150 | the first loop counts the alphabet and `=` bytes |
| `Base64Codec.StoreBlock` | c/base64/base64.c:184-209 | a full block is stored as three bytes and one is taken back for each of one or two pads; more are refused |
| `Base64Codec.StoreBlocks` | c/base64/base64.c:165-211 | the second loop never stores beyond count / 4 * 3 bytes, even before it steps back, and leaves the decoded bytes |
| `Base64Codec.Decode` | c/base64/base64.c:126-215 | null exactly when the text does not decode or allocation fails; else the decoded bytes |
| `Beads.Mod` | c/USACO/S1.1-beads/beads.c:22-29 | the remainder is not negative, for every n |
| `Beads.NBreak` | c/USACO/S1.1-beads/beads.c:36-72 | the beads at the positions of the run returned have one colour apart from white, and with one position more they would not, unless it is the whole necklace |
| `Beads.BeadsOfSide` | c/USACO/S1.1-beads/beads.c:42-60 | the beads in the order in which they come off one side are those at that many positions from the break |
| `Beads.TakenSize` | c/USACO/S1.1-beads/beads.c:97-107 | the positions taken from both ends of a break number min(length, forwards + backwards) |
| `Beads.MostBeads` | c/USACO/S1.1-beads/beads.c:87-108 | the number printed is the number of distinct beads some break gives, and no break gives more, whatever positions of one colour are taken |
| `PrimePrinters.StepKeeps` | c/mass/step1.c:10-26 | one round of the flattened loop keeps the divisor count of its row and extends the output towards the primes |
| `PrimePrinters.Flattened` | c/mass/step1.c:4-30 | for every `cap`, negative ones included, prints exactly the primes below it in order |
| `PrimeNumbers.PrimesInOrder` | c/mass/step1.c:10-26 | the numbers meant are all primes below the cap, each once and after the smaller ones |
| `PrimePrinters.RecursionPrintsTheSame` | c/mass/step2.c:4-29 | for every `cap` of 2 or more the recursion prints what the loop prints, whatever count it starts with |
| `PrimePrinters.StopsExactlyWhen` | c/mass/step2.c:9-28 | for every `cap` but 0 the recursion ends exactly when `cap` is 2 or more |
| `PrimeNumbers.SquareOfPrime` | c/mass/origin.c:13-16 | the square of a prime has no divisor between 1 and the prime |
| `PrimeNumbers.PassesExactlyWhen` | c/mass/origin.c:13-20 | testing divisors whose square is below the number lets through exactly the primes and the squares of primes |
| `PrimePrinters.CountDivisors` | c/mass/origin.c:12-16 | the inner loop ends with zero exactly for numbers that pass that test |
| `PrimePrinters.Nested` | c/mass/origin.c:5-23 | for every `cap` prints exactly the primes and squares of primes below it in order |
| `PrimePrinters.PrimesAndSquaresInOrder` | c/mass/origin.c:5-23 | the numbers meant are all of these below the cap, each once and after the smaller ones |
| `PrimePrinters.NestedPrintsFour` | c/mass/origin.c:13 | 4 is printed and is no prime |
| `LineFilter.EmitMeans` | c/fsm/fsm.c:175-180 | from each state the table prints what is left of the first word of the line, then the lines after it |
| `LineFilter.FirstWordMeans` | c/fsm/tradition.c:19-40 | the first word of a line lies between leading blanks and the next blank or the end, and is empty only in a blank line |
| `LineFilter.LinesSeparately` | c/fsm/tradition.c:19-40 | what is printed for a line, a line feed and more text is its first word, a line feed, and what is printed for the rest |
| `LineFilter.Step` | c/fsm/fsm.c:182-191 | a step prints and moves as the table says, whatever follows |
| `LineFilter.Automaton` | c/fsm/fsm.c:193-202 | for every text: the first blank-delimited word of each line, with the line feeds there are |
| `LineFilter.StateMachine.FeedChar` | c/fsm/obfsm.cpp:43-50 | the object's state and output move as the table says |
| `LineFilter.ObjectFilter` | c/fsm/obfsm.cpp:60-69 | the object prints the same for every text |
| `LineFilter.Traditional` | c/fsm/tradition.c:19-40 | the nested loops print the same text and exactly one line feed more, for every text |

## Left out

- Kernel plumbing: device registration, proc files, `ioctl` numbers, `poll` tables, `fasync`, module start and end.
- Hardware and time: port input and output, timers, strobe delays, the printer's busy wait. The timer of shortprint appears only as one more reason for a work item.
- Memory order: a step reads or writes shared memory as a single order of all steps would.
- Integer widths: mathematical integers everywhere but in base64, where `size_t` is modelled with any number of values from 65536 on.
- A change of `scull_p_buffer` while a pipe has a buffer, after which the size no longer fits the buffer.
- The read side of shortprint, which holds interrupt times and may overrun by design.
- snull with `lockup` set, transmit timeouts, and interfaces going down while packets are under way; packet contents and addresses.
- SnullDevice.SnullPriv.ReleaseBuffer: its wake test follows the push with nobody in between; the other snull files model what others may do there.
- scull samples quantum and qset before it takes the semaphore; reads and writes are modelled without a trim in between.
- ScullStore.ScullDev.PutBytes: quanta are held in their tables by value, so that two slots cannot share one; `ScullpPages` models pages as objects.
- ScullpPages.ScullpDev.Write: copies that stay inside the block of their slot; where the block is smaller than the slot, what a copy that leaves it hits is not part of this model.
- ScullpPages.ScullpDev.FaultAndReadAgree: for order 0, the only one that can be mapped.
- ScullpPages.ScullpDev.MappedPageShowsTheDevice: for order 0 likewise.
- ScullpPages.ScullpDev.Follow: the list item's allocation succeeds, since the code does not test it.
- ScullpPages.ScullpDev.Read: copies that stay inside the block, likewise; the sparse byte map shows zeros for bytes that a short block lacks.
- The page count that `get_page` raises, and what becomes of a page whose mapping outlives the device.
- The uid device without blocking, which is the blocking one with every opener non-blocking; and the write-only opens that empty a device.
- BlockingOpen.BlockingOpenKeeps: the first, unlocked, evaluation of the wait condition may come out either way, which covers every interleaving of it.
- The library sort is modelled by a sort of this project's own with the same contract; reading input and printing, and the limits of the input arrays.
- CommandoBrief.SolveCase: briefing times are not negative, as the problem states.
- ClockAlgebra.Solve: dials are 0 to 11 on input, which the remainder in the program gives for hours that are not negative; the answer is a sequence of moves rather than a string of digits and blanks.
- Base64Text.DecodeUndoesEncode: stated on the texts that the two methods are proved to compute; the alphabet is a function on ranges rather than a table of 64 characters.
- Base64Codec.Encode: `out_len` is always asked for.
- PrimePrinters.Flattened: numbers are returned in order rather than printed with tabs; the recursion of `step2.c` for a `cap` of 0 divides by zero and is left undefined.
- The fsm variants that are commented out in `fsm.c`.
- Near copies of the same drivers (scullc, sculld, scullv, ak_driver), and sbull, tiny_tty, usb-skeleton, scull_kfifo and short, whose behaviour is mostly in kernel calls.
- Everything else in the collection: syntax samples, sockets, thread demos, scripts, and exercises easier than the ones above.
