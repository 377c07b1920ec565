# whisperlib: queues, paths and the selector

A Dafny model of the parts of whisperlib whose correctness is hard to see from the code: the lock-free
queues and their building blocks, path normalisation, and the selector's callback queue and poll table.
`dafny verify dfyconfig.toml` checks everything.

**Two kinds of model.** Code that several threads run at once is a state machine: a thread has a program
counter, one step is one atomic load, store, read-modify-write, system call or access under a mutex, any
thread may move next, and the theorems speak of every reachable state of every run with any number of
threads. Variables marked as history (tickets, tallies, logs) are written but never read by a step. Code
that one thread runs is imperative Dafny with the source's own loops and fields, each method proved
against a specification about which the rest is proved.

| file | models |
|---|---|
| `RingQueue.dfy` | `LockFreeProducerConsumerQueue`, the ticket ring buffer |
| `FreeList.dfy` | the reference-counted lock-free `FreeList` of `ConcurrentQueue` |
| `OptimisticDequeue.dfy` | the four counters of one sub-queue that dequeues race on |
| `BlockRing.dfy` | `ExplicitProducer` on its own: circular list of blocks with a circular, growing index |
| `RacingBlocks.dfy` | `ExplicitProducer` with many consumers: the counters joined with blocks, empty flags, block reuse and the index, which grows by replacement |
| `RacingCalls.dfy` | whole calls of the latter: when an enqueue or a dequeue ends, and with what |
| `Overfill.dfy` | a run of `RacingBlocks.dfy` that exceeds the limits on the size |
| `ImplicitIndex.dfy` | the block index of `ImplicitProducer` |
| `Semaphore.dfy`, `BlockingQueue.dfy` | `LightweightSemaphore`, and `BlockingConcurrentQueue` on top of it |
| `PathStrings.dfy`, `PathNormalize.dfy` | `path::Normalize` |
| `Selector.dfy`, `CallbackQueue.dfy` | the selector's callback queue, with other threads and on its own |
| `PollTable.dfy` | `PollSelectorLoop`'s slot table |
| `Bits.dfy` | powers of two, masks, wrapped comparisons and divisions on machine words |
| `Arith.dfy`, `Ladders.dfy`, `Sums.dfy`, `Options.dfy` | shared mathematics |

## What the code does not do

Eight statements one might expect do not hold of the code. Each has its exact condition in the model.

* `PollSelectorLoop::Compact` never empties `indices_to_compact_`. The first call on an orderly table is
  right; the table stays orderly for another one if and only if nothing was pending
  (`CompactTracksIffIdle`). After two calls in a row every registered descriptor is still polled if and
  only if no slot had been deleted or no descriptor is left (`SecondCompactLosesDescriptors`;
  `LostDescriptor` is a run). Emptying the list would be enough.
* A select thread with nothing to do is not always idle. Only `RunCallbacks` drains the wake signal, and
  it is called only while something is queued, so a signal written after the drain stays until the next
  callback and every `poll` in between returns at once. A signal is pending if and only if one was
  written since the last drain (`PendingIffUndrained`), and a resting thread spins if and only if that is
  so (`RestSpinsIffUndrained`; `SignalMayOutliveItsCallback` is a run). Wakeups are not lost by this.
* The time allowed for callbacks does not limit them. `RunCallbacks` compares its deadline with
  `absl::Time()`, the Unix epoch, and not with the present (selector.cc:238). A batch is cut if and only
  if its deadline is not after 1970, and then before its first callback
  (`BatchIsCutIffDeadlineBefore1970`); with other deadlines no batch is ever given back (`NoBatchIsCut`).
  The other theorems of `Selector.dfy` hold for this comparison and for the evidently intended one.
* `NextPow2` ends if and only if its argument is at most 2^(w-1) for a w-bit `size_t` (`NextPow2Ends`);
  above that `ceil_to_pow_2` returns 0.
* `circular_less_than` is the true order of two indices less than 2^w apart if and only if the first is
  ahead by at most, or behind by less than, half the range (`CircularOrder`). The check that
  `ExplicitProducer` makes before it adds a block lets a queue hold up to half the range, and that is one
  too many: `dequeue` finds nothing if and only if the queue is empty or holds exactly half the range
  (`ExplicitProducer.Dequeue`; `BulkIsExactIff` is the condition for `dequeue_bulk`, whose counts are
  `size_t`). `enqueue` refuses there too (`HalfFullHasNoRoom`), so nothing works from then on
  (`StayStuck`). For every width of the index and every block size the state is reached with one thread
  and all the memory asked for (`FillHalfRange` is a run).
* `MAX_SUBQUEUE_SIZE` is not kept if `index_t` is narrower than `int`. The program then compares it with a
  signed difference of wrapped indices, which is the size if and only if the tail has not wrapped without
  the head, and else negative (`LimitSeesSizeIff`; `ExceedLimit` is a run).
* With several consumers neither `MAX_SUBQUEUE_SIZE` nor half the range of indices bounds a sub-queue, for
  any width. Both are checked when a block is added, not when one is reused, and while a consumer stalls
  between claiming and reading, the ring gets longer although the queue is almost empty. The size is
  bounded by the blocks of the ring (`SizeFitsRing`) and by nothing else (`AnySizeIsReached` is a run), so
  the limit is kept if and only if all blocks of the ring together are within it (`LimitIsKeptIff`).
* The lookup through the block index survives wrapping of the indices at any distance if and only if the
  index covers no more than the range of indices (`LooksUpRightlyIff`); for such an index it finds every
  claimed block in every run (`LookupNeverMisses`, `WrappedLookupAgrees`).

## Model

| member | source | states |
|---|---|---|
| RingQueue.ClientStepKeepsProtocol | whisperlib/sync/producer_consumer_queue_lockfree.h:50-155 | one atomic operation of any client, on either side, keeps the whole ticket protocol: reservations bound tickets, scans vouch for what they saw, granted clients are granted rightly, for both halves at once |
| RingQueue.LookVouches | whisperlib/sync/producer_consumer_queue_lockfree.h:66-82 | looking at one more client of the other side keeps the minimum of the scan a lower bound for that client's pending ticket |
| RingQueue.SlotIsFree | whisperlib/sync/producer_consumer_queue_lockfree.h:91 | a producer about to write shares its slot with no value that is still wanted |
| RingQueue.StepKeepsInv | whisperlib/sync/producer_consumer_queue_lockfree.h:50-155 | every step of every client keeps the invariant of the queue, contents included |
| RingQueue.RunKeepsInv | whisperlib/sync/producer_consumer_queue_lockfree.h:50-155 | the invariant holds in every reachable state |
| RingQueue.GetReturnsMatchingPut | whisperlib/sync/producer_consumer_queue_lockfree.h:101-155 | in every interleaving Get number t returns exactly the value of Put number t |
| RingQueue.WriteWaitsForReader | whisperlib/sync/producer_consumer_queue_lockfree.h:50-99 | ticket k writes only when all tickets up to k - q_size have been read, and overwrites no wanted value |
| RingQueue.ReadWaitsForWriter | whisperlib/sync/producer_consumer_queue_lockfree.h:101-155 | a Get reads only after the Put of its ticket wrote, once, and finds that value in the slot |
| RingQueue.LiveTicketsFitTheRing | whisperlib/sync/producer_consumer_queue_lockfree.h:50-155 | values waiting in the ring are less than one lap apart |
| RingQueue.QuietQueueIsFifo | whisperlib/sync/producer_consumer_queue_lockfree.h:50-155 | with no call in progress the ring is a bounded FIFO queue: the Puts below tail_ were returned in order, those from tail_ to head_ are stored, at most q_size of them |
| RingQueue.SoloScanOutcome | whisperlib/sync/producer_consumer_queue_lockfree.h:66-90 | one undisturbed scan lets a waiting client through if and only if its ticket is below the other side's smallest reservation plus the slack, and stores that bound |
| RingQueue.WaiterGetsThrough | whisperlib/sync/producer_consumer_queue_lockfree.h:66-90 | wherever in its wait loop a client is, a favourable fresh scan gets it out |
| RingQueue.SomebodyGetsThrough | whisperlib/sync/producer_consumer_queue_lockfree.h:66-142 | no deadlock: when all active clients wait, with a Put and a Get among them, one of them gets through on its own |
| RingQueue.PutBlockedByFullRing | whisperlib/sync/producer_consumer_queue_lockfree.h:66-90 | with no Get active a waiting Put gets through on its own if and only if its ticket is less than tail_ + q_size, so it is blocked exactly by a full ring |
| RingQueue.GetBlockedByEmptyRing | whisperlib/sync/producer_consumer_queue_lockfree.h:118-142 | with no Put active a waiting Get gets through on its own if and only if its ticket is less than head_, so it is blocked exactly by an empty ring |
| RingQueue.LonePut | whisperlib/sync/producer_consumer_queue_lockfree.h:50-99 | in every reachable quiet state with head_ below tail_ + q_size, a Put that runs alone is over after a stated number of operations: one more ticket, its argument recorded and in the slot of that ticket, nothing got, all reservations cleared |
| RingQueue.LoneGet | whisperlib/sync/producer_consumer_queue_lockfree.h:101-155 | in every reachable quiet state with tail_ below head_, a Get that runs alone is over after a stated number of operations, and has returned the value of Put number tail_ and moved tail_ by one |
| RingQueue.CallDrawsOneTicket | whisperlib/sync/producer_consumer_queue_lockfree.h:50-155 | in every run each call of Put or Get, from leaving Idle to coming back, draws exactly one ticket and has touched that ticket's slot when it returns |
| RingQueue.PutStoresItsArgument | whisperlib/sync/producer_consumer_queue_lockfree.h:50-99 | and for a Put, what is recorded under that ticket is the argument it was called with |
| FreeList.StepKeepsInv | whisperlib/sync/moody/concurrentqueue.h:1654-1791 | every atomic operation keeps the life-cycle invariant of all nodes and threads, with 32-bit reference words that wrap |
| FreeList.RunKeepsInv | whisperlib/sync/moody/concurrentqueue.h:1654-1791 | the invariant holds in every reachable state |
| FreeList.ReferencesAreCounted | whisperlib/sync/moody/concurrentqueue.h:1680-1791 | the low bits of freeListRefs are the readers plus one if the list counts a reference, and the top bit is set exactly while the node waits to be pushed |
| FreeList.HeadLeadsToListedNodes | whisperlib/sync/moody/concurrentqueue.h:1694-1778 | the chain from freeListHead ends, has no cycle and holds exactly the listed nodes |
| FreeList.PopInstallsTrueSuccessor | whisperlib/sync/moody/concurrentqueue.h:1694-1741 | no ABA: a pop whose compare-exchange succeeds installs the node that follows the head at that moment |
| FreeList.OneReceiver | whisperlib/sync/moody/concurrentqueue.h:1694-1741 | two try_get calls never return the same node at the same time |
| FreeList.HandOutTally | whisperlib/sync/moody/concurrentqueue.h:1680-1741 | whenever try_get hands out a node it has been added exactly once more than handed out |
| FreeList.HandOutsAreSeparatedByAdds | whisperlib/sync/moody/concurrentqueue.h:1680-1741 | between two hand-outs of a node somebody has added it |
| FreeList.QuietListConservesNodes | whisperlib/sync/moody/concurrentqueue.h:1680-1778 | with no call in progress every node is either owned, with reference word 0, or on the list once, with reference word 1 |
| FreeList.DeferredAddIsPickedUp | whisperlib/sync/moody/concurrentqueue.h:1680-1778 | a deferred node always has a reader; every reader drops it within three operations of its own, never pops it, and the last one goes on to push it |
| FreeList.LoneTryGet | whisperlib/sync/moody/concurrentqueue.h:1694-1741 | in every reachable quiet state a try_get that runs alone ends after seven operations with the first node, which is then owned, with reference word 0 and counted once more as handed out, the head being its old successor; with a null head it ends after two operations that change nothing |
| FreeList.LoneAdd | whisperlib/sync/moody/concurrentqueue.h:1680-1692 | an add that runs alone ends after six operations with the node in front of the list and reference word 1 |
| FreeList.EmptyHandedSawNull | whisperlib/sync/moody/concurrentqueue.h:1694-1741 | in every run a try_get that comes back without a node saw freeListHead null in some state during the call |
| OptimisticDequeue.StepKeepsInv | whisperlib/sync/moody/concurrentqueue.h:2270-2397 | every atomic operation of any consumer keeps the counters and ticket fates consistent |
| OptimisticDequeue.RunKeepsInv | whisperlib/sync/moody/concurrentqueue.h:2645-2767 | so does every run of single and bulk dequeues against one producer |
| OptimisticDequeue.WinnersAreCovered | whisperlib/sync/moody/concurrentqueue.h:2645-2682 | the tickets that win on stale values are covered by the tail just read: given-up tickets before them make up the difference |
| OptimisticDequeue.HeadNeverPassesTail | whisperlib/sync/moody/concurrentqueue.h:2270-2397 | headIndex, and even headIndex plus the wins not yet claimed, never exceeds tailIndex |
| OptimisticDequeue.ClaimIsExclusive | whisperlib/sync/moody/concurrentqueue.h:2645-2690 | a fetch_add on headIndex hands out exactly the next published indices, each to one consumer |
| OptimisticDequeue.QuietCountersAgree | whisperlib/sync/moody/concurrentqueue.h:2270-2397 | with no dequeue in progress, dequeueOptimisticCount - dequeueOvercommit is headIndex |
| OptimisticDequeue.DequeueAloneIsExact | whisperlib/sync/moody/concurrentqueue.h:2645-2767 | in every reachable state, wherever other consumers have stopped, a call that runs alone takes exactly min(max, tailIndex - (dequeueOptimisticCount - dequeueOvercommit)), or nothing if that is not positive |
| OptimisticDequeue.TicketsAreHonoured | whisperlib/sync/moody/concurrentqueue.h:2655-2682 | from the second comparison on it claims exactly as many of its tickets as the counters then allow, gives the others up, and is over after two or three operations |
| OptimisticDequeue.LoneDequeueIsExact | whisperlib/sync/moody/concurrentqueue.h:2645-2767 | a call that runs alone on a quiet queue takes exactly min(max, size) elements, after six operations, or three if the queue is empty |
| OptimisticDequeue.UndisturbedDequeueIsExact | whisperlib/sync/moody/concurrentqueue.h:2645-2767 | in any run, a call during which no other consumer has a ticket pending takes exactly min(max, size), where size is what was unclaimed when it loaded tailIndex |
| OptimisticDequeue.ShortfallMeansOverlap | whisperlib/sync/moody/concurrentqueue.h:2645-2767 | so a call that takes nothing, or less, although there were elements overlapped another consumer's ticket |
| BlockRing.Block.IsEmpty | whisperlib/sync/moody/concurrentqueue.h:1811-1836 | true if and only if all elements are marked, by flags or, in blocks of more than 32 elements, by the counter |
| BlockRing.Block.ResetEmpty | whisperlib/sync/moody/concurrentqueue.h:1913-1927 | no element is marked afterwards |
| BlockRing.Block.SetManyEmpty | whisperlib/sync/moody/concurrentqueue.h:1871-1895 | marks consecutive elements, by flags counted back to front or by the counter, and no others |
| BlockRing.MarkingInOrder | whisperlib/sync/moody/concurrentqueue.h:1841-1895 | marking the next elements after the first x leaves exactly the first x + more marked, for set_empty (more = 1) and set_many_empty, flags and counter |
| BlockRing.CopyEntries | whisperlib/sync/moody/concurrentqueue.h:2801-2809 | the rotated copy puts the listed entries into the larger table, oldest first |
| BlockRing.CopyMaps | whisperlib/sync/moody/concurrentqueue.h:2801-2826 | after the rotated copy the table lists the same blocks in the same order |
| BlockRing.AddMaps | whisperlib/sync/moody/concurrentqueue.h:2246-2253 | listing a block at the front of the circular index keeps the listing of all blocks that stay |
| BlockRing.FitsNextBlock | whisperlib/sync/moody/concurrentqueue.h:2145-2165 | when a block is full the tail is the base that continues the ladder, also after the oldest block was dropped |
| BlockRing.ExplicitProducer.constructor | whisperlib/sync/moody/concurrentqueue.h:2047-2063 | a new producer has the given sizes, widths and limit, is empty at index 0, and is orderly whether or not it got an index |
| BlockRing.ExplicitProducer.NewBlockIndex | whisperlib/sync/moody/concurrentqueue.h:2783-2826 | growing doubles the index, keeps every block's place, and changes nothing without memory |
| BlockRing.ExplicitProducer.BlockAheadIsEmpty | whisperlib/sync/moody/concurrentqueue.h:2153-2156 | the block after the tail block is found empty if and only if every index it covers has been dequeued |
| BlockRing.ExplicitProducer.StartBlock | whisperlib/sync/moody/concurrentqueue.h:2150-2257 | the next block is the oldest one if that has no live element, else the spare one, listed in the index, which may grow; it fails exactly without leeway (half the index range, MAX_SUBQUEUE_SIZE) or without a block or memory |
| BlockRing.ExplicitProducer.CheckLeeway | whisperlib/sync/moody/concurrentqueue.h:2170-2185 | the comparison of wrapped indices decides whether another block keeps the tail less than half the range ahead of the head; the limit is compared with the difference of the indices, signed if index_t is narrower than int |
| BlockRing.ExplicitProducer.OneMoreBlock | whisperlib/sync/moody/concurrentqueue.h:2170-2185 | with leeway, one more block keeps the whole ring within half the index range, and within MAX_SUBQUEUE_SIZE if the difference of indices is that of words |
| BlockRing.ExplicitProducer.IndicesStayComparable | whisperlib/sync/moody/concurrentqueue.h:2145-2266 | run alone, the queue never holds more than half the index range, nor more than MAX_SUBQUEUE_SIZE for index_t at least as wide as int; comparing its wrapped head and tail is right if and only if it does not hold exactly half the range |
| BlockRing.ExplicitProducer.LimitSeesSizeIff | whisperlib/sync/moody/concurrentqueue.h:2177-2179 | the number compared with MAX_SUBQUEUE_SIZE is the size if and only if index_t is at least as wide as int or the wrapped head is not above the wrapped tail, and else negative |
| BlockRing.ExceedLimit | whisperlib/sync/moody/concurrentqueue.h:2177-2179 | with a narrow index_t and a limit of one block, a run that holds two |
| BlockRing.ExplicitProducer.HalfFullHasNoRoom | whisperlib/sync/moody/concurrentqueue.h:2150-2185 | a queue of exactly half the index range refuses every element, whatever memory there is |
| BlockRing.FillHalfRange | whisperlib/sync/moody/concurrentqueue.h:2145-2397 | for every width of index_t and every block size a run of enqueues and dequeues, none of which fails, reaches exactly half the range |
| BlockRing.StayStuck | whisperlib/sync/moody/concurrentqueue.h:2145-2397 | from then on no sequence of enqueues, dequeues and bulk dequeues takes or accepts anything |
| BlockRing.ExplicitProducer.Enqueue | whisperlib/sync/moody/concurrentqueue.h:2145-2266 | appends exactly the element and moves the tail by one, or changes nothing; it fails if and only if a new block is needed, none is reusable, and leeway, block or memory is missing |
| BlockRing.ExplicitProducer.FindSlot | whisperlib/sync/moody/concurrentqueue.h:2340-2358 | the signed division and the mask lead to the slot of the block that covers the index |
| BlockRing.ExplicitProducer.WrappedLookupAgrees | whisperlib/sync/moody/concurrentqueue.h:2348-2358 | the lookup on wrapped indices, with masks, finds the slot of the block for every live index, because the ring never spans more than half the range |
| BlockRing.ExplicitProducer.Dequeue | whisperlib/sync/moody/concurrentqueue.h:2270-2397 | run alone, with the comparisons on wrapped counters, returns and removes the oldest element, or nothing if and only if the queue is empty or holds exactly half the index range |
| BlockRing.ExplicitProducer.TakeAtSlot | whisperlib/sync/moody/concurrentqueue.h:2691-2755 | one round of the bulk loop appends the wanted elements of one block in order, marks them, and goes on to the slot of the next block |
| BlockRing.ExplicitProducer.DequeueBulk | whisperlib/sync/moody/concurrentqueue.h:2645-2767 | run alone, returns and removes the oldest min(max, n) elements in order, across blocks, where n is the size as a size_t, or 0 if that is half the range of size_t or more |
| BlockRing.ExplicitProducer.BulkIsExactIff | whisperlib/sync/moody/concurrentqueue.h:2645-2664 | so it takes min(max, size) for every max if and only if the size is below half the range of size_t |
| RacingBlocks.ProducerKeepsInv | whisperlib/sync/moody/concurrentqueue.h:2145-2266 | every step of enqueue keeps blocks, flags, cells, claims and block index consistent while consumers move: flags are tested and cleared one at a time, the head is loaded for the leeway check, the index is replaced by a larger one, and an entry is written and published in three steps |
| RacingBlocks.ConsumerKeepsInv | whisperlib/sync/moody/concurrentqueue.h:2270-2397 | every step of a dequeue, single or bulk, does the same: counters, the four loads of the lookup one by one, reading, and setting flags |
| RacingBlocks.RunKeepsInv | whisperlib/sync/moody/concurrentqueue.h:2145-2397 | the invariant holds in every reachable state, with one producer and any number of consumers |
| RacingBlocks.ReadsAreTheEnqueued | whisperlib/sync/moody/concurrentqueue.h:2145-2397 | in every interleaving, what is read at index i is the i-th element enqueued |
| RacingBlocks.EachIndexIsReadOnce | whisperlib/sync/moody/concurrentqueue.h:2645-2767 | an index is read only by the consumer that claimed it, and only once |
| RacingBlocks.ResetOnlyWhatIsRead | whisperlib/sync/moody/concurrentqueue.h:2153-2160 | a block is reset and reused only when every index it covers has been claimed, read and flagged |
| RacingBlocks.WritesAreUndisturbed | whisperlib/sync/moody/concurrentqueue.h:2262-2266 | a cell is written only while no consumer is about to read it |
| RacingBlocks.LookupNeverMisses | whisperlib/sync/moody/concurrentqueue.h:2332-2358 | whatever the producer lists and however often it replaces the index between the loads of blockIndex, front, its base and the entry, each load stays inside its table, and the entry is that of the block that covers the claimed index |
| RacingBlocks.WalkNeverMisses | whisperlib/sync/moody/concurrentqueue.h:2691-2755 | dequeue_bulk finds the block of its next index in the next slot of the table it has loaded, even if that has been replaced |
| RacingBlocks.WrappedLookupAgrees | whisperlib/sync/moody/concurrentqueue.h:2340-2358 | on wrapped indices and with masks the lookup finds the same slot, at any distance, if the table covers no more than the range of indices |
| RacingBlocks.SizeFitsRing | whisperlib/sync/moody/concurrentqueue.h:2145-2266 | in every run the size is at most that of all blocks of the ring |
| RacingCalls.EnqueueAloneIffRoom | whisperlib/sync/moody/concurrentqueue.h:2145-2266 | in every reachable state, wherever consumers have stopped, an enqueue that runs alone ends; it has appended exactly its argument if there is room in the tail block, the block ahead is read and flagged altogether, or there is leeway and memory, and otherwise nothing has changed |
| RacingCalls.LeewayMeans | whisperlib/sync/moody/concurrentqueue.h:2170-2185 | while the tail and a block are less than the range of indices ahead of the head, the comparisons on wrapped words say that one more block keeps the tail less than half the range ahead of the head and the size within the limit |
| RacingCalls.OwnStepIsProgress | whisperlib/sync/moody/concurrentqueue.h:2691-2755 | in every reachable state each operation of a dequeue with a claim brings its end nearer, by a measure on where it is |
| RacingCalls.DequeueIsWaitFree | whisperlib/sync/moody/concurrentqueue.h:2645-2767 | in every run, whatever others do meanwhile, a dequeue that has claimed n indices is over with at most 5 n + 3 more operations of its own |
| RacingCalls.EndedDequeueTookItsClaim | whisperlib/sync/moody/concurrentqueue.h:2645-2767 | when a dequeue is over, every index it claimed has been read and flagged, and what was read there is what was enqueued there |
| Overfill.AnySizeIsReached | whisperlib/sync/moody/concurrentqueue.h:2150-2185 | for every block size, index width and limit that admit one block, and every n, a run with two consumers ends with n full blocks in the queue |
| Overfill.LimitIsKeptIff | whisperlib/sync/moody/concurrentqueue.h:2150-2185 | queues with a ring of n blocks keep the limit in every run if and only if n blocks are within it |
| RacingBlocks.QuietRingIsExact | whisperlib/sync/moody/concurrentqueue.h:2145-2397 | with no dequeue past its claim, exactly the indices below headIndex have been read and flagged |
| Ladders.LadderShift | whisperlib/sync/moody/concurrentqueue.h:2145-2165 | dropping the oldest base and adding the next one keeps the bases consecutive multiples of BLOCK_SIZE |
| Ladders.LookupFindsBlock | whisperlib/sync/moody/concurrentqueue.h:2348-2358 | for every index between the oldest base and the end of the newest block, the truncated quotient of base differences is the distance of its block from the newest |
| ImplicitIndex.GrowthKeepsLookups | whisperlib/sync/moody/concurrentqueue.h:3501-3548 | any distance back from the tail leads to the same entry in the old table and in the grown one |
| ImplicitIndex.CopyIndex | whisperlib/sync/moody/concurrentqueue.h:3521-3530 | the do-while loop copies each pointer once, from the oldest to the tail |
| ImplicitIndex.BlockIndex.BuildIndex | whisperlib/sync/moody/concurrentqueue.h:3501-3536 | the new table holds the rotated old entries and behind them new invalid ones, all different |
| ImplicitIndex.BlockIndex.NewBlockIndex | whisperlib/sync/moody/concurrentqueue.h:3501-3548 | growing doubles the table, keeps the window of consecutive blocks where lookups find it, and changes nothing without memory |
| ImplicitIndex.BlockIndex.EntryFor | whisperlib/sync/moody/concurrentqueue.h:3476-3499 | every index covered by the window is led to the entry whose key is its block base |
| ImplicitIndex.BlockIndex.InsertEntry | whisperlib/sync/moody/concurrentqueue.h:3422-3459 | the new base is listed behind the newest; only an entry whose block is gone is given up; it fails exactly without a table or without room and memory |
| ImplicitIndex.BlockIndex.RoomBehindTail | whisperlib/sync/moody/concurrentqueue.h:3432-3442 | the table grows only when its slots are all taken by consecutive blocks |
| ImplicitIndex.BlockIndex.DiscardNewest | whisperlib/sync/moody/concurrentqueue.h:3461-3467 | taking the newest entry back leaves the window without its newest entry and the entry dead |
| Semaphore.StepKeepsInv | whisperlib/sync/moody/lightweightsemaphore.h:250-382 | every atomic operation of a wait, try, timeout, undo or signal keeps the balance of count, waiters, tokens and permits |
| Semaphore.NegativeCountIsUnservedWaiters | whisperlib/sync/moody/lightweightsemaphore.h:250-282 | a negative m_count is the number of registered waiters without a posted or owed token |
| Semaphore.PermitsAreConserved | whisperlib/sync/moody/lightweightsemaphore.h:250-382 | acquired plus still acquirable permits are the initial count plus the signalled ones, so nobody acquires too much |
| Semaphore.NoLostWakeup | whisperlib/sync/moody/lightweightsemaphore.h:250-382 | with m_count >= 0 every registered waiter has a token, posted or owed, and with no signal running its wait succeeds |
| Semaphore.CallsReturnAtMostMax | whisperlib/sync/moody/lightweightsemaphore.h:286-382 | in every run a finished tryWaitMany or waitMany returns at most its max, and a waitMany that never gave up waiting returns at least one |
| Semaphore.LoneTryWaitMany | whisperlib/sync/moody/lightweightsemaphore.h:329-358 | a tryWaitMany(max) that runs alone, none of whose compare-exchanges fails spuriously, returns min(max, m_count), 0 for a count that is not positive, and takes exactly as many from the count |
| Semaphore.EmptyHandedSawNoPermit | whisperlib/sync/moody/lightweightsemaphore.h:286-382 | in every run a tryWaitMany or waitMany of at least one permit decides to return none only when m_count is not positive |
| Semaphore.LoneWaitMany | whisperlib/sync/moody/lightweightsemaphore.h:347-373 | a waitMany(max) that runs alone with a positive count takes min(max, m_count) |
| Semaphore.LoneWaitBlocks | whisperlib/sync/moody/lightweightsemaphore.h:286-303 | with no permit it registers as one more waiter and blocks |
| Semaphore.WokenWaiterReturns | whisperlib/sync/moody/lightweightsemaphore.h:303-319 | a blocked waiter that finds a token returns with that permit and min(max - 1, m_count) others |
| Semaphore.LoneWaiterGivesUp | whisperlib/sync/moody/lightweightsemaphore.h:303-316 | a blocked waiter that gives up while nobody has promised it a token takes its registration back and returns none |
| Semaphore.LoneSignal | whisperlib/sync/moody/lightweightsemaphore.h:375-382 | a signal(n) that runs alone adds n to m_count, posts one token for each waiter served and is over |
| BlockingQueue.RunKeepsInv | whisperlib/sync/moody/blockingconcurrentqueue.h:138-395 | in every run of enqueues and dequeues, single, bulk and timed, semaphore and bag stay balanced |
| BlockingQueue.ElementsAreAccountedFor | whisperlib/sync/moody/blockingconcurrentqueue.h:138-201 | the elements in the bag are those being announced, those with an available permit and those whose permit a dequeue holds |
| BlockingQueue.PermitGuaranteesElement | whisperlib/sync/moody/blockingconcurrentqueue.h:307-395 | permits held and not redeemed never exceed the elements, so each retry loop has its elements left, whatever the others take |
| BlockingQueue.QuietCountIsSize | whisperlib/sync/moody/blockingconcurrentqueue.h:477-486 | with no call in progress the semaphore's count is the number of elements |
| BlockingQueue.LoneDequeue | whisperlib/sync/moody/blockingconcurrentqueue.h:307-395 | in every reachable quiet state a try_dequeue_bulk(max), or wait_dequeue_bulk(max) of a queue that is not empty, that runs alone acquires and redeems exactly min(max, size) elements, if no attempt fails spuriously |
| BlockingQueue.LoneEnqueue | whisperlib/sync/moody/blockingconcurrentqueue.h:138-201 | an enqueue_bulk of n elements that runs alone leaves n more elements and as many permits |
| PathNormalize.ReplaceBackslashes | whisperlib/io/path.cc:28-32 | the loop replaces exactly the backslashes |
| PathNormalize.ResolveTriples | whisperlib/io/path.cc:39-45 | ends without a triple separator in front and with the same components after collapsing |
| PathNormalize.ResolveDoubles | whisperlib/io/path.cc:46-52 | ends with exactly the collapsed components: an odd leading run became one separator, an even one two |
| PathNormalize.ResolveDots | whisperlib/io/path.cc:53-59 | removes every "." but a last one without changing what the components evaluate to |
| PathNormalize.ResolveDotDots | whisperlib/io/path.cc:60-70 | cancels every ".." but a last one, or returns the root exactly when evaluation pops an empty stack; the npos branch is not reachable |
| PathNormalize.ResolveFinalDot | whisperlib/io/path.cc:71-78 | drops a last ".", keeping the evaluation |
| PathNormalize.ResolveFinalDotDot | whisperlib/io/path.cc:79-87 | applies a last ".."; what is left are the components that evaluation leaves on the stack |
| PathNormalize.Normalize | whisperlib/io/path.cc:24-92 | for every path and every separator but '.' and NUL the rewriting program terminates and returns what one left-to-right stack evaluation of the components shows |
| PathNormalize.CollapseDropsPair | whisperlib/io/path.cc:39-45 | three separators may become one: collapsing, with the parity of a leading run, does not see it |
| PathNormalize.EvalCancels | whisperlib/io/path.cc:60-70 | a component and a ".." behind it cancel anywhere in a path |
| PathNormalize.EvaluationIsTidy | whisperlib/io/path.cc:24-92 | the final stack has no "." or "..", no separators or backslashes inside, and empty components only at its ends |
| PathNormalize.NormalizedIsClean | whisperlib/io/path.cc:24-92 | the result has no "." or ".." component, two separators in a row only at position 0 of an absolute path, and is absolute if and only if the path was |
| PathNormalize.NormalizeIsIdempotent | whisperlib/io/path.cc:24-92 | normalising twice is normalising once |
| PathNormalize.GoingUpFromTheRoot | whisperlib/io/path.cc:24-92 | if some prefix of the collapsed components has more ".." than plain components the result is "" for a relative path and the root for an absolute one; otherwise it shows as many components as there are plain ones less the number of ".." |
| PathNormalize.EvalCounts | whisperlib/io/path.cc:60-87 | the same by counting for any stack: evaluation fails if and only if a prefix goes up beyond the stack |
| PathNormalize.EvalIsMatching | whisperlib/io/path.cc:60-87 | evaluating from the left is matching from the right, each ".." with the nearest plain component before it that is not matched |
| PathNormalize.NormalizedKeepsUncancelled | whisperlib/io/path.cc:24-92 | the result shows, in order, the components that no ".." cancels, or is the root if a ".." finds none |
| PathNormalize.CollapseKeepsComponents | whisperlib/io/path.cc:39-52 | collapsing drops and adds only empty components |
| PathNormalize.CleanIffFixed | whisperlib/io/path.cc:24-92 | exactly the clean paths are left as they are |
| PathNormalize.LeadingSeparators | whisperlib/io/path.cc:39-52 | separators in front of a name become one if they are odd in number and two if they are even and not none |
| PathStrings.CompsJoin | whisperlib/io/path.cc:24-92 | joining separator-free components and splitting again gives them back |
| PathStrings.JoinComps | whisperlib/io/path.cc:24-92 | splitting a separator-led string and joining again gives it back |
| Selector.RunKeepsInv | whisperlib/net/selector.cc:153-343 | in every run of callers and the select thread, mutex, flag, wake signal, order and budget stay consistent |
| Selector.CallsAreQueued | whisperlib/net/selector.cc:153-162 | in every run the callbacks RunInSelectLoop was called with are, as a multiset, those that have been queued and those of calls about to queue theirs |
| Selector.LoneCallQueues | whisperlib/net/selector.cc:153-162 | with the mutex free, a call that runs alone is over after six operations, five from the select thread itself, with its callback behind the others in the queue, the flag set and, from other threads, the wake signal written |
| Selector.LoneIteration | whisperlib/net/selector.cc:278-343 | the select thread alone, with a clock after 1970, once around its loop, blocks in poll if and only if nothing is queued and no alarm is due, and then runs the first min(max, size) callbacks in order |
| Selector.FlagTellsTheTruth | whisperlib/net/selector.cc:153-230 | whenever the mutex is free, have_to_run_ says whether to_run_ is non-empty |
| Selector.NoLostWakeup | whisperlib/net/selector.cc:278-295 | callbacks queued while the select thread is in a blocking poll have a pending signal or a caller about to signal |
| Selector.SignalArrives | whisperlib/net/selector.cc:153-162 | such a caller makes the signal pending in at most three steps of its own |
| Selector.CallbacksRunInOrder | whisperlib/net/selector.cc:198-245 | callbacks start in the order they were queued, none twice and none lost, through deadlines, prepending and concurrent appends |
| Selector.PassStartsAtMostMax | whisperlib/net/selector.cc:330-343 | one LoopCallbacks starts at most max_num_callbacks_per_event callbacks |
| Selector.PassEndsForAReason | whisperlib/net/selector.cc:330-343 | it ends with the budget used up, with have_to_run_ false, or with a batch cut before its first callback; PopCallbacks never comes back empty-handed |
| Selector.BatchIsCutIffDeadlineBefore1970 | whisperlib/net/selector.cc:232-245 | as written, a batch is cut if and only if its deadline is not after 1970, and then before its first callback |
| Selector.NoBatchIsCut | whisperlib/net/selector.cc:232-245 | with deadlines after 1970 no batch is ever given back |
| Selector.PassEndsByBudgetOrEmptyQueue | whisperlib/net/selector.cc:330-343 | so LoopCallbacks ends only with the budget used up or with have_to_run_ false |
| Selector.PendingIffUndrained | whisperlib/net/selector.cc:225-255 | in every run a wake signal is pending if and only if some caller wrote one after the last drain |
| Selector.RestSpinsIffUndrained | whisperlib/net/selector.cc:278-295 | a select thread with nothing to do keeps its signal until somebody calls, and its polls return at once if and only if a signal was written after the last drain |
| Selector.SignalMayOutliveItsCallback | whisperlib/net/selector.cc:153-162 | a reachable state polls with nothing queued and a signal pending |
| CallbackQueue.EventQueue.PopCallbacks | whisperlib/net/selector.cc:198-212 | takes the first min(max, size) callbacks and keeps the flag right |
| CallbackQueue.EventQueue.PrependCallbacks | whisperlib/net/selector.cc:214-223 | puts a batch back in front, in order |
| CallbackQueue.EventQueue.RunCallbacks | whisperlib/net/selector.cc:232-245 | a batch comes to running that many callbacks one at a time, whatever they queue; it runs min(max, size) of them if the deadline is after 1970 and none otherwise |
| CallbackQueue.EventQueue.LoopCallbacks | whisperlib/net/selector.cc:330-343 | terminates, and batches and putting back come to running one callback at a time off one queue; with deadlines after 1970 exactly the maximum, or all if the queue gets empty, also when callbacks queue themselves |
| CallbackQueue.OneByOneIsFifo | whisperlib/net/selector.cc:153-162 | one at a time is first in, first out: executed then waiting callbacks are the initial ones followed by what each executed one queued; fewer than asked for are run only if the queue gets empty |
| PollTable.PollSelectorLoop.constructor | whisperlib/net/selector_loop.cc:146-162 | the table starts with the signal descriptor alone, in slot 0, asked for input and errors |
| PollTable.PollEventsAsk | whisperlib/net/selector_loop.cc:237-249 | POLLIN and POLLRDHUP are asked for if and only if reading is desired, POLLOUT if and only if writing is, POLLERR and POLLHUP if and only if errors are |
| PollTable.AsksForOneDesire | whisperlib/net/selector_loop.cc:237-249 | different desires ask for different events |
| PollTable.PollSelectorLoop.Add | whisperlib/net/selector_loop.cc:166-181 | takes the next slot, whose flags ask for exactly the desires, flag by flag, or fails unchanged for a negative descriptor or a full table; a known descriptor keeps its old entry |
| PollTable.PollSelectorLoop.Update | whisperlib/net/selector_loop.cc:183-196 | changes events, flag by flag as desired, and user data of one descriptor, or reports it missing |
| PollTable.PollSelectorLoop.Delete | whisperlib/net/selector_loop.cc:198-213 | kills the slot, forgets the descriptor and lists the slot, or reports it missing |
| PollTable.PollSelectorLoop.Compact | whisperlib/net/selector_loop.cc:215-235 | the descending loop over the array computes the specified table for any state |
| PollTable.AddTracks | whisperlib/net/selector_loop.cc:166-181 | adding keeps map, slots and pending list in agreement if and only if the descriptor is new |
| PollTable.RunsTrack | whisperlib/net/selector_loop.cc:166-213 | any run of Add of new descriptors, Update and Delete meets the precondition of Compact |
| PollTable.ClosedTracks | whisperlib/net/selector_loop.cc:220-234 | closing the largest dead slot leaves the others exactly the dead ones and moves one descriptor with its data |
| PollTable.CompactMakesDense | whisperlib/net/selector_loop.cc:215-235 | one Compact leaves exactly the registered descriptors, densely, each with its events and user data |
| PollTable.CompactTracksIffIdle | whisperlib/net/selector_loop.cc:215-235 | the table meets the precondition of another Compact if and only if nothing was pending |
| PollTable.SecondCompactLosesDescriptors | whisperlib/net/selector_loop.cc:215-235 | after two Compacts in a row all registered descriptors are polled if and only if nothing was pending or none is registered |
| PollTable.LostDescriptor | whisperlib/net/selector_loop.cc:215-235 | constructor, two Adds, a Delete and two Compacts leave a registered descriptor that is not polled |
| Bits.CeilToPow2 | whisperlib/sync/moody/concurrentqueue.h:630-647 | the least power of two from x on for 1 <= x <= 2^(w-1), else 0, for words of any number of bytes |
| Bits.SmearStep | whisperlib/sync/moody/concurrentqueue.h:638-645 | one shift-and-or step doubles the number of leading ones |
| Bits.NextPow2 | whisperlib/sync/producer_consumer_queue_lockfree.h:178-182 | the doubling loop gives the least power of two from x on, and 1 for 0 |
| Bits.NextPow2Ends | whisperlib/sync/producer_consumer_queue_lockfree.h:178-182 | the doubling loop ends if and only if its argument is at most 2^(w-1) |
| Bits.LeastPow2Unique | whisperlib/sync/moody/concurrentqueue.h:630-647 | the least power of two from x on is unique, so the two computations agree |
| Bits.MaskIsMod | whisperlib/sync/producer_consumer_queue_lockfree.h:91 | ticket & (q_size - 1) is ticket mod q_size |
| Bits.MaskRoundsDown | whisperlib/sync/moody/concurrentqueue.h:2348 | index & ~(BLOCK_SIZE - 1) is the index rounded down to a multiple of BLOCK_SIZE |
| Bits.CircularOrder | whisperlib/sync/moody/concurrentqueue.h:608-620 | circular_less_than on wrapped indices is the true order exactly within half the range |
| Bits.HalfRangeBehind | whisperlib/sync/moody/concurrentqueue.h:608-620 | an index half the range behind is not seen as behind |
| Bits.LooksUpRightlyIff | whisperlib/sync/moody/concurrentqueue.h:2348-2358 | the same at any distance within the table if and only if the table covers no more indices than there are |
| Bits.LargeTablesMiss | whisperlib/sync/moody/concurrentqueue.h:2348-2358 | in a larger table the block one more than half the range behind the front is missed |
| Bits.LookupSurvivesWrapAround | whisperlib/sync/moody/concurrentqueue.h:2348-2358 | mask, wrapped subtraction, signed division, addition and mask find the right slot of an index at most half the range behind, however often the indices have wrapped |

## Left out

- Weak memory orderings, fences and cache alignment: every atomic operation is one sequentially consistent step.
- Wrap-around of tickets and indices: unbounded in the state machines, but for the leeway check of `RacingBlocks.dfy`. `BlockRing.dfy` makes its comparisons on wrapped words; `Bits.dfy` has the exact conditions for comparisons and lookups. Comparisons of wrapped counters by racing consumers of a queue that holds half the range or more are not part of this model. Reference words of `FreeList` do wrap at 32 bits.
- The concurrent protocols as objects updated in place: threads interleave inside a call, so they are state machines over values; aliasing is not an issue there.
- The two semaphores of `LockFreeProducerConsumerQueue` (put_semaphore_, get_semaphore_), its Notify and timed forms: they only shorten waiting.
- FreeList.RunKeepsInv: assumes fewer than 2^31 - 1 threads, as the 31-bit reference field does.
- BlockRing.Block.SetManyEmpty: a block keeps its elements and marks in values reassigned by its methods, not in raw arrays; there is no model of construction and destruction of elements.
- BlockRing.ExplicitProducer.Dequeue: run by one thread at a time, so that giving tickets up never happens there; `OptimisticDequeue.dfy` and `RacingBlocks.dfy` have it with many threads.
- BlockRing.ExplicitProducer.DequeueBulk: likewise.
- RacingBlocks.RunKeepsInv: emptiness of blocks is by flags, the template variant of enqueue that writes the element before it lists the block is not modelled, and the leeway check subtracts words (index_t at least as wide as int).
- RacingBlocks.ConsumerKeepsInv: a dequeue_bulk with max = 0 returns after its claim of no elements; the code still looks up a slot there and calls set_many_empty with count 0 on the block it holds.
- Overfill.AnySizeIsReached: indices are unbounded there; a sub-queue of more blocks than the range of indices covers would have its wrapped tail come round to the head.
- enqueue_bulk with its rollback, exception paths, destructors, producer tokens and their rotation, move and swap, the free pool of blocks: a spare block or null is handed to Enqueue.
- ImplicitProducer's enqueue and dequeue around its index; its thread-id hash table and thread-exit notification.
- details::Semaphore: a count of tokens; the (int) cast of its argument is not modelled. Timeouts and operating system errors are a wait giving up at any moment.
- BlockingQueue.PermitGuaranteesElement: elements are counted, not identified; that each found element is a different one is the inner queue's business. wait_dequeue's loop around a failed wait is a new call.
- PathNormalize.Normalize: for the separator '.' the separator is itself a dot, and for NUL the C string of the separator is empty; both are excluded.
- Basename, Dirname and the Joins of path.cc: short and without interaction.
- Alarms of the selector (heap order is not what the code reads) and Selectable registration: they appear only as reasons for poll to return and as code that may queue callbacks.
- The translation between poll results and events in LoopStep, and the epoll loop.
