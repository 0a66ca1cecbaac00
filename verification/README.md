# Verified model of the execution core

This project models the core of the execution engine and proves what it promises.

* **The order book** (`src/order_book.cpp`, `include/exec_core/order_book.hpp`). `MatchingEngine.OrderBook`
  is the class with its pointer structure: two sorted tables of price levels, doubly linked lists of
  order nodes, an index from order ids to nodes, and the pool that all nodes come from. Memory is a map
  from byte addresses to blocks, so the level lists, and the free list of the pool, live in the same
  memory and have to be proved apart. `MatchingSpec` is the meaning without pointers: each side is a
  sequence of orders, best price first and oldest first within a price, matched by recursion. Every
  method of the class is proved to do exactly what `MatchingSpec` does, so each theorem about
  `MatchingSpec` (modules `BookInvariant`, `Priority`, `Conservation`, `AddEffects`, `RunOutcomes`,
  `Splitting`, `Mirror`, `FillPrediction`) is a theorem about the pointer structure, over every run
  (`MatchingEngine.Replay`). `AddEffects` says what one order does in terms of the book, the trades and the
  error alone; `RunOutcomes` says what each outcome of a run is, and what the outcomes tell about the book.
* **The pool** (`include/exec_core/slab_allocator.hpp`). `Slab.SlabAllocator` threads its free list through
  the free blocks. Proved: blocks are aligned, inside their chunk and share no byte; free blocks are
  exactly those on the free list; and over any run the pool grows exactly as often as the peak use
  requires (`PoolCounters`).
* **The ring buffer** (`include/exec_core/ring_buffer.hpp`). `RingMachine` is a machine of small steps: two
  program counters, wrapping 64-bit counters with their whole history of stored values (a load may be
  stale), and clocks for what happens before what. Proved over every interleaving: no data race, one
  bounded first-in-first-out queue of the items that pushes were called with, and that a run is free of races exactly if all four acquire and
  release orderings are there. `RingBuffer.SpscRingBuffer` is the class itself, used by one thread.
* **The price scan** (`src/price_scan.cpp`). The scalar loop and the NEON and AVX2 kernels, lane by lane in
  64-bit arithmetic, all return the same exact scan; and that scan predicts what the order book fills.
* **Latency statistics** (`src/latency_harness.cpp`). The nearest-rank sample is the percentile in the sense
  of its definition, and the summary does not depend on the order of the samples.

Where the files are: one module per `.dfy` file, named after it (`SlabAllocator.dfy` holds module `Slab`,
`OrderBook.dfy` holds module `MatchingEngine`). `BookLinks`, `BookUpdates` and `BookReports` hold the lemmas
about lists, level tables and the index that the class methods rest on.

How the model is set up:

* An exception of `add_limit_order` is a `Failure` value. The header says that an id is refused if it "was
  previously used and is still tracked"; the code refuses exactly the ids that rest at the moment, and
  the model does the same: a filled or cancelled id can be used again.
* Line 21 of the repository's README describes the levels as `std::list`s; the code (and line 32 there) has
  the intrusive list whose nodes come from the pool, and so has the model.
* `std::map` is a sorted sequence of entries with a lookup (`PositionOf`), `std::unordered_map` a finite map,
  `std::sort` a sorting function proved to be one, and `operator new` a choice of any aligned address
  whose chunk overlaps no other.
* A `PriceLevel&` that a helper of the order book changes is a value passed in and returned, and the caller
  writes it back to the table, which is the memory the reference points into.
* The inner matching loop, the resting step and the erase step are the same text in both branches of the
  original and are each one method with a side parameter; the two outer matching loops stay separate.

## Model

| member | source | states |
|---|---|---|
| `MatchingEngine.OrderBook.constructor` | include/exec_core/order_book.hpp:214-227 | a new book has no orders and its counter is at 0; its pool, lists and index agree; the pool starts with 4096 free blocks of 48 bytes and no growth |
| `MatchingEngine.OrderBook.AddLimitOrder` | src/order_book.cpp:82-159 | the whole new book and the trades (or the error) are those of the pointer-free matcher `MatchingSpec.Add`, whose every part the `AddEffects` rows pin; every structural invariant survives |
| `MatchingEngine.OrderBook.CancelOrder` | src/order_book.cpp:161-183 | the whole new book and the answer are those of `MatchingSpec.Cancel`; every structural invariant survives |
| `MatchingEngine.OrderBook.MatchAsks` | src/order_book.cpp:93-117 | the buy loop over ask levels leaves the resting asks, the remainder and the trades of the recursive matcher and does not touch the bids |
| `MatchingEngine.OrderBook.MatchBids` | src/order_book.cpp:118-143 | the same for the sell loop over bid levels |
| `MatchingEngine.OrderBook.FillLevel` | src/order_book.cpp:102-113 | the inner loop trades oldest first and stops with the incoming order or the level used up; continuing the recursive matcher from there gives its result from the start |
| `MatchingEngine.OrderBook.FillHead` | src/order_book.cpp:104-112 | one trade with the oldest order of the best level, for the smaller quantity and at the level's price; a used-up order leaves list, index and pool |
| `MatchingEngine.OrderBook.RemoveHead` | src/order_book.cpp:109-112 | removing the best order removes exactly it from the side, its id from the index and its node from the pool |
| `MatchingEngine.OrderBook.ReduceHead` | src/order_book.cpp:108-108 | writing the new quantity through the node changes that order's quantity in the book and nothing else |
| `MatchingEngine.OrderBook.Rest` | src/order_book.cpp:145-156 | a remainder rests behind every order at least as good and before every worse one, and the index leads to its node |
| `MatchingEngine.OrderBook.EraseFrom` | src/order_book.cpp:169-181 | erasing through the stored pointer removes exactly the order with that id; an emptied level leaves the table |
| `MatchingEngine.OrderBook.PushBack` | src/order_book.cpp:27-37 | the list gains one order at its end and stays linked both ways, in a block that was not in use; no other block in use changes |
| `MatchingEngine.OrderBook.PopFront` | src/order_book.cpp:39-49 | the list loses its first order and stays linked both ways; the block is free again; no block outside the list changes |
| `MatchingEngine.OrderBook.Erase` | src/order_book.cpp:51-64 | the same for the order at any position, all others keeping their order |
| `MatchingEngine.OrderBook.SumQuantity` | src/order_book.cpp:66-72 | walking a linked level adds up exactly the orders it stands for |
| `MatchingEngine.OrderBook.CollectIds` | src/order_book.cpp:74-80 | walking a linked level lists the ids of its orders, oldest first (`BookReports.IdsOfOrders` says what ids) |
| `MatchingEngine.OrderBook.BestBid` | src/order_book.cpp:185-190 | the price of the first bid in price-time order, if there is one |
| `MatchingEngine.OrderBook.BestAsk` | src/order_book.cpp:192-197 | the price of the first ask in price-time order, if there is one |
| `MatchingEngine.OrderBook.QuantityAt` | src/order_book.cpp:199-206 | the sum over all orders of the side that rest at this price, zero without a level |
| `MatchingEngine.OrderBook.OrderCount` | src/order_book.cpp:208-210 | the size of the index is the number of resting bids and asks, and the pool's blocks in use |
| `MatchingEngine.OrderBook.SideLevels` | src/order_book.cpp:212-228 | the levels read off the table are the grouping by price of the orders of that side |
| `MatchingEngine.OrderBook.OrdersAt` | src/order_book.cpp:230-237 | the ids of all orders of the side at this price, oldest first (the `BookReports.IdsAt…` rows say which) |
| `MatchingEngine.OrderBook.DestroyLevel` | src/order_book.cpp:10-18 | the walk gives back each node of the level once and disturbs no other block in use, although it frees blocks while it follows links |
| `MatchingEngine.OrderBook.DestroyNext` | src/order_book.cpp:10-24 | taking one level down leaves all later levels of both sides linked |
| `MatchingEngine.OrderBook.Destroy` | src/order_book.cpp:9-25 | after the destructor's walk no block is in use |
| `MatchingEngine.OrderBook.EveryBlockHasOneRole` | include/exec_core/order_book.hpp:168-227 | every block of the pool is on the free list or is the node of exactly one indexed order, never both |
| `MatchingEngine.Replay` | tests/test_order_book_slab_stress.cpp:155-235 | any sequence of adds and cancels on a new book ends in the book, and returns the outcomes, of the pointer-free run, which `RunOutcomes.OutcomeAt` describes one by one |
| `BookLinks.LinkedAppend` | src/order_book.cpp:27-37 | the pointer writes of an append keep the list linked both ways and add the order at its end |
| `BookLinks.LinkedErase` | src/order_book.cpp:51-64 | the pointer writes of an erase at any position, with the block then freed, keep the list linked both ways without that order |
| `BookLinks.OtherLevel` | src/order_book.cpp:27-64 | a change of one level leaves every other level of either side as it was |
| `BookUpdates.ApplyChange` | src/order_book.cpp:27-64 | a change of one level carries the whole book over: both tables, the index, and the blocks in use |
| `BookUpdates.AppendIsInsert` | src/order_book.cpp:145-156 | appending to the level at a price is inserting into the side in price-time order |
| `BookUpdates.RemoveInLevel` | src/order_book.cpp:51-64 | unlinking a node of a level is removing its id from the side |
| `BookUpdates.IndexedLevelExists` | src/order_book.cpp:166-181 | the unchecked lookup of a cancel always finds the level, and the stored pointer is a node of it that carries the id |
| `BookUpdates.HoldsIffIndexed` | include/exec_core/order_book.hpp:43-45 | an id is in the index exactly if an order with it rests, on the recorded side and not on the other |
| `BookUpdates.PositionIs` | include/exec_core/order_book.hpp:214-215 | the table lookup finds the price if it is there, and otherwise the place that keeps the table sorted |
| `BookReports.IndexCountsOrders` | src/order_book.cpp:208-210 | the index has as many entries as orders rest on both sides |
| `BookReports.IdsOfOrders` | src/order_book.cpp:74-80 | an id list has one entry for each order, and entry k is the id of order k |
| `BookReports.IdsAtOfOrders` | src/order_book.cpp:230-237 | the ids at a price are those of all orders at that price and of no others, each once and in their order |
| `BookReports.IdListedIff` | src/order_book.cpp:230-237 | an id is listed at a price if and only if an order with that id rests at that price |
| `BookReports.IdsAtListOldestFirst` | include/exec_core/order_book.hpp:122-124 | of two listed ids the first belongs to another order with a smaller sequence |
| `BookReports.LevelHoldsPrice` | src/order_book.cpp:199-206 | everything that rests at a price is in the level found for that price |
| `BookReports.LevelsOfTable` | src/order_book.cpp:212-228 | each level of the table is one group of equal prices in the side's orders |
| `MatchingSpec.ContinueByOne` | src/order_book.cpp:103-113 | the recursive matcher may be run one trade at a time |
| `MatchingSpec.ContinueFurther` | src/order_book.cpp:96-117 | and one level at a time, the trades adding up in order |
| `MatchingSpec.RunAppend` | src/order_book.cpp:82-183 | a longer history ends where its prefix ended plus the last command |
| `BookInvariant.AddKeepsBookOk` | src/order_book.cpp:82-159 | an order keeps both sides sorted by price and then strictly by age, quantities positive, ids unique across the book, sequences below the counter, and the book uncrossed |
| `BookInvariant.CancelKeepsBookOk` | src/order_book.cpp:161-183 | so does a cancel |
| `BookInvariant.RunKeepsBookOk` | src/order_book.cpp:82-197 | in every reachable state the best bid is below the best ask, and all of the above holds |
| `BookInvariant.RestingRemainderFacesNoCrossingOrder` | src/order_book.cpp:96-156 | if part of an order rests, no order within its limit is left on the opposite side |
| `BookInvariant.MatchLeavesSuffix` | src/order_book.cpp:96-117 | matching leaves a suffix of the opposite side unchanged, but for a smaller positive quantity in its first order |
| `BookInvariant.MatchStopsWhenDone` | src/order_book.cpp:96-101 | matching never overfills, and stops only when filled or when nothing is within the limit |
| `BookInvariant.InsertSplits` | src/order_book.cpp:147-155 | a resting order goes behind all that are at least as good and before the first that is worse |
| `BookInvariant.CancelRemovesExactlyOne` | src/order_book.cpp:161-183 | a cancel finds an order exactly if the id rests, removes that one order and keeps the order of all others; the id no longer rests |
| `BookInvariant.CancelUndoesRestingAdd` | src/order_book.cpp:145-183 | cancelling an order that did not trade gives back the previous book, up to the sequence counter |
| `Priority.TradesFollowRanks` | src/order_book.cpp:96-117 | the k-th trade is with the k-th order of the opposite side, for the smaller of its quantity and what all before it left over |
| `Priority.RankTradesIff` | src/order_book.cpp:96-103 | an order trades if and only if it and all before it are within the limit and those before it leave something over |
| `Priority.AheadIgnoresArrangement` | include/exec_core/order_book.hpp:90-98 | what stands ahead of an order in price-time priority does not depend on how orders are stored |
| `Priority.MatchIsPriceTimePriority` | include/exec_core/order_book.hpp:90-94 | every resting order is filled by exactly what price-time priority entitles it to: what is left of the quantity after all orders with a better price, or the same price and greater age, at most its own quantity, and nothing beyond the limit |
| `Priority.TradesRespectLimitAndPriority` | src/order_book.cpp:96-117 | trades are at the resting price and within the limit, positive, consecutively numbered, never at a better price than an earlier one; all but the last use their order up; there is at most one more trade than orders used up |
| `AddEffects.RejectedOrderChangesNothing` | src/order_book.cpp:83-88 | an order is accepted if and only if its quantity is positive and its id does not rest; otherwise the whole book is as it was, and the quantity is what is complained of first |
| `AddEffects.TradesOfOrder` | src/order_book.cpp:96-113 | trade k of an accepted order is the full record (aggressor, resting id, side, resting price, quantity left to take, counter plus k) of the opposite order of rank k, and there is one exactly if that order is within the limit and those before it leave something |
| `AddEffects.OrderFillsByPriority` | include/exec_core/order_book.hpp:90-94 | the trades returned fill every resting order by its price-time entitlement |
| `AddEffects.CounterAfterOrder` | src/order_book.cpp:104-150 | the sequence counter moves by one for each trade returned, and by one more exactly if they fall short of the quantity |
| `AddEffects.RemainderOfOrder` | src/order_book.cpp:145-156 | what did not trade rests as one order with the next number, at its price-time place in the otherwise unchanged own side; a filled order leaves that side as it was |
| `AddEffects.OppositeAfterOrder` | src/order_book.cpp:96-117 | the opposite side keeps a suffix, the first order of it perhaps reduced, and loses exactly what traded |
| `Conservation.MatchConservesQuantity` | src/order_book.cpp:91-113 | trades plus remainder is the submitted quantity, and the opposite side loses exactly what was traded |
| `Conservation.MatchConservesEachOrder` | src/order_book.cpp:104-112 | each resting order loses exactly what it traded |
| `Conservation.RunConservesSide` | src/order_book.cpp:82-183 | over any run and per side: what rests is what rested, plus accepted, less cancelled, less traded |
| `Conservation.RunConservesQuantity` | src/order_book.cpp:82-183 | over any run of a new book: accepted is resting bids plus resting asks plus cancelled plus twice the traded quantity |
| `Conservation.RunNumbersTrades` | include/exec_core/order_book.hpp:46-47 | over any run trades are numbered strictly increasingly in the order they happen, and below the counter |
| `RunOutcomes.OutcomeAt` | src/order_book.cpp:82-183 | for every i, outcome i of a run is what command i returns on the book that the commands before it reach (for a cancel, whether the id rests), and the next book is the one that command leaves |
| `RunOutcomes.RunOrdersTrades` | include/exec_core/order_book.hpp:46-47 | of any two trades in the outcomes of a run the earlier one has the smaller number |
| `RunOutcomes.RunCountsSequences` | src/order_book.cpp:106-146 | over a run the counter grows by exactly the number of trades and of orders that rested, counted from commands and outcomes |
| `RunOutcomes.OutcomesTellLedger` | src/order_book.cpp:82-183 | what the outcomes of a run list as accepted and traded is what the books accepted and traded, on each side |
| `RunOutcomes.HistoryTellsBook` | src/order_book.cpp:82-183 | commands and outcomes alone tell what any order has resting at the end: its quantity, less what it traded when it came in, less all its fills since, and nothing after its cancel |
| `RunOutcomes.HistoryConservesQuantity` | src/order_book.cpp:82-183 | run conservation with accepted, cancelled and traded quantities all read off the commands and outcomes |
| `Splitting.MatchSplits` | src/order_book.cpp:90-143 | matching q1 and then q2 against what q1 left is matching q1 + q2: same orders left, same remainder, same fills in the same order |
| `Splitting.SplittingAnOrderChangesNothing` | src/order_book.cpp:82-159 | two orders at one side and limit, against one of the summed quantity: same opposite side, same fills (one order's two fills in a row joined), same total resting at every price |
| `Splitting.SplittingKeepsEachFill` | src/order_book.cpp:82-159 | every resting order gets from the two parts together what it gets from the whole |
| `Splitting.FillsOfTrades` | include/exec_core/trade.hpp:11-18 | the fills compared are the resting id, price and quantity of each trade, in order |
| `Mirror.MirrorMatch` | src/order_book.cpp:93-143 | the sell loop is the buy loop with prices negated |
| `Mirror.MirrorRun` | src/order_book.cpp:82-183 | swapping sides and negating prices in any history gives the mirrored trades, answers, sequence numbers and book |
| `FillPrediction.LevelsSound` | src/order_book.cpp:212-228 | the quantity of a level is all that rests at its price |
| `FillPrediction.LevelsOrdered` | src/order_book.cpp:212-228 | levels come best price first, each price once |
| `FillPrediction.ScanTotalIsCrossable` | include/exec_core/price_scan.hpp:34-42 | scanning the levels is summing the orders within the limit |
| `FillPrediction.ScanPredictsTradedQuantity` | include/exec_core/price_scan.hpp:8-12 | an accepted order trades exactly the smaller of its quantity and the scan's total over the opposite side |
| `FillPrediction.ScanPredictsLevelsTraded` | include/exec_core/price_scan.hpp:8-12 | an order that exhausts that total trades at exactly as many distinct prices as the scan counts |
| `Slab.SlabAllocator.constructor` | include/exec_core/slab_allocator.hpp:122-125 | a new pool has one chunk of free blocks, none in use and no growth |
| `Slab.SlabAllocator.AddChunk` | include/exec_core/slab_allocator.hpp:213-224 | a chunk's blocks join the front of the free list in reverse address order; all older blocks are as they were |
| `Slab.SlabAllocator.Carve` | include/exec_core/slab_allocator.hpp:216-222 | the loop threads all blocks of the chunk, and leaves the last one first |
| `Slab.SlabAllocator.Allocate` | include/exec_core/slab_allocator.hpp:148-157 | hands out the front of the free list, a block that was free or new; grows by one chunk exactly if none is free; no block in use changes |
| `Slab.SlabAllocator.Deallocate` | include/exec_core/slab_allocator.hpp:163-168 | the block is free and is the next to be handed out; nothing else changes |
| `Slab.BlocksNeverOverlap` | include/exec_core/slab_allocator.hpp:207-224 | every block is aligned for the object and for a link, big enough for both, inside one chunk, and shares no byte with another block |
| `Slab.LayoutFitsRequest` | include/exec_core/slab_allocator.hpp:122-211 | chunks have the capacity asked for, or one block if that is 0; blocks are whole multiples of the larger alignment, hold object and link, and are not padded beyond that |
| `Slab.ThreadedChunkIsMemory` | include/exec_core/slab_allocator.hpp:213-224 | threading a fresh chunk keeps the free list exact: it holds every free block once and no other |
| `Slab.Layout.PlacesApart` | include/exec_core/slab_allocator.hpp:209-211 | blocks at different places, in one chunk or in two, share no byte |
| `PoolCounters.RunKeepsTight` | include/exec_core/slab_allocator.hpp:36-62 | capacity covers the peak use, and the last chunk was reserved only because it was needed |
| `PoolCounters.GrowthIsExact` | include/exec_core/slab_allocator.hpp:148-183 | over any run, capacity is chunk size times one more than the growth events, which are one less than the peak use (at least 1) divided by the chunk size, rounded up; the chunk size is the capacity asked for, or 1 if that is 0 |
| `PoolCounters.FirstGrowth` | include/exec_core/slab_allocator.hpp:122-152 | a pool for n > 0 blocks has capacity n and no growth after n allocations; allocation n + 1 makes the capacity 2n with one growth event |
| `PoolCounters.PeakIsReached` | include/exec_core/slab_allocator.hpp:174-183 | the peak use is the number of blocks out after some prefix of the run |
| `PoolCounters.PeakIsBound` | include/exec_core/slab_allocator.hpp:174-183 | and no prefix has more out |
| `Bits.PowerOfTwoTest` | include/exec_core/ring_buffer.hpp:117-118 | the asserted bit test holds exactly for powers of two |
| `Bits.MaskIsRemainder` | include/exec_core/ring_buffer.hpp:29-31 | masking with a power of two less one is the remainder |
| `RingMachine.MaskedSlot` | include/exec_core/ring_buffer.hpp:26-34 | masking a counter that wrapped at 2^64 finds the slot of the unbounded one |
| `RingMachine.WrappedDifference` | include/exec_core/ring_buffer.hpp:31-34 | the wrapped difference of two counters is the true one, across the wrap |
| `RingMachine.WrappedEqual` | include/exec_core/ring_buffer.hpp:31-34 | wrapped counters are equal exactly if the true ones are |
| `RingMachine.SameSlot` | include/exec_core/ring_buffer.hpp:29-34 | two items that share a slot are at least a whole buffer apart |
| `RingProofs.StepKeepsInv` | include/exec_core/ring_buffer.hpp:140-213 | every step of either thread keeps the invariant: seen head <= head <= seen tail <= tail <= seen head + capacity, on words that wrap, with slots holding what is not popped yet |
| `RingProofs.StepDoesNotRace` | include/exec_core/ring_buffer.hpp:44-61 | no slot access races: each read happens after the matching write, each reuse after the previous read, whatever stale value a load returned |
| `RingProofs.NeverTheSameSlot` | include/exec_core/ring_buffer.hpp:153-207 | a producer about to write and a consumer about to read are at different slots |
| `RingProofs.MaskStaysInside` | include/exec_core/ring_buffer.hpp:29-31 | a masked index is never outside the buffer |
| `RingProofs.StepRefinesQueue` | include/exec_core/ring_buffer.hpp:140-213 | only the two publishing stores change the queue: one adds at the back when there is room, the other takes the front |
| `RingProofs.RunIsQueueHistory` | include/exec_core/ring_buffer.hpp:140-213 | every interleaving is a history of one bounded first-in-first-out queue (`EffectsPushArguments` says which items it is fed) |
| `RingProofs.EffectsPushArguments` | include/exec_core/ring_buffer.hpp:194-213 | the items that a run publishes are, in order, the arguments of the pushes that went through, read off the steps alone |
| `RingProofs.WrittenAreArguments` | include/exec_core/ring_buffer.hpp:207-211 | what is written to the slots and published is exactly those arguments |
| `RingProofs.ArgumentsArePoppedThenSlots` | include/exec_core/ring_buffer.hpp:26-34 | over every run from the start, those arguments are in order the items popped and then the slots from head to tail; in particular pops deliver a prefix of them |
| `RingProofs.PushedIsPoppedThenSlots` | include/exec_core/ring_buffer.hpp:26-34 | in every reachable state the items written are the ones popped followed by the slots from head to tail (`WrittenAreArguments` says which items those are) |
| `RingProofs.LoadsOnlyWhenNeeded` | include/exec_core/ring_buffer.hpp:141-202 | a push loads the consumer's counter exactly if the head it saw last is a whole buffer behind, a pop the producer's exactly if the tail it saw last is at the head |
| `RingProofs.PushFailsIff` | include/exec_core/ring_buffer.hpp:197-206 | a push gives up exactly if the head it loaded is a buffer behind, and a full queue is always refused |
| `RingProofs.PopFailsIff` | include/exec_core/ring_buffer.hpp:142-151 | a pop gives up exactly if the tail it loaded is at the head, and an empty queue is always refused |
| `RingProofs.TailOrderingNeeded` | include/exec_core/ring_buffer.hpp:44-53 | if the tail is not both released and acquired, some run makes the consumer read a slot in a race |
| `RingProofs.HeadOrderingNeeded` | include/exec_core/ring_buffer.hpp:54-61 | if the head is not both released and acquired, some run makes the producer overwrite a slot in a race |
| `RingProofs.RaceFreeIffOrdered` | include/exec_core/ring_buffer.hpp:39-69 | all runs are free of data races if and only if all four acquire and release orderings are there |
| `RingBuffer.SpscRingBuffer.constructor` | include/exec_core/ring_buffer.hpp:116-123 | for every power of two below 2^64, a new buffer is an empty queue |
| `RingBuffer.SpscRingBuffer.TryPush` | include/exec_core/ring_buffer.hpp:194-213 | in one thread: appends exactly if fewer than capacity items are held, across the wrap of the counters; the cached head is refreshed only when it says full |
| `RingBuffer.SpscRingBuffer.TryPop` | include/exec_core/ring_buffer.hpp:140-161 | in one thread: takes the oldest item exactly if there is one, and otherwise leaves the caller's variable alone; the cached tail is refreshed only when it says empty |
| `RingBuffer.SpscRingBuffer.SizeApprox` | include/exec_core/ring_buffer.hpp:187-189 | the wrapped difference is the number of items held |
| `PriceScan.ScanScalar` | src/price_scan.cpp:22-43 | returns the exact scan, its total wrapped to 64 bits |
| `PriceScan.ScanNeon` | src/price_scan.cpp:49-97 | returns the same for every length, side and limit; if quantities are not negative and the exact total fits, no lane ever wraps |
| `PriceScan.ScanAvx2` | src/price_scan.cpp:108-182 | the same for the four-lane kernel with its shuffled lanes and complemented masks |
| `PriceScan.ScanTail` | src/price_scan.cpp:85-95 | the loop over the leftover levels completes the scan |
| `PriceScan.ExpectedIsExact` | include/exec_core/price_scan.hpp:88-99 | when the exact total fits 64 bits, the result is the exact one |
| `PriceScan.ScanOfParts` | include/exec_core/price_scan.hpp:34-49 | the exact scan is the sum over single levels of the quantity, and the number, of those at or better than the limit, whatever their order |
| `PriceScan.MaskedLane` | src/price_scan.cpp:71-78 | masking with all ones or all zeros keeps or clears a 64-bit value, negative ones too |
| `PriceScan.CrossMaskIs` | src/price_scan.cpp:140-154 | greater-than and a complement give the at-or-better mask in every lane |
| `PriceScan.FourLevels` | src/price_scan.cpp:122-157 | one iteration loads, shuffles, masks and adds exactly its four levels |
| `PriceScan.TwoLevels` | src/price_scan.cpp:62-79 | one iteration masks and adds exactly its two levels |
| `LatencyStats.NearestRankIsPercentile` | src/latency_harness.cpp:52-78 | the sample at the rounded-up rank is the smallest one that at least the required share of samples do not exceed; without samples the answer is 0 |
| `LatencyStats.RankIsCeiling` | src/latency_harness.cpp:54-77 | the integer rank is the exact ceiling, between 1 and the number of samples |
| `LatencyStats.ScaledPercentIsNearest` | src/latency_harness.cpp:11-50 | a percentage in range becomes the nearest hundredth, halves up; one out of range becomes the nearest bound |
| `LatencyStats.RoundingForgivesError` | src/latency_harness.cpp:39-50 | rounding recovers the intended hundredth of a percent from any error below half of one |
| `LatencyStats.TruncationLosesOne` | src/latency_harness.cpp:30-34 | truncating would lose one hundredth for any error below the intended percentage |
| `LatencyStats.PercentilesAscend` | src/latency_harness.cpp:104-108 | a higher percentage never gives a smaller sample, and all are between the minimum and the maximum |
| `LatencyStats.PercentileIgnoresOrder` | include/exec_core/latency_harness.hpp:145-152 | a percentile is unique and depends only on which samples there are |
| `LatencyStats.SumIgnoresOrder` | src/latency_harness.cpp:98-102 | the sum over the sorted copy is the sum over the samples |
| `LatencyStats.ComputeLatencyStats` | src/latency_harness.cpp:81-111 | count, minimum, maximum and the five percentiles are those of the samples in any order and ascend; the mean times the count is the sum; no samples give all zeros |

## Left out

- Core pinning, cache-line padding, the copy and move restrictions, and everything that only concerns layout or the operating system.
- The timing loop, the clock, printing, the benchmark and demo programs: input, output and measurement.
- `std::map`, `std::unordered_map`, `std::sort` and `operator new` below their specifications; an allocation that fails is not modelled.
- Object lifetime, placement new and moved-from payloads: a block in use holds a value or is uninitialized, and the model never reads an uninitialized one.
- Overflow of the book's sequence counter, of its quantities and prices, and of level totals: the book uses unbounded integers. The ring's counters and the scan kernels use 64-bit words.
- LatencyStats.ComputeLatencyStats: percentages and the mean are real numbers, so the rounding of doubles is not modelled beyond `RoundingForgivesError`.
- RingBuffer.SpscRingBuffer.TryPush: the class covers calls by one thread at a time; interleavings are covered by `RingMachine` and `RingProofs`.
- RingBuffer.SpscRingBuffer.TryPop: as for `TryPush`; and the wrapper that returns an optional is settled by reading one branch.
- RingBuffer.SpscRingBuffer.SizeApprox: a third thread that reads both counters gets an unreliable answer by design, and nothing is claimed about it; `empty_approx` likewise.
- The ring machine keeps one ordering for each access throughout a run; mixing orderings of the same access within a run is not modelled.
- PriceScan.ScanScalar: signed overflow of the total is undefined in the original's scalar code; the model gives it the wrap-around that the vector registers have.
- The scan's choice of kernel at compile time, and the raw pointer and length as which it gets its levels (here a sequence).
- MatchingEngine.OrderBook.Destroy: the chunks themselves are freed by the pool's destructor, which is not modelled.
- The drivers under `tests/` beyond `Replay`, which has the form of the interleaved one, with any commands.
