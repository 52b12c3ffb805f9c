# Verified model of libchronos

A Dafny model of the parts of libchronos that are hard to get right, with proofs about them:

- the lock-free multi-producer multi-consumer queue (`MpmcQueue`, `MpmcProofs`, `MpmcCalls`,
  `MpmcAlone`, `MpmcOneSlot`);
- the fast order book with its hot words, version counter and double-buffered cold levels, against
  the simple map-based book (`PriceLevels`, `Books`, `LevelArrays`, `Memory`, `HotLayout`,
  `OrderBookV2`, `OrderBook`, `BookRuns`, `Seqlock`, `HotReads`, `HotProgress`, `DoubleBuffer`, `ColdLayout`,
  `ColdGetters`, `ColdReads`, `ColdStart`);
- fixed-point position accounting (`Decimal`, `Positions`, `PositionManager`);
- the pre-trade risk engine (`RiskEngine`, `RiskExposure`, `RiskReads`);
- binary logs and their time-ordered replay (`Logs`, `LogRecords`, `TimeReplayer`);
- the order gateway's pending table and ledger (`OrderGateway`);
- decimal parsing and API key storage (`ParseDecimal`, `KeyCodec`).

`Arithmetic`, `Options`, `Maps` and `Bytes` hold small shared facts. `dafny verify dfyconfig.toml` checks everything.

## How to read it

Concurrency is a machine of atomic steps under sequential consistency: a run is any sequence of
events, every load, compare-exchange, store and copied word being one event, with any number of
threads. History variables (such as the queue's `pushed` and `popped`, or `images` in `DoubleBuffer`)
record what happened and are read by no step.

Objects whose methods update their fields are classes with a `Valid()` invariant; their methods are
proved against functions on values (`RunBook`, `RunMap`, `RunTable`, `Encode`, `Magnitude`, ...), and the
laws are lemmas about those functions. Methods such as `BookRuns.ReplayBoth`, `OrderGateway.RunGateway`,
`Logs.RunWriter`, `PositionManager.ApplyFills` and `TimeReplayer.ReplayAll` drive the objects through
arbitrary call sequences. Inductions are written out: a lemma to which the verifier would add an induction
hypothesis of its own says `{:induction false}`.

`Decimal` values are raw integers at scale 2^32. The arithmetic library is not part of the repository,
so multiplication and division take their rounding from a parameter `Arith` constrained by `Rounds`:
monotone and within one unit. Integers are unbounded; where the source relies on 64-bit values not
overflowing, the model does too, and where it saturates or wraps (the cached total, the base64
accumulator, the last conversion of a parsed decimal) that is written out.

Where the code differs from its comments, or does less than a caller might expect, the model follows the code:

- the queue's comment describes fetch-and-add with spinning; the code tries a compare-exchange and
  may return false. Its assertion admits a capacity of one, for which the queue overwrites
  (`MpmcOneSlot.OneSlotOverwrites`); two slots are exactly what it needs
  (`MpmcOneSlot.TwoSlotsNeeded`);
- log_writer.hpp documents a 24-byte header; the code writes and reads 64 bytes, and the magic
  constant is not the text its comment names;
- types.hpp says parsing returns zero on failure; the code ignores text after the number;
- orderbook_v2.cpp starts with the published buffer and the write buffer being the same one, so until
  the first operation is published a snapshot or a fast list can mix two books
  (`ColdStart.OneBookExactly`);
- fills are matched to our own ids before the exchange's, whose map is never cleaned, so a fill can reach
  another order (`OrderGateway.FillReachesAcked`);
- orders accepted and not yet filled are not counted by later checks
  (`RiskExposure.PositionLimitSurvives`).

## Model

| member | source | states |
|---|---|---|
| MpmcProofs.RunKeeps | include/chronos/utils/mpmc_queue.hpp:57-103 | every interleaving of any number of threads from the constructed state keeps the slot, thread and ledger invariants, including that a slot seen ready for a position stays ready until head or tail leaves it |
| MpmcProofs.InitInv | include/chronos/utils/mpmc_queue.hpp:44-48 | the constructor establishes the invariant |
| MpmcProofs.StepKeeps | include/chronos/utils/mpmc_queue.hpp:57-103 | each single load, compare-exchange, word copy and store keeps the invariant |
| MpmcProofs.Ownership | include/chronos/utils/mpmc_queue.hpp:57-103 | in every reachable state tail <= head <= tail + N and no two threads copy into or out of the same slot |
| MpmcProofs.FifoByTicket | include/chronos/utils/mpmc_queue.hpp:57-103 | the pop that won ticket k returned the argument of the push that won ticket k, word for word; every ticket below tail is returned or being copied out by its one winner |
| MpmcProofs.QuietContents | include/chronos/utils/mpmc_queue.hpp:57-103 | with no call in flight the tickets below tail are exactly those returned and the contents lie in order in the slots |
| MpmcProofs.StepRefines | include/chronos/utils/mpmc_queue.hpp:57-103 | every step is an enqueue into a queue with room, a dequeue of the oldest element, the hand-over of a dequeued element, or invisible, so the machine refines an atomic bounded queue |
| MpmcProofs.TicketsPersist | include/chronos/utils/mpmc_queue.hpp:57-103 | values given to tickets and values returned never change again |
| MpmcProofs.FullMeans | include/chronos/utils/mpmc_queue.hpp:59-73 | a push whose look ends the call with false saw head at its position and ticket pos - N unreleased: exactly full, or its owner still copying |
| MpmcProofs.EmptyMeans | include/chronos/utils/mpmc_queue.hpp:85-98 | a pop whose look ends the call with false saw tail at its position: exactly empty, or the owner of that ticket still copying |
| MpmcProofs.CallsEnd | include/chronos/utils/mpmc_queue.hpp:57-103 | whatever step ends a call, it is a look at head (or tail) that found the queue full (or empty) or a copier at work, or the step after the last word; a call that was overtaken never ends there |
| MpmcProofs.AloneIsExact | include/chronos/utils/mpmc_queue.hpp:57-103 | with no other thread copying, a push fails if and only if the queue is full and a pop if and only if it is empty |
| MpmcProofs.RetryMeansProgress | include/chronos/utils/mpmc_queue.hpp:63-75 | a thread retries, other than spuriously, only after head or tail passed its position |
| MpmcProofs.WrapIsModulo | include/chronos/utils/mpmc_queue.hpp:60-60 | the slot index is the ticket modulo the capacity |
| MpmcAlone.PushAlone | include/chronos/utils/mpmc_queue.hpp:57-77 | with no other call in flight and room, a push ends after width + 4 steps with its element at the end of the queue |
| MpmcAlone.PushAloneFull | include/chronos/utils/mpmc_queue.hpp:71-72 | without room it ends after two steps and changes nothing |
| MpmcAlone.PopAlone | include/chronos/utils/mpmc_queue.hpp:83-103 | with something there, a pop ends after width + 4 steps having returned and removed the oldest element |
| MpmcAlone.PopAloneEmpty | include/chronos/utils/mpmc_queue.hpp:97-98 | with nothing there it ends after two steps and changes nothing |
| MpmcProofs.StoredUntilPopped | include/chronos/utils/mpmc_queue.hpp:57-103 | with two slots or more every element lies in its slot, whole, from the end of its push to the end of its pop |
| MpmcOneSlot.OneSlotOverwrites | include/chronos/utils/mpmc_queue.hpp:28-28 | with one slot, two whole pushes succeed with no pop between them, the slot holds the second element and the first is gone |
| MpmcOneSlot.PopSpins | include/chronos/utils/mpmc_queue.hpp:83-103 | after that a lone pop never returns, however often its thread steps |
| MpmcOneSlot.TwoSlotsNeeded | include/chronos/utils/mpmc_queue.hpp:28-28 | head <= tail + N in every run if and only if N >= 2, and no element is overwritten before it is popped in any run if and only if N >= 2 |
| MpmcCalls.Queue.constructor | include/chronos/utils/mpmc_queue.hpp:44-48 | slot i starts with sequence number i, for every capacity; with two slots or more the queue is valid and empty |
| MpmcCalls.Queue.TryPush | include/chronos/utils/mpmc_queue.hpp:57-77 | alone, a whole call succeeds exactly when not full and appends, after any number of spurious failures |
| MpmcCalls.Queue.TryPop | include/chronos/utils/mpmc_queue.hpp:83-103 | alone, a whole call succeeds exactly when not empty and removes the oldest element |
| LevelArrays.FindSlot | src/market_data/orderbook_v2.cpp:341-349 | binary search finds the number of levels with a better price |
| LevelArrays.Insert | src/market_data/orderbook_v2.cpp:338-412 | in-place insertion leaves the best 20 of the sorted side with the level set, reports a position below which nothing changed, and performs exactly the listed word stores |
| LevelArrays.Remove | src/market_data/orderbook_v2.cpp:414-454 | in-place removal leaves the side without the price, reports a position below which nothing changed, and performs exactly the listed word stores |
| LevelArrays.Tick | src/market_data/orderbook_v2.cpp:256-274 | a tick steps the side, and a reported position outside the top five means the top five are unchanged |
| OrderBookV2.OrderBookV2.constructor | src/market_data/orderbook_v2.cpp:13-21 | a new book is valid and empty, with both buffer roles at buffer 0 |
| OrderBookV2.ColdData.Clear | include/chronos/market_data/orderbook_v2.hpp:147-154 | clearing empties both sides, keeps the timestamp and performs exactly the listed word stores |
| OrderBookV2.ColdData.Apply | src/market_data/orderbook_v2.cpp:253-278 | a tick steps the buffer, performing exactly the stores of ColdLayout.OpWrites |
| OrderBookV2.OrderBookV2.UpdateLevels | src/market_data/orderbook_v2.cpp:253-278 | the write buffer steps by the tick, trades going to the asks, and a clean flag means equal top levels |
| OrderBookV2.OrderBookV2.RebuildHotData | src/market_data/orderbook_v2.cpp:280-310 | performs exactly the listed stores between two version increments, or nothing when not dirty |
| OrderBookV2.OrderBookV2.SwapColdBuffers | src/market_data/orderbook_v2.cpp:312-324 | publishes the written buffer, makes the other one the write buffer and makes both equal |
| OrderBookV2.OrderBookV2.Update | src/market_data/orderbook_v2.cpp:29-34 | after every update both buffers hold the stepped book, the hot words show its top five even when the rebuild was skipped, and the write buffer is not the published one |
| OrderBookV2.OrderBookV2.Clear | src/market_data/orderbook_v2.cpp:217-234 | the same for clear |
| OrderBookV2.OrderBookV2.GetLevels | src/market_data/orderbook_v2.cpp:132-166 | the level list is the prefix of the book: the validity filter drops nothing |
| OrderBookV2.OrderBookV2.GetLevel | src/market_data/orderbook_v2.cpp:100-130 | one level, or nothing past the end |
| OrderBookV2.OrderBookV2.GenerateSnapshot | src/market_data/orderbook_v2.cpp:194-215 | the snapshot is the whole book with its timestamp, bids strictly falling and asks strictly rising in price, quantities positive, at most twenty a side |
| OrderBook.OrderBook.Update | src/market_data/orderbook.cpp:13-43 | the simple book steps its trimmed maps, and the best prices copied before the trim stay right |
| OrderBook.OrderBook.Clear | src/market_data/orderbook.cpp:197-214 | clear empties maps and best prices and keeps the timestamp |
| OrderBook.TrimDepth | src/market_data/orderbook.cpp:322-338 | the erase-worst loop computes the trimmed map |
| OrderBook.TrimKeepsBest | src/market_data/orderbook.cpp:322-338 | trimming keeps min(size, 20) levels and the best level with its quantity |
| PriceLevels.TrimKeepsTwenty | src/market_data/orderbook.cpp:322-338 | trimming keeps the twenty highest bids or the twenty lowest asks, with their quantities |
| OrderBook.OrderBook.GetBest | src/market_data/orderbook.cpp:45-61 | the best bid is a price in the book that no bid exceeds, the best ask one that no ask is below |
| OrderBook.OrderBook.GetLevels | src/market_data/orderbook.cpp:120-152 | walking the map yields the prefix of the in-order listing |
| OrderBook.OrderBook.GenerateSnapshot | src/market_data/orderbook.cpp:154-171 | the snapshot is the in-order listing of both maps, bids falling and asks rising |
| PriceLevels.RepresentsIsEnumerate | include/chronos/market_data/orderbook.hpp:184-185 | a strictly sorted sequence with the entries of a map is its in-order traversal |
| PriceLevels.EnumerateRepresents | include/chronos/market_data/orderbook.hpp:184-185 | the in-order traversal of any map is strictly sorted and has exactly its entries |
| Books.TrimRepresents | src/market_data/orderbook.cpp:322-338 | erasing the worst levels of the map is cutting the sorted listing |
| Books.StepSimulates | src/market_data/orderbook_v2.cpp:253-278 | one update or clear keeps the fast book's arrays representing the simple book's maps |
| Books.FastRefinesSimple | src/market_data/orderbook_v2.cpp:338-454 | after any sequence of updates and clears the fast book's arrays equal the listing of the simple book's trimmed maps with the same timestamp: bids strictly falling, asks strictly rising, all quantities positive, at most twenty a side |
| BookRuns.ReplayBoth | src/market_data/orderbook.cpp:13-43 | both objects driven by the same calls end in the same snapshot, highest bid and lowest ask first |
| HotLayout.RebuildShows | src/market_data/orderbook_v2.cpp:289-309 | the rebuild's stores, in order, make any hot words show the book's top five |
| HotLayout.ClearShows | src/market_data/orderbook_v2.cpp:223-230 | the clear's stores make any hot words show an empty book |
| HotLayout.SameTopShows | src/market_data/orderbook_v2.cpp:281-283 | skipping the rebuild is right when the top five are unchanged |
| Seqlock.RunKeeps | include/chronos/market_data/orderbook_v2.hpp:199-240 | every interleaving of one writer and any number of readers keeps the version and snapshot invariants |
| Seqlock.ReadsAreAtomic | include/chronos/market_data/orderbook_v2.hpp:199-240 | all words of a finished optimistic read come from one memory image of one operation between those complete at its start and those begun at its return |
| Seqlock.ReadsEnd | include/chronos/market_data/orderbook_v2.hpp:199-240 | with the version even and the writer at rest a read ends, with what its program returns on the memory as it is |
| Seqlock.WritesEnd | src/market_data/orderbook_v2.cpp:280-310 | an operation ends with its stores done in order between two increments of the version, or with neither |
| HotReads.MidIsMid | src/market_data/orderbook_v2.cpp:54-61 | twice the mid price is the sum of the best prices up to rounding, so it lies between them up to one unit unless they cross |
| HotReads.QueryCorrect | src/market_data/orderbook_v2.cpp:36-98 | each hot getter, run word by word on one image, answers for the book it shows |
| HotReads.OperationsBegin | src/market_data/orderbook_v2.cpp:280-310 | every operation the book performs, skipped rebuilds included, leaves the words showing the new book |
| HotReads.GettersLinearize | src/market_data/orderbook_v2.cpp:36-98 | every finished best, mid, spread or top-five read equals that reading of the simple reference book after one number of operations, within the call's window; a best price is the highest bid or lowest ask of that book and a mid price its mid |
| HotProgress.GettersEnd | src/market_data/orderbook_v2.cpp:36-98 | a getter called while no update is being written ends, if none begins, with the answer for the last published book |
| ColdLayout.OpStores | src/market_data/orderbook_v2.cpp:253-278 | run in program order, the stores of insert, remove and clear turn words that show a book into words that show the next book |
| ColdGetters.LoadOnBook | src/market_data/orderbook_v2.cpp:100-239 | a cold getter that loads from words showing a book stays on that book, load by load, and ends with that book's answer |
| ColdGetters.GettersAnswer | src/market_data/orderbook_v2.cpp:100-239 | on words that show a book every cold getter ends, after at most 180 loads, with the answer for that book |
| ColdReads.BuffersEqual | src/market_data/orderbook_v2.cpp:312-324 | between operations both buffers hold the last published book, word for word |
| ColdReads.OperationsBegin | src/market_data/orderbook_v2.cpp:253-278 | there every update and clear begins and leads from the last book to the next |
| ColdReads.ColdGettersLinearize | src/market_data/orderbook_v2.cpp:100-239 | under every interleaving of stores, pointer stores, copies back and loads, a cold getter called after a first publication, with no pointer store before its last load, answers for the simple reference book after the operations published at its call |
| ColdStart.EarlyIsOneBook | src/market_data/orderbook_v2.cpp:100-166 | before the first publication the getters that look at the book once answer for the empty book or for the book after the first operation |
| ColdStart.SnapshotTorn | src/market_data/orderbook_v2.cpp:194-215 | from the constructed state a snapshot can return time zero with the first bid, a book that never was |
| ColdStart.FastListTorn | src/market_data/orderbook_v2.cpp:168-192 | and a fast list can return the first level with a count of zero |
| ColdStart.OneBookExactly | src/market_data/orderbook_v2.cpp:13-21 | with no pointer store between its load and its last word a cold getter returns one book in every run if and only if it is called after the first publication or is neither generateSnapshot nor a fast list |
| DoubleBuffer.RunKeeps | src/market_data/orderbook_v2.cpp:312-332 | every interleaving keeps the buffer, history and reader invariants |
| DoubleBuffer.OperationsEnd | src/market_data/orderbook_v2.cpp:312-324 | an operation ends with its stores done in order, its buffer published and the trail copied back |
| DoubleBuffer.DarkIsNotPublished | src/market_data/orderbook_v2.cpp:312-324 | after a first pointer store the write buffer is never the published one, which shows the last value published |
| DoubleBuffer.ReadBeforeNextStore | src/market_data/orderbook_v2.cpp:326-332 | a read loaded after a first pointer store, or at any time if the roles started apart, with no pointer store before its last word, returns words of the one image that shows the value published at its load |
| DoubleBuffer.ReadBeforeSecondOperation | include/chronos/risk/risk_engine.hpp:173-179 | on words untouched after the pointer store, a read is whole until a second operation begins |
| Positions.FillResidue | src/trading/position_manager.cpp:50-132 | one fill moves the quantity exactly and the profit residue by at most its rounding slack, in every branch |
| Positions.OpeningFill | src/trading/position_manager.cpp:66-91 | a fill on nothing or on a flat position opens at the fill's price and leaves realised profit alone |
| Positions.AddingFill | src/trading/position_manager.cpp:93-103 | a fill in the same direction realises nothing, and the new average times the new quantity is the cost of both parts up to the averaging's rounding |
| Positions.ClosingFill | src/trading/position_manager.cpp:104-128 | a fill in the other direction realises the closed units times the price difference within one unit; what is left keeps its average, a flat position has none, what goes beyond opens at the fill's price |
| Positions.AverageBound | src/trading/position_manager.cpp:24-32 | the weighted average times the new quantity is the exact cost up to the new quantity plus two units |
| Positions.Conservation | src/trading/position_manager.cpp:50-132 | for every sequence of fills a symbol's quantity is the signed sum and its residue is within the summed slack |
| Positions.BoughtLessSold | src/trading/position_manager.cpp:50-132 | after any fills a symbol's quantity is what was bought less what was sold |
| Positions.SlackIsLinear | src/trading/position_manager.cpp:50-132 | the slack is at most two units and the largest quantity held for every fill |
| Positions.MarksHistory | include/chronos/core/types.hpp:351-358 | total profit at any mark values the whole trade history up to the slack and one unit |
| PositionManager.TotalWithout | src/trading/position_manager.cpp:201-219 | the sum of values does not depend on iteration order |
| PositionManager.SaturatingAdd | src/trading/position_manager.cpp:208-216 | the guarded addition is the saturated sum and never leaves the 64-bit range |
| PositionManager.PositionManager.RecalcTotalValue | src/trading/position_manager.cpp:201-219 | with non-negative prices the cache becomes min(INT64_MAX, sum of values), in any iteration order |
| PositionManager.PositionManager.UpdatePosition | src/trading/position_manager.cpp:50-132 | the table steps by the fill, the cache follows, a zero quantity is refused |
| PositionManager.PositionManager.Clear | src/trading/position_manager.cpp:154-158 | clear empties table and cache |
| PositionManager.PositionManager.GetTotalValue | src/trading/position_manager.cpp:184-199 | the sum of all positions at their positive market prices or else their averages; without prices it equals the cache when unsaturated |
| PositionManager.PositionManager.ToJson | src/trading/position_manager.cpp:225-239 | the entries load to exactly the positions that are not flat |
| PositionManager.PositionManager.FromJson | src/trading/position_manager.cpp:241-267 | loads complete entries, later ones winning, recomputes the cache; anything but an array changes nothing |
| PositionManager.LoadsEntry | src/trading/position_manager.cpp:247-263 | an entry without symbol, quantity, average or realised profit is skipped, any other sets its position, with time zero if that is missing |
| PositionManager.NonFlatTotal | src/trading/position_manager.cpp:201-219 | flat positions contribute nothing to the total |
| PositionManager.SaveAndLoad | src/trading/position_manager.cpp:225-267 | saving then loading restores the positions that are not flat and the same cached total |
| PositionManager.FillKeepsNonNegative | src/trading/position_manager.cpp:24-32 | fills at non-negative prices keep averages non-negative |
| PositionManager.ApplyFills | src/trading/position_manager.cpp:50-132 | any sequence of fills through the object gives the run's table, balanced books and the saturated cache |
| RiskEngine.RiskEngine.constructor | src/risk/risk_engine.cpp:37-48 | the hot limits are the conversions of 100000, 500000, 1000000 and 10000 and a rate of 100, and the write buffer is the other one |
| RiskEngine.RiskEngine.UpdateParameters | src/risk/risk_engine.cpp:54-59 | after an update every hot limit is the conversion of the new parameter of its name, and the new parameters are active in the buffer that was dark |
| RiskEngine.RiskEngine.PublishParams | include/chronos/risk/risk_engine.hpp:173-198 | publication swaps buffers, raises the version by two and brings the new dark limits up to date |
| RiskEngine.RiskEngine.CheckRateLimit | src/risk/risk_engine.cpp:69-86 | the per-second count restarts with a new second and bounds acceptance |
| RiskEngine.RiskEngine.CheckOrder | src/risk/risk_engine.cpp:96-175 | accepted exactly when the order breaks none of the configured parameters; a rejection names one it breaks, the first in the order of the checks |
| RiskEngine.TalliesCount | src/risk/risk_engine.cpp:195-229 | after any checks every statistics counter is the number of its verdicts |
| RiskExposure.ValueGrowth | src/trading/position_manager.cpp:50-132 | a fill adds at most its own value to a position's value, plus rounding linear in the new quantity |
| RiskExposure.AcceptedExposure | src/risk/risk_engine.cpp:96-165 | an accepted order filled at its limit keeps the symbol within the configured position limit and the cached total within the configured total limit plus order limit plus rounding |
| RiskExposure.CheckThenFill | src/risk/risk_engine.cpp:96-175 | the same for the two objects called one after the other |
| RiskExposure.AcceptedTogether | src/risk/risk_engine.cpp:96-165 | if k orders pass against the same positions and then all fill at their limits, the cached total is within the total limit plus k order limits plus the summed rounding |
| RiskExposure.RoundingIsLinear | src/risk/risk_engine.cpp:96-165 | that rounding is at most one unit and the largest new quantity for every fill |
| RiskExposure.PositionLimitSurvives | src/risk/risk_engine.cpp:131-145 | the position limit then holds if and only if the last order would also have passed with the outstanding ones counted as filled |
| RiskExposure.LimitBroken | src/risk/risk_engine.cpp:131-145 | and it can fail: two orders that both pass and a position beyond the limit |
| RiskReads.LimitReadsAreAtomic | include/chronos/risk/risk_engine.hpp:209-226 | every read returned inside the retry loop sees the converted limits of one published parameter set within its window |
| RiskReads.LimitReadsEnd | include/chronos/risk/risk_engine.hpp:209-226 | and such a read ends when no update is being written |
| RiskReads.UpdatesBegin | include/chronos/risk/risk_engine.hpp:181-198 | the publication's word copy makes the memory show the new limits, so every update begins |
| RiskReads.ParamUpdatesBegin | src/risk/risk_engine.cpp:54-59 | the stores of an update make the dark buffer show its parameters, so every update begins |
| RiskReads.ParameterCopiesAreWhole | src/risk/risk_engine.cpp:61-63 | a parameter copy that ends before the second update after its load begins is, word for word, the parameter set published last at its load |
| Logs.LogWriter.Open | src/logging/log_writer.cpp:209-225 | a header is written only into an empty file |
| Logs.LogWriter.Append | include/chronos/logging/log_writer.hpp:124-133 | accepts exactly the records that fit and appends their bytes |
| Logs.LogWriter.Flush | src/logging/log_writer.cpp:151-180 | moves the whole buffer to the end of an open file |
| Logs.HeaderParses | src/logging/log_reader.cpp:130-141 | the written header parses to its magic and type |
| Logs.OpensExactly | src/logging/log_reader.cpp:130-151 | a file opens exactly when it has a whole header, the magic number and a known type |
| Logs.PartialRecordIgnored | src/logging/log_reader.cpp:153-155 | a last record that is not whole is not counted |
| LogRecords.MagicText | src/logging/log_writer.cpp:227-230 | the magic number is the bytes C H R O N 0, 1, 0 |
| Logs.LittleEndianRoundTrip | src/logging/log_writer.cpp:227-236 | header fields read back from their bytes |
| Logs.WrittenReadsBack | src/logging/log_reader.cpp:130-207 | the file is one 64-byte header plus whole records, the count is the records flushed, and record i reads, through the accessors of its type only, as the i-th accepted write |
| Logs.RunWriter | src/logging/log_writer.cpp:151-180 | the same after any sequence of writes, refusals, flushes, closings and reopenings |
| LogRecords.TimeIsThere | include/chronos/core/types.hpp:197-314 | each structure has its log's record size and its time at the offset where the reader looks |
| LogRecords.TimesReadBack | src/logging/log_reader.cpp:201-207 | the reader's timestamp of record i is the time of the i-th tick, order or fill written |
| Logs.SeekToTimestamp | src/logging/log_reader.cpp:209-223 | on a sorted log, the first record not before the time |
| TimeReplayer.TimeReplayer.AddStream | src/backtest/time_replayer.cpp:11-22 | adds a log unless it is empty, keeping one heap entry per unfinished log |
| TimeReplayer.TimeReplayer.AdvanceToNextEvent | src/backtest/time_replayer.cpp:28-69 | delivers one event unless paused or exhausted |
| TimeReplayer.TimeReplayer.AdvanceTo | src/backtest/time_replayer.cpp:71-78 | on sorted logs added up front nothing before the target is left, and at most the last event delivered is not before it |
| TimeReplayer.TimeReplayer.AdvanceToEnd | src/backtest/time_replayer.cpp:80-87 | delivers everything left unless paused |
| TimeReplayer.ExhaustedMeansEmpty | include/chronos/backtest/time_replayer.hpp:58-58 | the heap is empty exactly when the counters say exhausted, exactly when every log is at its end |
| TimeReplayer.EarliestFirst | src/backtest/time_replayer.cpp:32-66 | delivering the least heap entry keeps time order and leaves nothing earlier |
| TimeReplayer.OnceInOrder | src/backtest/time_replayer.cpp:61-66 | the k-th event of a log is its record k, and exactly the first pos records have come |
| TimeReplayer.CompleteReplay | src/backtest/time_replayer.cpp:28-87 | an exhausted replay has delivered every record once, in log order and non-decreasing time |
| TimeReplayer.ReplayAll | src/backtest/time_replayer.cpp:11-87 | for any sorted logs added and run to the end: every record of every log once, in log order, and the times the logs hold never go back |
| OrderGateway.OrderGateway.Dispatch | src/execution/order_gateway.cpp:109-188 | filter, cancel, modify or new order; a request for a pending id only changes its price and quantity |
| OrderGateway.OrderGateway.ApplyCancel | src/execution/order_gateway.cpp:140-148 | a cancel removes the entry if it is there |
| OrderGateway.OrderGateway.Track | src/execution/order_gateway.cpp:355-374 | a new order is added under a fresh id, never over an existing entry |
| OrderGateway.OrderGateway.AutoFill | src/execution/order_gateway.cpp:233-251 | in simulation the order is filled in full through the fill path, with its counters and callback, and counted as sent |
| OrderGateway.OrderGateway.InjectFill | src/execution/order_gateway.cpp:460-502 | an unmatched fill is an error; a matched one reaches the callback with the order's symbol and strategy and completes the order when enough is filled |
| OrderGateway.OrderGateway.InjectOrderAck | src/execution/order_gateway.cpp:504-514 | an acknowledgement marks a pending order accepted and records the exchange id |
| OrderGateway.OrderGateway.InjectOrderReject | src/execution/order_gateway.cpp:516-530 | a reject removes the order if pending and is counted |
| OrderGateway.OrderGateway.CloseNext | src/execution/order_gateway.cpp:411-427 | shutdown takes the next id, passing over one that has left when there is an exchange |
| OrderGateway.OrderGateway.FinishShutdown | src/execution/order_gateway.cpp:401-447 | whatever the exchange sent during shutdown, nothing is pending at its end |
| OrderGateway.OrderGateway.CancelAllPending | src/execution/order_gateway.cpp:401-447 | undisturbed, shutdown counts every pending order once |
| OrderGateway.FillReachesAcked | src/execution/order_gateway.cpp:466-472 | in every run a fill under an exchange id reaches the order acknowledged under it if and only if that order is still pending and no other pending order has that number as its own id |
| OrderGateway.FillReachesOwn | src/execution/order_gateway.cpp:463-479 | a fill under a pending order's own id reaches it, and a fill reaches some order exactly when its id is that of a pending order or was acknowledged for one |
| OrderGateway.FillsComplete | src/execution/order_gateway.cpp:482-491 | an order stays pending, with the sum of its fills on record, exactly as long as that sum is short of its quantity |
| OrderGateway.FillOrder | src/execution/order_gateway.cpp:460-502 | the same through the gateway |
| OrderGateway.IoStep | src/execution/order_gateway.cpp:103-252 | every step of a request or a shutdown brings it nearer to its end: four steps at most for a request, three for each order of a shutdown |
| OrderGateway.MisattributedFill | src/execution/order_gateway.cpp:466-472 | a run in which such a fill completes another order |
| OrderGateway.RunGateway | src/execution/order_gateway.cpp:103-252 | over every run, exchange events between any two steps of a request or a shutdown included, entries are filed under their own id with a live status, orders leave at most once, and received + injected rejects + shutdown cancels = mismatched + sent + modified + rejected + cancelled, each request being counted once when received and once when sent, rejected or cancelled |
| OrderGateway.NoneLostNoneTwice | src/execution/order_gateway.cpp:396-447 | every order ever tracked is pending or has left, exactly one of the two |
| ParseDecimal.Parse | src/core/parse_decimal.cpp:6-56 | the loops compute the scanned numeral's raw value, reduced to 64 bits, and the reduction loses nothing if and only if the value fits |
| ParseDecimal.FitsExactly | src/core/parse_decimal.cpp:44-55 | the value fits if and only if the integer part is below 2^31, or is 2^31 negative with no fraction that counts |
| ParseDecimal.AccumulatorsFit | src/core/parse_decimal.cpp:21-51 | an integer part that fits its accumulator fits at every digit, and the sum fits 128 bits |
| ParseDecimal.OddInSign | src/core/parse_decimal.cpp:53-53 | the sign only flips the result |
| ParseDecimal.WrittenParses | src/core/parse_decimal.cpp:6-56 | a number written in decimal, with or without a minus sign and with any fraction of up to ten digits, parses to that number, its fraction truncated to 2^-32 |
| ParseDecimal.BlankFirst | src/core/parse_decimal.cpp:13-13 | blanks before a number change nothing |
| ParseDecimal.PlusSign | src/core/parse_decimal.cpp:19-19 | nor does a plus sign |
| ParseDecimal.MagnitudeIs | src/core/parse_decimal.cpp:42-51 | the two-term sum is one truncation of the exact value to ten digits followed by one to 2^-32 |
| ParseDecimal.ErrorBound | src/core/parse_decimal.cpp:42-51 | the magnitude never exceeds exact * 2^32 and falls short by less than 1 + 2^32 / 10^10, with these numbers written out |
| ParseDecimal.Monotone | src/core/parse_decimal.cpp:42-55 | parsing is monotone in the number denoted, across signs |
| ParseDecimal.TrailingZero | src/core/parse_decimal.cpp:31-40 | trailing zeros change nothing |
| KeyCodec.Base64Encode | src/io/security/security.cpp:18-31 | the shift-and-mask loop computes base64 by groups, section 4 of RFC 4648 |
| KeyCodec.Base64Decode | src/io/security/security.cpp:33-49 | the loop runs the wrapping 32-bit decoder, stopping at padding and skipping foreign characters |
| KeyCodec.TwoDigits | src/io/security/security.cpp:41-45 | two digits fix the low twelve bits of the accumulator whatever it held before |
| KeyCodec.NulByte | src/io/security/security.cpp:37-41 | a zero byte, found at the terminator, sets bit six and no other |
| KeyCodec.Alphabet | src/io/security/security.cpp:15-17 | the 64 characters are those of RFC 4648 |
| KeyCodec.Base64RoundTrip | src/io/security/security.cpp:18-49 | decoding an encoding returns every byte sequence |
| KeyCodec.XorCipher | src/io/security/security.cpp:53-61 | the loop computes the repeating-key exclusive or |
| KeyCodec.CipherTwice | src/io/security/security.cpp:53-61 | the cipher undoes itself for every key |
| KeyCodec.XorIs | src/io/security/security.cpp:58-58 | the cipher's byte operation is exclusive or, bit by bit |
| KeyCodec.KeyBits | src/io/security/security.cpp:65-74 | every bit of the derived key, from the master string and the byte's index |
| KeyCodec.KeysDiffer | src/io/security/security.cpp:65-74 | different master strings of one length up to 32 have different keys |
| KeyCodec.EncryptThenDecrypt | src/io/security/security.cpp:89-103 | what is encrypted decrypts to itself for every plaintext and master key |

## Left out

- C++ memory orders weaker than sequential consistency, and the 64-bit wrap-around of queue tickets and version counters.
- The queue's `size()` and `empty()`, which are documented as approximate.
- The simple book's own version counter and spinlock, and the unvalidated read after 100 retries there and in the risk engine.
- The fast book's `getLastUpdateTime`, whose hot timestamp moves only with the top five, and all latency and read statistics.
- RiskEngine.RiskEngine.CheckRateLimit: across threads its compare-exchange and its reset are separate, so only the sequential cap is stated.
- Rounding inside the fixed-point library and conversions through double; the latter are a parameter of `RiskEngine`.
- Fills of negative quantity, which the weighted average does not expect.
- Exchange adapters, HTTP, WebSocket, ZMQ, JSON text, configuration, strategy and backtest pricing, health monitoring, log sanitising and error history.
- Client order ids of the gateway; the encoders and the exchange are inputs of its steps.
- Date rotation and retention of logs, and the three writers sharing one flush; one file is modelled at a time.
- The priority queue's heap layout: the replayer takes any entry with the least timestamp.
- Callback functions: the replayer and the gateway record what they would be given.
- Token validation, and how hard the stored keys are to break.
