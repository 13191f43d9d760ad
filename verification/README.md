# QuantFlow: verified core

A Dafny model of the parts of the QuantFlow trading stack whose correctness is hardest to see by reading, with
machine-checked proofs of what they promise. One module per component:

| component | modules |
|---|---|
| lock-free object pool and queues, as step systems over any number of threads | `ObjectPool`, `MpscQueue`, `SpscQueue`, `Ring` |
| order book, book manager, simulator book, matching engine, stream generator | `OrderBook`, `BookManager`, `SimBook`, `MatchingEngine`, `Allocation`, `OrderGenerator`, `MapSum`, `Market`, `Basics` |
| binary feed: messages, datagrams, the whole path from simulator to rebuilt books | `Wire`, `Batcher`, `Pipeline` |
| FIX 4.4: message text, stream reassembly, administrative messages, session | `FixText`, `FixMessage`, `FixGateway`, `FixAdmin`, `FixSession`, `FixExchange` |
| profit and loss, positions, portfolio | `Accounting` |
| order management: state table, journal, manager | `Oms` |
| online regression, sliding z-score, prediction cache | `LinearAlgebra`, `LinearModel`, `ZScore`, `PredictionCache` |

`dafny verify dfyconfig.toml` checks everything.

## How the model relates to the code

- **Concurrency.** Every load, store, compare-exchange and slot access of the lock-free structures is one step of one
  thread; runs are arbitrary interleavings under sequential consistency. Head, tail and tag are unbounded counters in
  the state, but every comparison the machine makes is made on their values modulo the capacity or 2^32.
- **State.** What the source updates in place is a class with the same fields. Random draws, clocks and the network
  are parameters, and so is `std::sqrt`; what a callback receives is a field that grows.
- **Numbers.** Integers carry their width where it matters: 32-bit level totals and fill quantities wrap, sequence
  numbers wrap at 2^32, removals saturate. Prices and money are exact integers in 1/10000 dollar, statistics exact
  reals.
- **Hash order.** Where the source iterates an unordered map, the model takes the entries in an arbitrary order.

## Where the code falls short of a promise

Each of these is kept as the code has it. The condition under which the promise holds is proved for all inputs, and a
concrete input or run that breaks it is given.

- *Object pool* ("thread-safe for concurrent acquire/release"): an `acquire` that sleeps through 2^32 exchanges takes
  a slot another thread owns (`WrappedTagBreaksPool`). The exchange is safe if and only if the successor read is still
  the successor (`AcquireExchangeExact`). `release` is safe even on a wrapped tag.
- *MPSC queue*: masked indices cannot tell laps apart, so a stalled producer can claim a slot of a full ring. From such
  a claim, and from no other, there is a way on, with no further lap, after which the consumer is told "empty" while
  committed items wait (`ClaimExact`; a whole run on two slots is `LapLosesItems`). If a pop frees a slot in time, all
  items still arrive (`LapWithoutLoss`).
- *MPSC queue* ("returns false if full"): a push is refused if and only if a whole number of laps lies between the tail
  and the position after the one it loaded (`PushRefusedExactly`). For a push that was not lapped that means a full ring
  and nothing claimed since, or that the position it loaded is the last one popped (`PushRefusedWithinLap`). In the
  second case the ring may be empty (`RefusedWhenEmpty`).
- *Order book*: level totals are right if and only if the level has room below 2^32 (`AddKeeps`, `OverflowWraps`).
  Levels, counts, best prices and the store itself do not depend on the totals and stay right as long as the 32-bit
  counts do.
- *Book manager*: routing stays sound if and only if no Add reuses an id live under another symbol (`RoutedExactly`,
  `AmbiguousAddOrphans`).
- *Replica*: after a generated stream the handler holds the simulator's orders if and only if the stream has no Trade
  (`ReplicaAgrees`, `TradeDiverges`): every Trade removes an order at the simulator that the handler keeps for ever.
- *Matching engine*: all symbols share one book and the engine never looks at them. Trades for a symbol stay among its
  own orders, however hash order breaks ties, if and only if no order of another symbol is reachable, that is, if the
  orders ahead of it in price leave nothing of the other side (`ForeignTradesExactly`, `CrossSymbolTrade`). More
  generally an order can trade if and only if it is reachable (`MayTradeExactly`), and at every price some order trades
  if and only if one there is reachable, in every run alike (`LevelTradesExactly`). Orders for nothing add trades for
  nothing, each naming such an order and possibly one that is not reachable (`TradeForNothing`); the generator never
  leaves such an order in the book. A generated Trade is proper if and only if its two orders have one symbol and cross
  (`GenerateTrade`).
- *FIX session*: requesting a resend never fills the gap. A requested number is not accepted later, because the resent
  copy is dropped as a duplicate (`RequestedIsNeverAccepted`). The number bookkeeping survives a message if and only if
  it does not accept number 2^32 - 1 (`OnMessage`); after that number the same message is delivered twice
  (`WrappedNumber`). A resend request whose end is 2^31 or more is printed as a negative number and answered as if it
  had none (`ReplayFills`). The ResetSeqNumFlag branch of the logon handler never changes anything (`HandleLogon`).
- *FIX gateway*: the stream stays in step through every read if and only if no read leaves more than 1 MiB of an
  incomplete message behind (`CutOffExact`, `Reassembly`, `OversizedLost`). After a cut it goes on as new (`AfterCut`):
  bytes that do not begin a message are swallowed until they pass 1 MiB again, later messages among them
  (`MisplacedSilent`, `CutTakesTheNext`), and delivery resumes when a read begins at a message (`ResumesAtBoundary`).
- *Order manager*: `filled_quantity` is the sum of all reports modulo 2^32, refused ones included. A filled order stays
  full if and only if a later report does not wrap the sum below its quantity (`OnFill`, `WrappedFill`); an order can
  be full without being Filled only through a refused report (`FilledCountsReports`, `RefusedFillCounts`).

The code disagrees with itself in one more place: `include/qf/oms/state_machine/order_states.hpp` holds a second
transition table that also allows New and Sent orders to be cancelled and New orders to be rejected, and differs in
nothing else (`TablesDiffer`). The order manager uses the table of `state_transitions.hpp`, and so does the model.

## Model

| member | source | states |
|---|---|---|
| `ObjectPool.Construct` | include/qf/core/object_pool.hpp:21-28 | the constructor's loop links slots 0 to n-1 into one list, for every n up to 2^32 - 1 |
| `ObjectPool.InitInv` | include/qf/core/object_pool.hpp:21-28 | the constructed pool has all slots free, in order, and satisfies the invariant |
| `ObjectPool.ExchangeForAcquireInv` | include/qf/core/object_pool.hpp:41-44 | an acquiring exchange whose successor is current pops exactly the first free slot |
| `ObjectPool.ExchangeForReleaseInv` | include/qf/core/object_pool.hpp:58-61 | a releasing exchange pushes exactly the released slot, whatever the tag did |
| `ObjectPool.StepInv` | include/qf/core/object_pool.hpp:31-63 | every atomic step of every thread keeps acyclicity, the partition into free and owned slots and single ownership, and acts on the free slots as a stack |
| `ObjectPool.RunInv` | include/qf/core/object_pool.hpp:31-63 | the invariant and the stack refinement hold after every run |
| `ObjectPool.PoolSafe` | include/qf/core/object_pool.hpp:31-75 | after every interleaving from construction, free and owned slots partition 0 to n-1, no slot has two owners, the list is acyclic and is what the pops and pushes alone would leave |
| `ObjectPool.GivesUpIffEmpty` | include/qf/core/object_pool.hpp:32-37 | acquire returns null if and only if the list was empty at its head read |
| `ObjectPool.FailureMeansProgress` | include/qf/core/object_pool.hpp:41-61 | an exchange that cannot succeed was overtaken by another thread's success |
| `ObjectPool.LockFree` | include/qf/core/object_pool.hpp:41-61 | lock freedom: in every run each failed exchange of a thread is paid for by a successful one of another, because a failure reloads the head |
| `ObjectPool.AcquireAlone` | include/qf/core/object_pool.hpp:31-47 | from any state a thread left alone inside acquire comes out within four moves, with the first free slot, or with nothing if there is none |
| `ObjectPool.ReleaseAlone` | include/qf/core/object_pool.hpp:50-63 | from any state a thread left alone inside release comes out within four moves with its slot on top of the free ones |
| `ObjectPool.TagsDistinguish` | include/qf/core/object_pool.hpp:70-75 | a 32-bit tag identifies the head among fewer than 2^32 exchanges |
| `ObjectPool.ChainUnique` | include/qf/core/object_pool.hpp:81-85 | head and next links determine the free list |
| `ObjectPool.AcquireExchangeExact` | include/qf/core/object_pool.hpp:38-44 | an acquiring exchange leaves a well-formed pool if and only if the successor it read is still the successor |
| `ObjectPool.WrappedTagBreaksPool` | include/qf/core/object_pool.hpp:70-75 | a run from construction through 2^32 exchanges that ends with an owned slot at the head |
| `MpscQueue.ClaimInv` | include/qf/core/mpsc_queue.hpp:35-36 | a claim on a ring that is not full gives the claimed position one owner |
| `MpscQueue.WriteSlotInv` | include/qf/core/mpsc_queue.hpp:37-38 | writing a claimed slot disturbs no other live item |
| `MpscQueue.CommitInv` | include/qf/core/mpsc_queue.hpp:41-44 | commits happen in claim order: each advances committed by exactly one |
| `MpscQueue.StepInv` | include/qf/core/mpsc_queue.hpp:26-81 | every atomic step of every producer and the consumer keeps the queue invariant, given room at each claim |
| `MpscQueue.RunInv` | include/qf/core/mpsc_queue.hpp:26-81 | the invariant holds after every run whose claims have room |
| `MpscQueue.NoLapsLeaveRoom` | include/qf/core/mpsc_queue.hpp:27-36 | if head never goes once round between a producer's load and its claim, every claim has room |
| `MpscQueue.QueueSafe` | include/qf/core/mpsc_queue.hpp:26-81 | in every interleaving the popped items are a prefix of the claimed items, tail <= committed <= head < tail + capacity, and every committed item sits in its slot |
| `MpscQueue.ConsumerReadsWritten` | include/qf/core/mpsc_queue.hpp:74-78 | the consumer only reads written slots and gets the item claimed at its position |
| `MpscQueue.PopFailsIffNothingCommitted` | include/qf/core/mpsc_queue.hpp:73-77 | a pop fails if and only if nothing is committed beyond the tail |
| `MpscQueue.OldestClaimHasProducer` | include/qf/core/mpsc_queue.hpp:39-44 | the spin loop cannot deadlock: the oldest uncommitted claim has a live producer, and once written its spin ends |
| `MpscQueue.CommitAll` | include/qf/core/mpsc_queue.hpp:37-45 | from any state with owned claims, even an overrun ring, all claims can be written and committed in order |
| `MpscQueue.FullClaimHides` | include/qf/core/mpsc_queue.hpp:31-45 | after a claim on a full ring the producers can finish so that committed items are hidden, whether or not a pop is under way |
| `MpscQueue.SafeNeverHides` | include/qf/core/mpsc_queue.hpp:72-81 | no run without laps ever reports "empty" while committed items wait |
| `MpscQueue.ClaimExact` | include/qf/core/mpsc_queue.hpp:31-36 | there is a continuation without further laps after which the consumer is told "empty" while committed items wait, if and only if the claim succeeded on a full ring |
| `MpscQueue.ClaimsAreArguments` | include/qf/core/mpsc_queue.hpp:26-49 | what is claimed is what the pushes were called with, in the order of the claims, through any number of retries |
| `MpscQueue.ClaimsAreLockFree` | include/qf/core/mpsc_queue.hpp:27-48 | each failed claim of a producer is paid for by a claim of another, because a failure reloads the head |
| `MpscQueue.PushAlone` | include/qf/core/mpsc_queue.hpp:28-46 | a producer left alone with no other claim in flight pushes its item if there is room and is refused otherwise |
| `MpscQueue.PushRefusedExactly` | include/qf/core/mpsc_queue.hpp:27-33 | a push is refused if and only if a whole number of laps lies between the tail and the position after the one it loaded |
| `MpscQueue.PushRefusedWithinLap` | include/qf/core/mpsc_queue.hpp:27-33 | for a push not lapped since its load: refused if and only if the ring is full and head unmoved, or the position it loaded is the last one popped |
| `MpscQueue.LapLosesItems` | include/qf/core/mpsc_queue.hpp:27-45 | a run with two producers on a ring of two slots after which the consumer finds the ring empty although two committed items were never popped |
| `MpscQueue.LapWithoutLoss` | include/qf/core/mpsc_queue.hpp:27-45 | the same claim on a full ring, continued so that every item arrives |
| `MpscQueue.RefusedWhenEmpty` | include/qf/core/mpsc_queue.hpp:27-33 | a run on two slots after which a push is refused on an empty ring |
| `SpscQueue.StepInv` | include/qf/core/spsc_queue.hpp:23-55 | every step of the producer and the consumer keeps the ring invariant, with no condition |
| `SpscQueue.RunInv` | include/qf/core/spsc_queue.hpp:23-55 | the invariant holds after every run |
| `SpscQueue.QueueSafe` | include/qf/core/spsc_queue.hpp:23-55 | in every interleaving the popped items are a prefix of the pushed ones, the rest lies in the ring in order, and at most capacity - 1 are held |
| `SpscQueue.PushFailsIffFull` | include/qf/core/spsc_queue.hpp:23-28 | a push fails if and only if capacity - 1 items are held when the tail is loaded |
| `SpscQueue.PopFailsIffEmpty` | include/qf/core/spsc_queue.hpp:47-51 | a pop fails if and only if the ring is empty when the head is loaded |
| `SpscQueue.ConsumerReadsWritten` | include/qf/core/spsc_queue.hpp:52-53 | the slot about to be read holds the oldest item not yet popped |
| `SpscQueue.PushesItsArgument` | include/qf/core/spsc_queue.hpp:23-30 | what is stored is what try_push was called with, whatever the consumer does in between |
| `LinearAlgebra.ShermanMorrison` | src/signals/ml/linear_model.cpp:66-83 | subtracting the scaled outer product from P gives the inverse of the matrix with x x^T added |
| `LinearModel.GramSymmetric` | src/signals/ml/linear_model.cpp:66-83 | lambda I plus the sum of x x^T is symmetric |
| `LinearModel.GramNonNegative` | src/signals/ml/linear_model.cpp:14-18 | that matrix is positive semidefinite for lambda > 0 |
| `LinearModel.DivisorAtLeastOne` | src/signals/ml/linear_model.cpp:41-52 | x^T P x is never negative, so the divisor 1 + x^T P x is at least one |
| `LinearModel.TrainStep` | src/signals/ml/linear_model.cpp:47-83 | one rank-one update keeps P symmetric and exactly inverse to the matrix of all observations |
| `LinearModel.TrainWeights` | src/signals/ml/linear_model.cpp:54-61 | the weight update keeps the weights a solution of the ridge normal equations for the bias-corrected targets |
| `LinearModel.NormalEquations` | src/signals/ml/linear_model.cpp:58-61 | moving the weights by gain times error solves the equations with the new observation added |
| `LinearModel.TimesVector` | src/signals/ml/linear_model.cpp:31-39 | the nested loop computes P x |
| `LinearModel.VectorTimes` | src/signals/ml/linear_model.cpp:66-76 | the column-wise loop computes x^T P, which for a symmetric P is P x again |
| `LinearModel.Divide` | src/signals/ml/linear_model.cpp:47-52 | the gain is the vector whose multiple by the divisor is P x |
| `LinearModel.SubtractOuter` | src/signals/ml/linear_model.cpp:78-83 | the in-place double loop subtracts the outer product from every entry |
| `LinearModel.AddScaled` | src/signals/ml/linear_model.cpp:58-61 | the loop adds gain times error to the weights |
| `LinearModel.Regressor.constructor` | src/signals/ml/linear_model.cpp:8-19 | a new model has P inverse to lambda I and weights that fit the empty data |
| `LinearModel.Regressor.Predict` | src/signals/ml/linear_model.cpp:86-94 | prediction is the bias plus the inner product of weights and features |
| `LinearModel.Regressor.Train` | src/signals/ml/linear_model.cpp:21-84 | after any sequence of train calls P is the inverse of lambda I plus the sum of x x^T, and the weights solve the normal equations |
| `LinearModel.Regressor.Reset` | src/signals/ml/linear_model.cpp:101-111 | reset restores the state of a new model |
| `LinearModel.SameHistorySameInverse` | src/signals/ml/linear_model.cpp:21-84 | P is a function of the observations: two models with the same history hold the same P |
| `ZScore.CauchySchwarz` | src/signals/indicators/zscore.cpp:40-51 | the square of a sum is at most the count times the sum of squares |
| `ZScore.ShiftedCauchy` | src/signals/indicators/zscore.cpp:40-51 | the same bound for deviations from any point |
| `ZScore.AddKeeps` | src/signals/indicators/zscore.cpp:17-20 | the Welford addition keeps mean and m2 the mean and squared deviations of the values seen |
| `ZScore.SwapKeeps` | src/signals/indicators/zscore.cpp:27-34 | the combined swap formula gives mean and m2 of the window with its oldest value replaced |
| `ZScore.NewestBounded` | src/signals/indicators/zscore.cpp:40-51 | count * (value - mean)^2 <= (count - 1) * m2 for the newest value |
| `ZScore.BufferedWrite` | src/signals/indicators/zscore.cpp:13-25 | writing at the head slot of the circular buffer keeps every value still in the window |
| `ZScore.RecentStep` | src/signals/indicators/zscore.cpp:11-25 | one more value extends a growing window or shifts a full one |
| `ZScore.GrowTracks` | src/signals/indicators/zscore.cpp:11-20 | the growing branch keeps buffer, head, count and accumulators in step with the history |
| `ZScore.FullTracks` | src/signals/indicators/zscore.cpp:21-34 | the full branch does so too, with the oldest value replaced |
| `ZScore.OldestAtHead` | src/signals/indicators/zscore.cpp:23 | in a full window the head slot holds the oldest value |
| `ZScore.AddValue` | src/signals/indicators/zscore.cpp:17-20 | the growing branch summarises the extended window |
| `ZScore.SwapValue` | src/signals/indicators/zscore.cpp:27-37 | the full branch summarises the shifted window; the negative guard never changes m2 |
| `ZScore.MakeScore` | src/signals/indicators/zscore.cpp:40-51 | the score is zero for fewer than two values or no spread, else the deviation divided by the root of the variance, and its square is at most count - 1 |
| `ZScore.Indicator.Update` | src/signals/indicators/zscore.cpp:10-54 | after any inputs mean and m2 are those of the last min(n, window) values, and the score returned and stored is theirs and obeys its bound |
| `Accounting.ConsumeLots` | src/strategy/position/pnl_calculator.cpp:14-30 | the lot loop removes exactly the oldest min(quantity, open) units and books entry price minus fill price of each |
| `Accounting.BuyPairs` | src/strategy/position/pnl_calculator.cpp:10-34 | a buy pairs its units with the oldest unpaired sells and leaves the rest open |
| `Accounting.BuyGain` | src/strategy/position/pnl_calculator.cpp:18-22 | the gain booked by a buy is the growth of the unit-by-unit paired gain |
| `Accounting.BuyAgrees` | src/strategy/position/pnl_calculator.cpp:10-34 | a buy keeps lots and realized gain equal to pairing the j-th unit bought with the j-th unit sold |
| `Accounting.SellAgrees` | src/strategy/position/pnl_calculator.cpp:35-60 | a sell does the same with the queues exchanged |
| `Accounting.FillTracks` | src/strategy/position/pnl_calculator.cpp:5-61 | one more fill keeps the state equal to the pairing of all fills |
| `Accounting.UnitTotals` | src/strategy/position/position_tracker.cpp:5-13 | unit counts and unit prices total to the position and the cash flow |
| `Accounting.OneSidedAndNet` | src/strategy/position/pnl_calculator.cpp:5-61 | long and short lots are never both open, and open lots net to the position |
| `Accounting.InterleavingIrrelevant` | src/strategy/position/pnl_calculator.cpp:5-61 | realized gain and open units depend only on the bought and the sold units in order, not on how they interleave |
| `Accounting.OpenGain` | src/strategy/position/pnl_calculator.cpp:65-78 | the marking loops add up the gain of all open lots |
| `Accounting.TotalIsCashPlusPosition` | src/strategy/position/pnl_calculator.cpp:63-79 | realized plus unrealized right after marking at m is cash flow plus m times position |
| `Accounting.PnLCalculator.OnFill` | src/strategy/position/pnl_calculator.cpp:5-61 | after every fill sequence each symbol's state is the unit pairing of its fills; other symbols and the last mark are untouched |
| `Accounting.PnLCalculator.MarkToMarket` | src/strategy/position/pnl_calculator.cpp:63-79 | marking makes realized plus unrealized equal cash flow plus m times position and changes no other symbol |
| `Accounting.PositionTracker.Update` | src/strategy/position/position_tracker.cpp:5-18 | each symbol's position is the signed sum of its fills |
| `Accounting.Portfolio.OnFill` | src/strategy/position/portfolio.cpp:5-16 | tracker, fill record and calculator have always seen the same fills |
| `Accounting.Portfolio.MarkToMarket` | src/strategy/position/portfolio.cpp:18-20 | the identity of total gain, cash and the tracked position right after marking |
| `Accounting.Portfolio.ViewsAgree` | src/strategy/position/portfolio.cpp:5-16 | open lots, tracked position and recorded fills of a symbol agree |
| `SimBook.SimOrderBook.Add` | src/simulator/sim_order_book.cpp:7-14 | adds unless the id is live; the id list names every live order once |
| `SimBook.SimOrderBook.Cancel` | src/simulator/sim_order_book.cpp:16-25 | removes and returns the order, or returns nothing; the id list stays exact |
| `SimBook.SimOrderBook.Execute` | src/simulator/sim_order_book.cpp:27-42 | reduces the order, removing it at or beyond its remaining quantity; the id list stays exact |
| `SimBook.SimOrderBook.Replace` | src/simulator/sim_order_book.cpp:44-52 | sets price and quantity of a live order |
| `SimBook.SimOrderBook.RebuildIds` | src/simulator/sim_order_book.cpp:134-139 | lists every live id exactly once, in any hash order |
| `SimBook.SimOrderBook.BestBidOrder` | src/simulator/sim_order_book.cpp:100-112 | returns a bid of the highest price, or nothing if there is no bid |
| `SimBook.SimOrderBook.BestAskOrder` | src/simulator/sim_order_book.cpp:114-126 | returns an ask of the lowest price, or nothing if there is no ask |
| `MatchingEngine.CrossProgress` | src/simulator/sim_matching_engine.cpp:22-36 | each match takes the same volume from demand and supply around its price and never more elsewhere |
| `MatchingEngine.CrossConserved` | src/simulator/sim_matching_engine.cpp:22-36 | each match takes from its two orders exactly the traded quantity and changes no other order |
| `MatchingEngine.CrossShrinks` | src/simulator/sim_matching_engine.cpp:22-36 | each match removes at least one order, zero quantities included, so the loop ends |
| `MatchingEngine.PairInReach` | src/simulator/sim_matching_engine.cpp:12-20 | when two orders meet, everything ahead of them in price has traded and left at least their quantities on the other side |
| `MatchingEngine.AllocatedOnTheWay` | src/simulator/sim_matching_engine.cpp:11-37 | price priority at every moment: from every price on, the volume has taken all there is or all of itself |
| `MatchingEngine.UncrossedEmpties` | src/simulator/sim_matching_engine.cpp:20 | in an uncrossed book no price has both demand and supply |
| `MatchingEngine.VolumeClears` | src/simulator/sim_matching_engine.cpp:8-40 | once nothing crosses, the traded volume is the clearing volume of the original book |
| `MatchingEngine.TryMatch` | src/simulator/sim_matching_engine.cpp:8-40 | terminates on every book; afterwards bids are below asks, the volume is the maximum over prices of min(demand, supply) and lies with the best prices, every order lost exactly what it traded and none went unnamed, and every trade is within both limits and names orders in reach |
| `MatchingEngine.ClearingVolumeUnique` | src/simulator/sim_matching_engine.cpp:8-40 | the clearing volume is unique, so the traded volume does not depend on hash order |
| `Allocation.LevelLoss` | src/simulator/sim_matching_engine.cpp:11-37 | a price level loses quantity if and only if the better prices of its side demand less than the other side offers it |
| `Allocation.LostReachable` | src/simulator/sim_matching_engine.cpp:11-37 | in every run only reachable orders lose anything |
| `Allocation.LevelTradesExactly` | src/simulator/sim_matching_engine.cpp:11-37 | in every run alike, some order at a price and side trades if and only if one there is reachable |
| `Allocation.FavouringRun` | src/simulator/sim_order_book.cpp:100-126 | there is a way of breaking ties that prefers any given order among its equals, to the end of the matching |
| `Allocation.MayTradeExactly` | src/simulator/sim_matching_engine.cpp:8-40 | some way of breaking ties trades an order if and only if the order is reachable |
| `Allocation.ForeignTradesExactly` | src/simulator/sim_matching_engine.cpp:8-40 | some way of breaking ties trades an order of another symbol if and only if such an order is reachable in the shared book |
| `Allocation.TradesAreReachable` | src/simulator/sim_matching_engine.cpp:22-32 | every trade with a quantity names two reachable orders, and hence orders of its symbol if only those are reachable |
| `Allocation.CrossSymbolTrade` | src/simulator/sim_matching_engine.cpp:11-37 | a book on which the engine trades a bid for one symbol against an ask for another |
| `Allocation.TradeForNothing` | src/simulator/sim_matching_engine.cpp:23-32 | a book with an order for nothing on which the engine reports a trade for nothing with an order that is not reachable |
| `OrderBook.AddKeeps` | src/core/order_book.cpp:144-154 | adding an order keeps levels and counts right if and only if the 32-bit count has room, and totals too if and only if the total has room as well |
| `OrderBook.OverflowWraps` | include/qf/core/price_level.hpp:15-18 | a level of 2^32 - 1 units that takes two more reports 1, while level and count stay right |
| `OrderBook.RemoveKeeps` | src/core/order_book.cpp:156-172 | removing an order keeps levels and counts right, and exact totals exact: the saturation then never cuts anything off |
| `OrderBook.ExecuteKeeps` | src/core/order_book.cpp:29-64 | a partial or full execution keeps levels and counts right, and exact totals exact; the level it updates exists |
| `OrderBook.First` | src/core/order_book.cpp:90-98 | the first key of a side's sorted map |
| `OrderBook.FirstIsBestLive` | src/core/order_book.cpp:90-98 | best bid and best ask are the highest and lowest price among the live orders, or absent if there is none, whatever the totals did |
| `OrderBook.Book.TopShows` | src/core/order_book.cpp:7-9 | the snapshot returned by every operation on a sound book shows the highest live bid and the lowest live ask |
| `OrderBook.Book.AddOrder` | src/core/order_book.cpp:11-18 | refuses a live id, else stores the order; levels and counts stay right if and only if the count has room, exact totals exact if and only if the total has room too |
| `OrderBook.Book.CancelOrder` | src/core/order_book.cpp:20-27 | in any state removes exactly that order; right levels stay right, on wrapped totals too |
| `OrderBook.Book.ExecuteOrder` | src/core/order_book.cpp:29-64 | in any state: refuses zero, excess and unknown executions; else reduces or removes the order, except that an order whose level is missing stays with nothing left; right levels stay right and none is missing, on wrapped totals too |
| `OrderBook.Book.ReplaceOrder` | src/core/order_book.cpp:66-88 | moves the order to its new level; right if and only if there is room there without the order itself |
| `OrderBook.Book.Depth` | src/core/order_book.cpp:107-132 | returns min(n, levels) levels, best first, strictly sorted, with none better left out |
| `BookManager.RoutedExactly` | src/core/book_manager.cpp:6-66 | routing of every live order stays right if and only if the message is not an Add of an id live under another symbol |
| `BookManager.ApplyOrder` | src/core/book_manager.cpp:6-66 | what the routing index leads to for an id changes exactly as that single order should |
| `BookManager.ApplyIsFlat` | src/core/book_manager.cpp:6-66 | one message does to the routed books what it does to one flat map, stale routing entries included |
| `BookManager.ManagerIsFlat` | src/core/book_manager.cpp:6-66 | after every unambiguous message stream the union of all books is the flat map |
| `BookManager.AmbiguousAddOrphans` | src/core/book_manager.cpp:12-16 | four messages that leave a live order no cancel can reach |
| `BookManager.Manager.GetOrCreate` | src/core/book_manager.cpp:104-112 | finds the symbol's book or adds an empty one, and changes nothing else |
| `BookManager.Manager.OnAdd` | src/core/book_manager.cpp:12-16 | overwrites the route, adds to the symbol's book, keeps all other books |
| `BookManager.Manager.OnRouted` | src/core/book_manager.cpp:18-56 | cancel, execute and replace act on the routed book only; only a cancel drops the route |
| `BookManager.Manager.Process` | src/core/book_manager.cpp:6-66 | in any state the objects follow the specification, except for a fill of an order whose level is missing; right levels and counts stay right if and only if the touched count has room, and then no level is missing; exact totals stay exact if and only if the total has room too; the update shows the best live bid and ask of the symbol, with the live quantity there if totals are exact |
| `BookManager.UpdatePublishes` | src/core/book_manager.cpp:114-137 | the update of a sound book names its symbol, the highest live bid and the lowest live ask, each with count one and, if totals are exact, the live quantity at that price, or nothing on a side without orders |
| `BookManager.ShortStreamsHaveRoom` | include/qf/core/price_level.hpp:15-18 | no 32-bit count wraps in a stream of fewer than 2^32 messages |
| `OrderGenerator.StepAgrees` | src/simulator/order_generator.cpp:58-61 | from equal books, handler and simulator agree after a generated message if and only if it is not a Trade |
| `OrderGenerator.StepBehind` | src/simulator/order_generator.cpp:22-164 | the handler always knows every live order of the simulator with no less remaining; what only it still has stays with it for ever, and every Trade adds one such order |
| `OrderGenerator.ReplayStep` | src/simulator/order_generator.cpp:22-164 | over a stream: equal books while there was no Trade, an order too many at the handler ever after |
| `OrderGenerator.Generator.GenerateAdd` | src/simulator/order_generator.cpp:76-96 | a fresh id is used up even when the message does not fit; sent and applied only if encoded |
| `OrderGenerator.Generator.GenerateOnLive` | src/simulator/order_generator.cpp:98-164 | the message is the drawn cancel, execute or replace of the picked live order, sent and applied exactly when the buffer holds it |
| `OrderGenerator.Generator.GenerateTrade` | src/simulator/order_generator.cpp:37-66 | a Trade carries the smaller remaining quantity at the ask's price, both orders are executed locally exactly when it is sent, and it is proper if and only if the orders have one symbol and cross |
| `OrderGenerator.Generator.Next` | src/simulator/order_generator.cpp:22-74 | each draw leads to its kind of message, with an Add instead for an empty book or a missing side of a Trade; every call applies exactly what it sent and keeps ids fresh, live orders positive and the comparison of replayed stream and book |
| `OrderGenerator.ReplicaAgrees` | src/simulator/order_generator.cpp:22-164 | a manager fed a generated stream holds exactly the simulator's live orders if and only if the stream has no Trade, and the id list names each live order once |
| `OrderGenerator.TradeDiverges` | src/simulator/order_generator.cpp:37-66 | three generated messages after which the simulator has no order and the handler has some |
| `Pipeline.ParserStage` | src/handler/parser_stage.cpp:19-45 | the parser loop yields exactly the valid messages of the datagrams, in order |
| `Pipeline.DecodeViews` | src/handler/parser_stage.cpp:27-45 | the inner loop keeps exactly the valid messages of a datagram |
| `Pipeline.BookStage` | src/handler/book_stage.cpp:9-22 | the book loop leaves the manager in the state the message stream calls for if no 32-bit count wraps; totals stay exact if none wraps either |
| `Pipeline.Transmit` | src/handler/parser_stage.cpp:19-45 | what goes through encode, batch, parse, validate and decode comes out unchanged |
| `Pipeline.Replicate` | src/simulator/market_simulator.cpp:91-105 | from simulator to rebuilt books through every byte: after any generated stream of fewer than 2^32 messages the handler holds exactly the simulator's live orders if and only if there was no Trade |
| `Wire.DecodeEncode` | include/qf/protocol/messages.hpp:20-25 | a value that fits its width survives its little-endian bytes |
| `Wire.UnpackPack` | include/qf/protocol/encoder.hpp:46-58 | packed fields are read back, whatever follows them |
| `Wire.HeaderRoundTrip` | include/qf/protocol/encoder.hpp:52-58 | the header read back has the message's length, type and timestamp |
| `Wire.PayloadRoundTrip` | include/qf/protocol/encoder.hpp:46-50 | the payload read back is the message |
| `Wire.MessageRoundTrip` | include/qf/protocol/encoder.hpp:24-98 | every encodable message has its wire size, passes validation and decodes to itself |
| `Wire.EncodeByte` | include/qf/protocol/messages.hpp:20-25 | byte i of a field is the i-th digit of the value to the base 256 |
| `Wire.HeaderLayout` | include/qf/protocol/messages.hpp:20-33 | the header of every message byte by byte: length, type letter, timestamp |
| `Wire.PayloadLayout` | include/qf/protocol/messages.hpp:35-79 | the payload of every message byte by byte, as the packed structs have it |
| `Wire.ValidatesExactly` | src/protocol/validator.cpp:26-52 | the validator accepts exactly the buffers with a known type, its size in the length field and all of it there; it reports an unknown type exactly for the other letters |
| `Wire.EncodeInto` | include/qf/protocol/encoder.hpp:24-44 | writes the whole message and nothing beyond it, or nothing at all if the buffer is too small |
| `Wire.FrameParse` | include/qf/protocol/frame_parser.hpp:34-58 | the offset loop finds the views of the recursive walk |
| `Wire.WalkFlatten` | include/qf/protocol/frame_parser.hpp:34-58 | concatenated messages are split back into exactly those messages |
| `Wire.WireFramed` | include/qf/protocol/frame_parser.hpp:39-54 | an encoded message's length field is its own size |
| `Batcher.DatagramCarries` | src/protocol/frame_parser.cpp:6-27 | a datagram parses to its sequence number, its true count and length, and its messages |
| `Batcher.DatagramLayout` | include/qf/protocol/batcher.hpp:12-18 | the batch header byte by byte: number, count, total length, then the messages |
| `Batcher.ShortDatagrams` | src/protocol/frame_parser.cpp:6-14 | nothing at all is an empty batch, less than a header is refused |
| `Batcher.Batching.Append` | src/protocol/batcher.cpp:61-64 | copies the message behind the batch and counts it |
| `Batcher.Batching.Add` | src/protocol/batcher.cpp:10-23 | accepts exactly the non-empty messages that fit the current batch |
| `Batcher.Batching.WriteHeader` | src/protocol/batcher.cpp:67-73 | the buffer becomes the numbered datagram of the pending messages |
| `Batcher.Batching.Flush` | src/protocol/batcher.cpp:39-48 | sends the pending batch once, or nothing if it is empty |
| `Batcher.Batching.AddAndFlush` | src/protocol/batcher.cpp:50-65 | accepts exactly what fits an empty datagram; flushes first only on overflow; loses nothing |
| `Batcher.DeliveredIsSent` | src/protocol/frame_parser.cpp:6-27 | the views of all datagrams are the messages sent, in order, and each datagram is right |
| `Batcher.WireAllProperties` | include/qf/protocol/encoder.hpp:65-98 | a list of encoded messages is framed and decodes to the list |
| `Batcher.SendAll` | src/protocol/batcher.cpp:25-73 | any list of messages sent through add_and_flush and a final flush is received unchanged; datagrams are within the limit, count what they carry and are numbered 0, 1, 2, ...; for any limit, exactly the messages that fit arrive |
| `FixMessage.SerializeMessage` | include/qf/protocol/fix/fix_message.hpp:159-196 | the loops produce header, body without managed tags, and the checksum of all bytes before it |
| `FixMessage.SerializeIsComplete` | include/qf/protocol/fix/fix_message.hpp:159-196 | the text is the field-by-field text of header, body and trailer |
| `FixMessage.ParseMessage` | include/qf/protocol/fix/fix_message.hpp:203-237 | the scanning loop reads the fields of the recursive parse, or fails on a bad tag or no field |
| `FixMessage.ParseSerialize` | include/qf/protocol/fix/fix_message.hpp:159-237 | parsing a serialized message gives its body between regenerated header and trailer |
| `FixMessage.BadTagSpoils` | include/qf/protocol/fix/fix_message.hpp:225-231 | a tag that is not a number, after any good fields, makes the parse fail |
| `FixMessage.LastFieldOpen` | include/qf/protocol/fix/fix_message.hpp:217-223 | a last field without separator is read |
| `FixText.ParseIntReads` | include/qf/protocol/fix/fix_message.hpp:107-112 | blanks and a sign are read over, the digits up to the first other character give the value, and it must fit |
| `FixMessage.CompleteIsValid` | include/qf/protocol/fix/fix_message.hpp:247-284 | a serialized message passes checksum and body-length validation |
| `FixMessage.TamperedCheckSum` | include/qf/protocol/fix/fix_message.hpp:247-268 | a received message with one body value changed passes the check sum if and only if old and new value have the same byte sum modulo 256 |
| `FixMessage.TamperedBodyLength` | include/qf/protocol/fix/fix_message.hpp:271-284 | it passes the body length check if and only if old and new value are equally long |
| `FixMessage.CheckSumReads` | include/qf/protocol/fix/fix_message.hpp:176-187 | the check sum is the sum of the bytes modulo 256 in three digits |
| `FixMessage.BodyIsTheRest` | include/qf/protocol/fix/fix_message.hpp:160-166 | the body is exactly the fields other than begin string, body length and check sum |
| `FixMessage.SerializeShape` | include/qf/protocol/fix/fix_message.hpp:159-196 | prefix, decimal body length, body of that length, and a trailer of seven bytes |
| `FixMessage.ExtractExact` | include/qf/protocol/fix/fix_message.hpp:303-328 | on any buffer that agrees with a message the extracted length is that message's, once complete, and zero before |
| `FixGateway.Gateway.OnTcpData` | include/qf/protocol/fix/fix_gateway.hpp:298-318 | one read delivers what draining old buffer and new bytes yields and keeps the rest, up to the limit |
| `FixGateway.DrainStream` | include/qf/protocol/fix/fix_gateway.hpp:302-312 | draining any prefix of a message stream yields exactly the messages it completes and leaves a proper prefix of the next |
| `FixGateway.ReadStep` | include/qf/protocol/fix/fix_gateway.hpp:298-318 | one more read of any size delivers exactly the messages it completes and buffers the rest up to the limit |
| `FixGateway.Reassembly` | include/qf/protocol/fix/fix_gateway.hpp:298-318 | for every message list and every split into reads, after every read exactly the completed messages are out, in order, with a proper prefix buffered, if and only if no read leaves more than 1 MiB behind |
| `FixGateway.WholeStream` | include/qf/protocol/fix/fix_gateway.hpp:298-318 | once everything has arrived and nothing was cut, every message is delivered and valid and the buffer is empty |
| `FixGateway.CutOffExact` | include/qf/protocol/fix/fix_gateway.hpp:314-317 | from any state in step and for any next read, the gateway stays in step if and only if at most 1 MiB of an incomplete message is left over |
| `FixGateway.ShortMessagesFit` | include/qf/protocol/fix/fix_gateway.hpp:314-317 | messages of up to 1 MiB and one byte never leave too much behind, however they are split |
| `FixGateway.OversizedLost` | include/qf/protocol/fix/fix_gateway.hpp:314-317 | a message and a split of it into two reads after which it is never delivered |
| `FixGateway.AfterCut` | include/qf/protocol/fix/fix_gateway.hpp:298-318 | a gateway that has just cut goes on exactly as a new one would on the bytes that follow |
| `FixGateway.MisplacedSilent` | include/qf/protocol/fix/fix_gateway.hpp:302-317 | bytes that cannot begin a message, in any reads, are kept and deliver nothing up to 1 MiB; the read that passes it throws them away |
| `FixGateway.CutTakesTheNext` | include/qf/protocol/fix/fix_gateway.hpp:302-317 | the rest of a cut message takes the next whole message with it |
| `FixGateway.ResumesAtBoundary` | include/qf/protocol/fix/fix_gateway.hpp:298-318 | from a read that begins at a message on, all later messages are delivered, under the condition of a new connection |
| `FixAdmin.GetSetTag` | include/qf/protocol/fix/fix_message.hpp:48-55 | after set_tag the tag has the new value and every other tag its old one |
| `FixAdmin.WriteTag` | include/qf/protocol/fix/fix_message.hpp:48-55 | the loop overwrites the first field with the tag or appends one |
| `FixAdmin.StampTags` | include/qf/protocol/fix/fix_session.hpp:404-408 | stamping sets comp ids, number and time and no other tag |
| `FixAdmin.GetTagComplete` | include/qf/protocol/fix/fix_message.hpp:159-196 | the regenerated header and trailer disturb no other tag |
| `FixAdmin.NumberReadsBack` | include/qf/protocol/fix/fix_message.hpp:129-132 | a 32-bit number printed as a signed int reads back as itself, from 2^31 on too |
| `FixAdmin.PeerReads` | include/qf/protocol/fix/fix_session.hpp:404-414 | what one session sends, the other parses; it is addressed to it and carries the number and kind it was sent with |
| `FixAdmin.PeerReadsGapFill` | include/qf/protocol/fix/fix_session.hpp:475-501 | a gap fill reply reads back as a gap fill with its two numbers |
| `FixSession.EachNumberOnce` | include/qf/protocol/fix/fix_session.hpp:227-261 | every inbound number below the expected one is accepted, requested or gap-filled exactly once, and no other is |
| `FixSession.AcceptedIncreasing` | include/qf/protocol/fix/fix_session.hpp:254-261 | accepted numbers strictly increase |
| `FixSession.RequestedIsNeverAccepted` | include/qf/protocol/fix/fix_session.hpp:248-257 | a number requested for resend or gap-filled is never accepted afterwards |
| `FixSession.NumbersCount` | include/qf/protocol/fix/fix_session.hpp:404-414 | the next outbound number is one more than the count of numbered messages, so gap-fill replies consume none |
| `FixSession.NumbersAccountedFor` | include/qf/protocol/fix/fix_session.hpp:227-276 | at any moment of any run: each number accounted for once, each gap requested once with its exact range, delivered numbers increasing, outbound numbers consecutive |
| `FixSession.Session.SendLocked` | include/qf/protocol/fix/fix_session.hpp:404-414 | stamps the current outbound number and advances it by one; `FixAdmin.Render` gives the fields that go out |
| `FixSession.Session.SendLogon` | include/qf/protocol/fix/fix_session.hpp:117-135 | sends a logon; a reset starts both numberings over |
| `FixSession.Session.SendLogout` | include/qf/protocol/fix/fix_session.hpp:137-147 | sends a logout and changes no inbound number |
| `FixSession.Session.Send` | include/qf/protocol/fix/fix_session.hpp:149-219 | all other outbound messages take the next number; a test request is remembered |
| `FixSession.Session.Reset` | include/qf/protocol/fix/fix_session.hpp:347-353 | starts both numberings over, from any state |
| `FixSession.Session.OnDisconnect` | include/qf/protocol/fix/fix_session.hpp:356-359 | only the state changes |
| `FixSession.Session.HandleSequenceReset` | include/qf/protocol/fix/fix_session.hpp:503-516 | a gap fill moves the expected number forward only and accounts for the skipped range; a hard reset starts a new count |
| `FixSession.Session.AcceptNumber` | include/qf/protocol/fix/fix_session.hpp:248-261 | a jump requests exactly the missing range, once, before the number is accepted |
| `FixSession.Session.Deliver` | include/qf/protocol/fix/fix_session.hpp:271-274 | an application message is handed on with a number above all earlier ones |
| `FixSession.Session.HandleLogon` | include/qf/protocol/fix/fix_session.hpp:418-441 | answers a logon only when disconnected; the reset flag changes nothing |
| `FixSession.Session.SendReplay` | include/qf/protocol/fix/fix_session.hpp:475-501 | a resend request is answered by one gap fill with the requested number, consuming none; `FixExchange.ReplayFills` says what it reaches |
| `FixSession.Session.Dispatch` | include/qf/protocol/fix/fix_session.hpp:263-275 | state change, reply, delivery, pending test request and heartbeat interval by message type |
| `FixSession.Session.OnAccepted` | include/qf/protocol/fix/fix_session.hpp:248-275 | everything an accepted message does; the bookkeeping survives if and only if the number is not 2^32 - 1 |
| `FixSession.Session.OnMessage` | include/qf/protocol/fix/fix_session.hpp:227-276 | foreign messages and duplicates change nothing; what any other message does is stated for every state; all session invariants survive if and only if the message does not accept number 2^32 - 1 |
| `FixSession.WrappedNumber` | include/qf/protocol/fix/fix_session.hpp:259-261 | a fresh session delivers the same message numbered 2^32 - 1 twice |
| `FixSession.PeerKeepsUp` | include/qf/protocol/fix/fix_session.hpp:227-261 | a counterparty that reads all numbered messages in order always expects the next number and never requests a resend |
| `FixExchange.ReplayFills` | include/qf/protocol/fix/fix_session.hpp:475-516 | a side that asks for first to last and hears the reply expects last + 1; without an end, or with one from 2^31 on, it expects the number that will be sent next |
| `FixExchange.ResetReaches` | include/qf/protocol/fix/fix_session.hpp:503-516 | a sequence reset sets the number the other side expects; as a gap fill it only moves it forward |
| `FixAdmin.HeardHeader` | include/qf/protocol/fix/fix_session.hpp:227-242 | a message is taken by the session with the mirrored comp ids and by no other, with the kind and number it was sent with |
| `FixAdmin.ContentTags` | include/qf/protocol/fix/fix_session.hpp:117-219 | every administrative message tag by tag, in the numbers and letters of FIX 4.4 |
| `FixAdmin.HeaderTags` | include/qf/protocol/fix/fix_session.hpp:404-408 | comp ids, number and time stand under tags 49, 56, 34 and 52 |
| `FixAdmin.KindLetters` | include/qf/protocol/fix/fix_session.hpp:263-275 | the first letter of tag 35 decides the kind; anything else is for the application |
| `FixAdmin.Unnumbered` | include/qf/protocol/fix/fix_message.hpp:129-132 | a message without a readable number counts as number 0 |
| `FixExchange.LogonExchange` | include/qf/protocol/fix/fix_session.hpp:418-441 | a logon and its answer leave both sides active, in step, with the interval of the one who logged on |
| `FixExchange.LogoutExchange` | include/qf/protocol/fix/fix_session.hpp:443-456 | a logout is answered with the same text and leaves both sides disconnected, in step |
| `FixExchange.TestRequestExchange` | include/qf/protocol/fix/fix_session.hpp:458-473 | a test request is answered by a heartbeat with its id, which settles it |
| `FixExchange.PlainHeartbeat` | include/qf/protocol/fix/fix_session.hpp:458-464 | a heartbeat that answers nothing changes nothing but the count |
| `FixExchange.ApplicationExchange` | include/qf/protocol/fix/fix_session.hpp:271-274 | an application message reaches the other side's application once and is not answered |
| `PredictionCache.InFrontIsSince` | src/signals/ml/prediction_cache.cpp:14-50 | the keys in front of a key in recency order are the distinct other keys used since its last use |
| `PredictionCache.TakeIsRemembered` | src/signals/ml/prediction_cache.cpp:25-30 | the first max_size keys by recency are exactly those with fewer than max_size other keys used since |
| `PredictionCache.UsedIsTake` | src/signals/ml/prediction_cache.cpp:18-34 | moving to the front, or evicting the last and inserting, maintains that bounded recency list |
| `PredictionCache.SameKeyExactly` | src/signals/ml/prediction_cache.cpp:10-12 | two calls share an entry if and only if they are for one symbol within one bucket of time |
| `PredictionCache.FollowsGet` | src/signals/ml/prediction_cache.cpp:37-44 | a key is in the map if and only if the trace says it is remembered, with the last value put; a miss changes nothing |
| `PredictionCache.FollowsHit` | src/signals/ml/prediction_cache.cpp:46-49 | a hit counts as a use |
| `PredictionCache.FollowsPut` | src/signals/ml/prediction_cache.cpp:14-35 | a put counts as a use and replaces the value of its key only |
| `PredictionCache.ListSize` | src/signals/ml/prediction_cache.cpp:26 | list and map have the same size |
| `PredictionCache.Cache.MakeRoom` | src/signals/ml/prediction_cache.cpp:25-30 | evicts exactly the least recent entry, and only when full |
| `PredictionCache.Cache.Insert` | src/signals/ml/prediction_cache.cpp:25-34 | puts a new entry in front within the bound |
| `PredictionCache.Cache.Refresh` | src/signals/ml/prediction_cache.cpp:18-23 | changes one value and moves its node to the front |
| `PredictionCache.Cache.PutPrediction` | src/signals/ml/prediction_cache.cpp:14-35 | keeps list and map in bijection, within max_size, and in step with the calls made |
| `PredictionCache.Cache.GetPrediction` | src/signals/ml/prediction_cache.cpp:37-50 | returns v if and only if v is the last value put for the symbol within that bucket of time and fewer than max_size other entries were put or hit since its last use; counts hits and misses |
| `Oms.Journal.Append` | src/oms/state_machine/order_journal.cpp:9-22 | log numbers are 1, 2, 3, ... and the index follows the log |
| `Oms.PositionsGiveHistory` | src/oms/state_machine/order_journal.cpp:17-35 | looking up the indexed positions gives the log filtered by order |
| `Oms.Journal.GetHistory` | src/oms/state_machine/order_journal.cpp:24-36 | returns exactly the log filtered by order id |
| `Oms.Journal.GetRecent` | src/oms/state_machine/order_journal.cpp:38-45 | returns the last min(n, size) entries |
| `Oms.StepsAllowed` | include/qf/oms/state_machine/state_transitions.hpp:23-39 | every journalled step of an order is in the table and starts where the last one ended |
| `Oms.NothingAfterTerminal` | include/qf/oms/state_machine/state_transitions.hpp:23-39 | nothing is journalled for an order after a terminal state |
| `Oms.TablesDiffer` | include/qf/oms/state_machine/order_states.hpp:10-37 | the second table allows all the first does and beyond it exactly New to Cancelled, New to Rejected and Sent to Cancelled |
| `Oms.Journalled` | src/oms/state_machine/state_transitions.cpp:13-45 | a journalled change of one order keeps all orders consistent with the log |
| `Oms.OrderManager.ApplyTransition` | src/oms/order_manager.cpp:113-124 | changes state and journals it exactly when the table allows it |
| `Oms.OrderManager.Submit` | src/oms/order_manager.cpp:13-51 | refuses zero quantity without using an id; else stores a Sent order under a fresh id |
| `Oms.OrderManager.Move` | src/oms/order_manager.cpp:84-91 | looks the order up and succeeds exactly when the table allows the step, changing only the state and the journal |
| `Oms.OrderManager.OnAck` | src/oms/order_manager.cpp:53-64 | succeeds exactly on a Sent order, sets the time of acknowledgement and journals the step |
| `Oms.OrderManager.Cancel` | src/oms/order_manager.cpp:84-91 | succeeds exactly on Acked and PartialFill orders |
| `Oms.OrderManager.OnReject` | src/oms/order_manager.cpp:93-100 | succeeds exactly on Sent orders and journals the given reason |
| `Oms.OrderManager.OnFill` | src/oms/order_manager.cpp:66-82 | the filled quantity always grows modulo 2^32; an Acked or PartialFill order accepts every report and is Filled exactly when full; Filled orders stay full if and only if a report does not wrap below the quantity; an order is left full but not Filled if and only if it was Sent, Cancelled or Rejected |
| `Oms.OrderRunSafety` | src/oms/order_manager.cpp:13-124 | after every call sequence an order's history is a connected path of allowed steps from New to its state with nothing after a terminal one, a partly filled order is not full, and log numbers are 1 to n |
| `Oms.FilledCountsReports` | src/oms/order_manager.cpp:66-82 | after every call sequence the filled quantity is the sum of all reports modulo 2^32, refused ones included, and only a refused report can leave an order full but not Filled |
| `Oms.WrappedFill` | src/oms/order_manager.cpp:72-81 | a call sequence that leaves a Filled order of 10 with 9 filled |
| `Oms.RefusedFillCounts` | src/oms/order_manager.cpp:66-91 | a call sequence that leaves an order Cancelled and full |

## Left out

- C++ weak memory ordering: the lock-free structures are proved under sequential consistency only.
- In-place form of the pool and queues: `acquire`, `release`, `try_push` and `try_pop` are transitions on state values, since a method body cannot show another thread's steps between its own.
- Batch push and pop, `size`, `empty` and `full` of the queues: loops over and readings of what is modelled.
- The `include/qf/core/ring_buffer.hpp` policies: they publish or free slots before the slot access, so the step-level FIFO claims do not carry over.
- Pipeline.Replicate: assumes that no datagram and no queue entry is lost or reordered; the stages of the live pipeline count and drop what a full queue refuses.
- Pipeline.BookStage: once a count has wrapped, at 2^32 live orders at one price, only the single messages are described, by `BookManager.Manager.Process`.
- OrderBook.Book.ExecuteOrder: in the source the full fill removes the order through an iterator into the map; aliasing of the order pointer is not modelled, and timestamps are dropped.
- LinearModel.Regressor.Train: exact reals, so no rounding and no drift of P; P is a sequence of rows rather than one flat array; `set_weights` is not modelled.
- ZScore.Indicator.Update: exact reals; the square root is any function that squares back. `reset` and window sizes below one are not modelled.
- Accounting.PnLCalculator.OnFill: exact integers instead of doubles; `average_price`, snapshots, totals over symbols and reset are left out.
- Accounting.PositionTracker.Update: positions are unbounded integers, not 64-bit.
- Wire.DecodeEncode: native byte order is taken to be little-endian. A side byte other than Buy or Sell decodes as Sell, as the books treat it.
- Validator functions other than `validate`, the timestamp check and the sequence tracker: single comparisons.
- Batcher.Batching.Flush: the callback form only; the form that returns a pointer into the buffer is the same code.
- FixMessage.ParseSerialize: for int tags and values without the separator byte, which is what the format itself demands.
- FixGateway.MisplacedSilent: a read after a cut that begins inside a message with the text of a begin string can make the gateway frame wrongly; what it then delivers is not described.
- FixSession.Session.SendLocked: an outbound message is recorded as kind, number and content; its fields are a function of these, the comp ids and the SendingTime text, which is a parameter.
- FIX heartbeat timing (`check_heartbeat`), callbacks that call back into the session, and its mutex.
- `remove_tag`, the typed getters of FIX messages, execution reports and order entry of the FIX gateway: field mapping only.
- PredictionCache.Cache.GetPrediction: max_size and bucket width at least one; a zero max_size reads the back of an empty list in the source. `clear` is not modelled.
- Oms.OrderManager.Submit: ids are unbounded; the branch for a refused New to Sent step cannot be taken.
- Journal files, locks and the throwing form of a transition.
- OrderGenerator.Generator.GenerateOnLive: price walks, symbol lookup and distributions are parameters; the lookup that cannot fail on a live id is not repeated.
- Allocation.MayTradeExactly: counts a trade by its quantity; which orders a trade for nothing can name is bounded by `MatchingEngine.TryMatch` but not characterised. Only books with orders for nothing have such trades.
- Price walks, regimes, news, participants, strategies, signals registry, event bus, risk limits, configuration, recording and display.
