# Trading system model

Dafny proofs about four parts of a trading system: its limit order book, its order scheduler with
provider queues and executors, its numeric cores, and the text commands it publishes.

`dafny verify dfyconfig.toml` checks everything.

## What is modelled

**The order book** is modelled three times. `PriceTime` is price-time priority on its own: two lists
of orders, one greedy walk, and a closed formula for what the walk takes from each resting order.
`Matching` is the code as written, on the contents of the two sorted maps, level by level, with the
order in which levels are emptied and erased. `OrderBook` is the class itself: maps of lists of order
objects and an index of iterators, all updated in place. `Refinement`, `AddOrder`, `CancelModify` and
`Pointers` connect the three; `Runs`, `AliveOrders`, `HollowLevels`, `CleanRuns`, `Locking` and
`Conservation` are about whole runs of public calls.

The code does not always come back from a call, and the model says exactly when.

* When one fill empties both best levels, only the bid level is erased
  (`Computing-Server/src/Orderbook/order_book.cpp:105-114`). The empty ask level stays. A later buy
  that reaches it, or the same sell if the next bid still crosses, makes the outer loop turn for ever.
* An order of quantity zero makes the inner loop turn for ever when it is matched (line 83).

`Snags` is this condition as something to look up before the call. The theorems hold for all orders
and all books between calls, whether they snag or not; an order in `Snags` is answered `NeverReturns`
where the original hangs. `HollowLevels` says exactly which ask levels are empty after a call,
`AliveOrders` which calls leave an order without a quantity, and `CleanRuns` which runs can never be
caught by either.

**The scheduler.** `Dispatch` is the interleaved system of ingress, scheduler and three executors, one
queue operation a step. `Scheduler` and `Executors` are the same loops as objects. Two policies do not do
what they say: the splitting policy pushes its last share one past the third provider
(`Order-Manager-Server/src/Scheduler/scheduler.cpp:67`), and the latency policy subtracts unsigned
sizes (line 100). Both are modelled as written, with the exact condition under which they do what is
meant.

**Numbers.** Correlation in one and two passes over exact reals with the square root as a parameter,
the rolling correlation built on it, the backtester's truncating ledger, and the one-pass drawdown with
the exact condition under which it is the largest fall.

**Text.** Publisher and subscriber of CREATE and INSERT commands, with stream extraction and `substr`
on unsigned lengths; the scheduler's order message; printed quantities.

Ids, prices and quantities are unbounded integers: the code only compares them and subtracts a smaller
from a larger one. Where it does more, the width is written out: the totals of `GetOrderInfos` and the
market maker's position wrap at 32 bits, queue sizes are subtracted modulo 2^64, and a signed counter
becomes an id modulo 2^64.

## Model

| member | source | states |
|---|---|---|
| `PriceTime.SweepIsWaterfall` | Computing-Server/src/Orderbook/order_book.cpp:75-116 | The greedy walk of an order along the opposite side equals a closed form: trade j is with the j-th order in priority and for exactly what the volume ahead leaves it; nobody beyond is owed anything; only the last order traded with may be left in part; the total is the smaller of the order's quantity and the crossing volume. |
| `PriceTime.PriorityRespected` | Computing-Server/src/Orderbook/order_book.cpp:62-116 | No order is owed a fill unless every order ahead of it is owed its whole quantity. |
| `PriceTime.InsertPosition` | Computing-Server/src/Orderbook/order_book.cpp:22-37 | A resting order goes behind everything at an equal or better price and ahead of everything worse, and the list stays ranked. |
| `PriceTime.DropRemovesOne` | Computing-Server/src/Orderbook/order_book.cpp:149-168 | Removal takes out the one order with that id and leaves all others in their order; an unknown id removes nothing. |
| `PriceTime.DropMembers` | Computing-Server/src/Orderbook/order_book.cpp:149-168 | With distinct ids, exactly the orders with another id remain, still distinct. |
| `Matching.SpinsMeansForever` | Computing-Server/src/Orderbook/order_book.cpp:62-116 | The loops are reported as spinning exactly when no number of turns ever reaches their exit; otherwise the settled book is where some number of turns arrives. |
| `Matching.FillFrontsShrinks` | Computing-Server/src/Orderbook/order_book.cpp:80-103 | A pass that trades moves a positive quantity off both sides alike, whether or not levels are emptied. |
| `Refinement.BuyWalk` | Computing-Server/src/Orderbook/order_book.cpp:56-116 | For every ladder of asks, the loops on an incoming buy spin exactly if it meets an empty ask level or an empty order before it is filled; otherwise trades, asks and remainder are those of the greedy walk and the book is uncrossed. |
| `Refinement.SellWalk` | Computing-Server/src/Orderbook/order_book.cpp:56-116 | For every ladder of bids, the loops on an incoming sell spin exactly if it meets an empty order, or is filled exactly at the end of a level while the next one still crosses; otherwise trades, bids and remainder are those of the greedy walk, and at most an empty level of its own stays behind. |
| `AddOrder.EnqueueIsInsert` | Computing-Server/src/Orderbook/order_book.cpp:22-37 | Indexing the sorted map by price and appending to that list is insertion in price-time order. |
| `AddOrder.AddIsPriceTime` | Computing-Server/src/Orderbook/order_book.cpp:10-134 | Main theorem on one submission, for every book between calls and every order: the call fails to return exactly if the id is fresh and the order snags; when it returns, its trades and the resting orders are those of price-time priority and the invariant holds again. |
| `CancelModify.WithdrawIsDrop` | Computing-Server/src/Orderbook/order_book.cpp:149-166 | Erasing by iterator, and the level when it empties, takes exactly the order with that id out of the priority list. |
| `CancelModify.CancelIsRemoval` | Computing-Server/src/Orderbook/order_book.cpp:136-169 | Cancelling is pure removal on both sides, keeps the invariant, leaves the id dead, and changes nothing for an unknown id. |
| `CancelModify.ModifyIsReplacement` | Computing-Server/src/Orderbook/order_book.cpp:171-182 | Modifying an unknown id changes nothing; otherwise the call returns exactly if the replacement does not snag on the book without the old order, and is then cancel followed by a fresh price-time add. |
| `CancelModify.ReplacementGoesLast` | Computing-Server/src/Orderbook/order_book.cpp:171-182 | A replacement that does not cross always returns and goes behind every order at its own or a better price. |
| `Runs.StepIsReference` | Computing-Server/src/Orderbook/order_book.cpp:10-182 | Each public call either is a trap and never returns, or is the reference call and keeps the invariant. |
| `Runs.RunIsReference` | Computing-Server/src/Orderbook/order_book.cpp:10-182 | Every run of calls that returns has the trades and the final priority lists of the price-time reference run. |
| `Runs.RunSpinsAtATrap` | Computing-Server/src/Orderbook/order_book.cpp:10-182 | A run fails to return exactly if some call is a trap in the book its predecessors left. |
| `Runs.EveryRunIsSafe` | Computing-Server/src/Orderbook/order_book.cpp:62-134 | After every run from the empty book that returns: no fill-and-kill order rests, every bid is below every ask, and no id rests twice. |
| `Runs.EmptyAskLevelTraps` | Computing-Server/src/Orderbook/order_book.cpp:105-114 | Three ordinary orders that show the defect: an exact fill leaves an empty ask level, and the next buy at that price is never answered. |
| `Runs.ExactSellTraps` | Computing-Server/src/Orderbook/order_book.cpp:105-114 | Two bids and a sell of exactly the better bid's size, limited to the worse one's price, are never answered; one share more is. |
| `AliveOrders.AddAliveExactly` | Computing-Server/src/Orderbook/order_book.cpp:10-134 | From a book in which every order has a quantity, a submission that returns leaves such a book exactly if its order is turned away for a live id, has a quantity, or is fill-and-kill. |
| `AliveOrders.RunKeepsAlive` | Computing-Server/src/Orderbook/order_book.cpp:10-182 | No run that returns, of orders that all have a quantity, leaves an order resting that has none, whatever levels it fills and empties. |
| `HollowLevels.HollowLevelsExactly` | Computing-Server/src/Orderbook/order_book.cpp:22-37 | After every submission that returns, of an order with a quantity: a price has an empty ask level exactly if it had one before and no resting sell refills it, or if a buy closes that price level, or a sell at that price closes a bid level. |
| `HollowLevels.EmptyLevelLeftExactly` | Computing-Server/src/Orderbook/order_book.cpp:105-114 | A crossing order that is taken in leaves no ask level empty exactly if none was and it uses up no price level and itself in the same fill. |
| `HollowLevels.CancelLeavesHollows` | Computing-Server/src/Orderbook/order_book.cpp:157-166 | Cancelling neither makes nor removes an empty ask level. |
| `CleanRuns.NoCloseNoTrap` | Computing-Server/src/Orderbook/order_book.cpp:62-116 | From a book without empty ask levels and empty orders, an order with a quantity that closes no price level is always answered. |
| `CleanRuns.CarefulRunsReturn` | Computing-Server/src/Orderbook/order_book.cpp:10-182 | A run in which every order has a quantity and none closes a price level always returns and is the price-time run; the condition is stated on the price-time lists alone. |
| `Locking.RelocksExactly` | Computing-Server/src/Orderbook/order_book.cpp:12-17 | Between calls, exactly these calls take the non-recursive mutex while holding it: submitting a fill-and-kill order under a fresh id, and modifying a live order. |
| `Conservation.SweepConserves` | Computing-Server/src/Orderbook/order_book.cpp:80-103 | Order by order, what is left and what traded is what was there, and the incoming order is never filled beyond its quantity. |
| `Conservation.CallConserves` | Computing-Server/src/Orderbook/order_book.cpp:10-182 | For one call and one id: resting after plus traded plus withdrawn equals resting before plus submitted. |
| `Conservation.RunConserves` | Computing-Server/src/Orderbook/order_book.cpp:10-182 | Over any run that returns, for every id, also one used again and again: resting after plus traded plus withdrawn equals resting before plus submitted. |
| `Conservation.AddIsFair` | Computing-Server/src/Orderbook/order_book.cpp:59-103 | Every trade has equal positive quantities and a bid limit not below the ask limit, and a call makes no more trades than orders rested before it, so the reserved capacity is never exceeded. |
| `Conservation.RunIsFair` | Computing-Server/src/Orderbook/order_book.cpp:80-103 | Every trade of every run is fair in that sense. |
| `Conservation.FilledIsTraded` | Computing-Server/src/Orderbook/order_.cpp:12-23 | An order added under a fresh id and not named by later calls keeps the quantity it was made with, and as long as it rests its filled quantity is exactly what traded under its id. |
| `Pointers.Order_.constructor` | Computing-Server/src/Orderbook/order_.cpp:3-4 | A new order has its whole quantity remaining. |
| `Pointers.Order_.Fill` | Computing-Server/src/Orderbook/order_.cpp:15-23 | Takes the quantity off the remainder, or does nothing if that is larger than the remainder. |
| `Pointers.TradeWires` | Computing-Server/src/Orderbook/order_book.cpp:85-114 | After the fills, pops and erasures the two maps and the index hold the traded book: every node where its index entry says, every live id indexed, no other. |
| `Pointers.PlaceWires` | Computing-Server/src/Orderbook/order_book.cpp:22-37 | After the list append and the index entry the maps and the index hold the book with the order placed. |
| `OrderBook.Orderbook.constructor` | Computing-Server/include/Orderbook/order_book.hpp:64-72 | An empty book with the default spread threshold, position limit and position. |
| `OrderBook.Orderbook.AddOrder` | Computing-Server/src/Orderbook/order_book.cpp:10-40 | Answers that it never returns exactly for a fresh id that snags; otherwise the maps hold the specified book, and trades and resting orders are price-time priority's. |
| `OrderBook.Orderbook.TakeIn` | Computing-Server/src/Orderbook/order_book.cpp:22-39 | An accepted order is placed and matched as the specification says, including when that never ends. |
| `OrderBook.Orderbook.PushBack` | Computing-Server/src/Orderbook/order_book.cpp:22-37 | The order stands at the end of the list at its price, and the index designates its node. |
| `OrderBook.Orderbook.CanMatch` | Computing-Server/src/Orderbook/order_book.cpp:42-54 | Whether the best opposite level, even an empty one, crosses the price. |
| `OrderBook.Orderbook.MatchOrders` | Computing-Server/src/Orderbook/order_book.cpp:56-134 | The loops and the two kills on the maps agree with the specification of both, including when they never end. |
| `OrderBook.Orderbook.RunLoops` | Computing-Server/src/Orderbook/order_book.cpp:62-116 | The outer loop arrives where the specification settles, with its trades, or answers that it never ends exactly when that spins. |
| `OrderBook.Orderbook.MatchLevels` | Computing-Server/src/Orderbook/order_book.cpp:75-115 | The inner loop uses up resting quantity and leaves a book from which settling gives the same final result. |
| `OrderBook.Orderbook.TradeAndTrack` | Computing-Server/src/Orderbook/order_book.cpp:77-114 | One trading pass on the pointers is one trading pass on the book they hold. |
| `OrderBook.Orderbook.TradeFronts` | Computing-Server/src/Orderbook/order_book.cpp:77-114 | Both front orders are filled by the smaller remainder, filled ones leave lists and index, and a level left empty is erased, the ask level only if the bid level is not. |
| `OrderBook.Orderbook.PopBidIfFilled` | Computing-Server/src/Orderbook/order_book.cpp:93-97 | A filled front bid leaves the index and its list. |
| `OrderBook.Orderbook.PopAskIfFilled` | Computing-Server/src/Orderbook/order_book.cpp:98-102 | A filled front ask leaves the index and its list. |
| `OrderBook.Orderbook.EraseEmptyLevel` | Computing-Server/src/Orderbook/order_book.cpp:105-114 | The best bid level is erased if empty, or else the best ask level if empty. |
| `OrderBook.Orderbook.CancelFrontFak` | Computing-Server/src/Orderbook/order_book.cpp:118-131 | Only a fill-and-kill order at the front of the best level is removed. |
| `OrderBook.Orderbook.CancelOrder` | Computing-Server/src/Orderbook/order_book.cpp:136-169 | The maps and the index hold the book without that id; an unknown id changes nothing. |
| `OrderBook.Orderbook.ModifyOrder` | Computing-Server/src/Orderbook/order_book.cpp:171-182 | Nothing for an unknown id; otherwise cancel and add, never returning exactly if the replacement snags. |
| `OrderBook.Orderbook.Lookup` | Computing-Server/include/Orderbook/order_book.hpp:58-66 | For a live id the index finds the resting order, and its iterator designates the only node of its side that holds it. |
| `OrderBook.Orderbook.Size` | Computing-Server/src/Orderbook/order_book.cpp:184-188 | The number of resting orders. |
| `OrderBook.Orderbook.GetOrderInfos` | Computing-Server/src/Orderbook/order_book.cpp:190-219 | Price and total remaining quantity, modulo 2^32, of every level of both sides in the order of the maps; an empty level reports 0. |
| `OrderBook.Orderbook.LevelInfos` | Computing-Server/src/Orderbook/order_book.cpp:209-216 | One side: price and total of each level, best first. |
| `OrderBook.Orderbook.TotalOf` | Computing-Server/src/Orderbook/order_book.cpp:198-207 | The sum of the remainders of one list modulo 2^32. |
| `OrderBook.Orderbook.Quote` | Computing-Server/src/Orderbook/order_book.cpp:238-274 | A good-till-cancel order is added, on the given side, under the counter modulo 2^64, at the whole part of the price and for the quantity but at most 100; if that call returns, the clipped size is booked on the position whatever became of the order, and the untruncated price is told. |
| `OrderBook.Orderbook.ExecuteMarketMakingStrategy` | Computing-Server/src/Orderbook/order_book.cpp:221-278 | In a spread wider than the threshold: below the limit an order is bought at the bid plus half the threshold for the ask size, at most 100, under the counter; from the limit on, while above the negative limit, one is sold at the ask minus half the threshold for the bid size, at most 100, under the counter plus one; the book is what adding that order leaves, that price is told, and nothing is told if adding it never returns. In all other cases nothing happens. The position makes the move of the decision. |
| `MarketMaking.DecideExactly` | Computing-Server/src/Orderbook/order_book.cpp:224-257 | The decision is to buy exactly for a wide quote below the limit, and to sell exactly for a wide quote at or above it and above the negative limit. |
| `MarketMaking.MoveExactly` | Computing-Server/src/Orderbook/order_book.cpp:251-272 | A wide quote raises the position below the limit and lowers it from the limit on, by the size quoted on the other side but at most 100, in 32 bits. |
| `MarketMaking.WideQuotesMove` | Computing-Server/src/Orderbook/order_book.cpp:236-274 | For a positive limit with room for a clip, that happens to every wide quote and without wrapping round. |
| `MarketMaking.RunStaysInBand` | Computing-Server/src/Orderbook/order_book.cpp:224-277 | For a positive limit that leaves room for one clip, every run from inside the band stays in it, and once within one clip of the limit stays within one clip of it. |
| `MarketMaking.EveryPositionIsReached` | Computing-Server/src/Orderbook/order_book.cpp:236-252 | Every position from 0 to below the limit is reached by some run. |
| `MarketMaking.EveryPositionIsSoldTo` | Computing-Server/src/Orderbook/order_book.cpp:257-274 | From the limit, each position down to one clip below it is reached by one sale. |
| `MarketMaking.BandHoldsExactly` | Computing-Server/src/Orderbook/order_book.cpp:251-251 | The band holds on all runs from 0 exactly if the limit is at most 2^31 - 100; above that some run wraps the 32-bit position out of it. |
| `Streams.ExtractsWord` | IO-Server/src/subscriber.cpp:90-92 | Stream extraction skips leading white space, returns the next word and leaves the rest. |
| `Streams.InputStream.Read` | IO-Server/src/subscriber.cpp:90-92 | One extraction moves the stream on and leaves the target unchanged when there is no word. |
| `Streams.InputStream.ReadLine` | IO-Server/src/subscriber.cpp:94-94 | The rest of the line is taken, with the break after it; at the end of the text the stream fails. |
| `Streams.LineIsTaken` | IO-Server/src/subscriber.cpp:94-94 | A line without a break inside is read up to its break, which is taken too, or up to the end of the text; at the end of the text the stream fails. |
| `Streams.ExtractTakesWord` | Order-Manager-Server/src/Scheduler/scheduler.cpp:10-10 | On every text, an extraction takes the first word and leaves the others, or fails if there is none. |
| `Streams.WordsOfLayout` | Order-Manager-Server/src/Scheduler/scheduler.cpp:8-10 | However they are spaced, the words of a text are the words it was laid out of. |
| `Streams.OneWordExactly` | Order-Manager-Server/src/Scheduler/scheduler.cpp:8-10 | A text is its own only word exactly if it is not empty and holds no space, tab, line feed, carriage return, vertical tab or form feed. |
| `Streams.NoWordsExactly` | Order-Manager-Server/src/Scheduler/scheduler.cpp:8-10 | A text has no words exactly if it holds nothing but those six. |
| `RedisCommands.Receive` | IO-Server/src/subscriber.cpp:90-95 | The subscriber's statements compute the parse of the message, or throw. |
| `RedisCommands.ParsedFrom` | IO-Server/src/subscriber.cpp:90-95 | Everything a parse returns was in the message; the file name is one word and the payload one line. |
| `RedisCommands.LineIsUnquoted` | IO-Server/src/subscriber.cpp:90-95 | For any spacing, two words and a line that may hold anything but a break, with or without more lines after it: the parse is the two words and the line without its first two characters and its last; two characters leave an empty payload, and fewer throw. |
| `RedisCommands.TooFewWords` | IO-Server/src/subscriber.cpp:90-95 | A message of fewer than two words throws. |
| `RedisCommands.MissingFile` | Computing-Server/src/IO-Broker-Core/RedisDBManager.cpp:34-56 | A command without file name never reads back as itself. |
| `RedisCommands.RoundTripExactly` | Computing-Server/src/IO-Broker-Core/RedisDBManager.cpp:34-80 | A published CREATE or INSERT reads back as the same operation, file and payload exactly if the file name is one non-empty word and the payload one line, both without zero characters; quotes and spaces in the payload do no harm. |
| `Dispatch.StepKeeps` | Order-Manager-Server/src/Scheduler/scheduler.cpp:27-40 | Every step of scheduler, executors and ingress keeps the delivery invariant. |
| `Dispatch.ExecutedInOrder` | Order-Manager-Server/src/Scheduler/scheduler.cpp:31-38 | In every state of every interleaving each provider has executed, in order of arrival, a first part of exactly the messages numbered i, i + 3, i + 6, ... of all received. |
| `Dispatch.ExactlyOnce` | Order-Manager-Server/src/Scheduler/scheduler.cpp:27-40 | In every state of every interleaving: executed, executing, queued, in the scheduler's hand and pending together are what was received, each once. |
| `Dispatch.BatchesNeverBlock` | Order-Manager-Server/src/Executor-Manager-Core/executor_manager.cpp:51-59 | Whoever still has pops to do in a batch finds its queue not empty. |
| `Dispatch.SharesDifferByOne` | Order-Manager-Server/src/Scheduler/scheduler.cpp:36-37 | At any time of any run the totals dealt to the providers differ by at most one. |
| `Dispatch.StepsUseWork` | Order-Manager-Server/src/Executor-Manager-Core/executor_manager.cpp:49-60 | Every step but the arrival of a message strictly lowers a measure of the work left. |
| `Dispatch.SomeoneCanMove` | Order-Manager-Server/include/Queue/TSQueue.hpp:24-32 | Unless everything is quiet some thread can take a step. |
| `Dispatch.EveryRunDrains` | Order-Manager-Server/src/Scheduler/scheduler.cpp:27-40 | When messages stop coming, every way of going on comes to rest within a bounded number of steps, and then each provider has executed exactly its share. |
| `Messages.ParseTakesWords` | Order-Manager-Server/src/Scheduler/scheduler.cpp:6-21 | For every text the nine fields are its first nine words: a missing one of the first five is empty, a missing one of the next four is none. |
| `Messages.FieldsHaveNoWhite` | Order-Manager-Server/src/Scheduler/scheduler.cpp:6-21 | For every text, no field holds any of the six white space characters. |
| `Messages.MessageReadsBack` | Order-Manager-Server/src/Scheduler/scheduler.cpp:6-21 | A message laid out as any number of words, however spaced, parses to exactly those words: of nine or more, to the first nine in the order of the fields; of fewer, to what there is. |
| `Messages.ReadOrder` | Order-Manager-Server/src/Scheduler/scheduler.cpp:6-21 | The scheduler's statements give the fields of the text's first nine words. |
| `Scheduler.SplitsByItsFifthWord` | Order-Manager-Server/src/Scheduler/scheduler.cpp:55-57 | A message is split exactly if it has a fifth word and that reads as three or more. |
| `Scheduler.SplitsByItsNumber` | Order-Manager-Server/src/Scheduler/scheduler.cpp:55-57 | If that word is a number, with or without sign and leading zeros and with anything but a digit behind it, the message is split exactly if the number is at least 3 and not negated. |
| `Scheduler.NoNumberNoSplit` | Order-Manager-Server/src/Scheduler/scheduler.cpp:55-57 | If that word has no digit after its sign, the message is not split. |
| `Scheduler.TSQueue.Push` | Order-Manager-Server/include/Queue/TSQueue.hpp:17-22 | Appends the item. |
| `Scheduler.TSQueue.Pop` | Order-Manager-Server/include/Queue/TSQueue.hpp:24-32 | Takes the oldest item, or leaves the caller waiting on an empty queue. |
| `Scheduler.TSQueue.Empty` | Order-Manager-Server/include/Queue/TSQueue.hpp:34-38 | Whether the queue holds nothing. |
| `Scheduler.TSQueue.Size` | Order-Manager-Server/include/Queue/TSQueue.hpp:40-44 | How many items the queue holds. |
| `Scheduler.DealGoesOn` | Order-Manager-Server/src/Scheduler/scheduler.cpp:31-38 | From any provider on, dealing on from where an earlier deal stopped is one deal: batches leave no trace. |
| `Scheduler.Scheduler.RoundRobin` | Order-Manager-Server/src/Scheduler/scheduler.cpp:23-41 | One pass empties the order queue, appends to each provider exactly its parsed share in order, and passes the turn on, modulo three. |
| `Scheduler.Scheduler.RoundRobinBatch` | Order-Manager-Server/src/Scheduler/scheduler.cpp:31-38 | One batch, begun after others: the order queue is emptied and each provider holds its parsed share of all batches so far, in order. |
| `Scheduler.Scheduler.DealNext` | Order-Manager-Server/src/Scheduler/scheduler.cpp:34-36 | The oldest message is parsed and pushed to the provider whose turn it is, and to no other. |
| `Scheduler.Scheduler.Equalize` | Order-Manager-Server/src/Scheduler/scheduler.cpp:43-76 | One pass runs off the registered providers exactly if there are three of them and some order asks for three or more; otherwise each provider has been pushed what is planned for it, and the quantities pushed to all of them sum to those ordered. |
| `Scheduler.QueuesHoldWhatWasOrdered` | Order-Manager-Server/src/Scheduler/scheduler.cpp:52-73 | What the messages order is what the provider queues are brought together, whenever no push runs off their end. |
| `Scheduler.Scheduler.EqualizeBatch` | Order-Manager-Server/src/Scheduler/scheduler.cpp:51-73 | One batch runs off the registered providers exactly if there are three and it holds an order of three or more; otherwise each provider has been pushed its part of all batches so far. |
| `Scheduler.Scheduler.EqualizeNext` | Order-Manager-Server/src/Scheduler/scheduler.cpp:54-72 | One order takes the oldest message off the queue, and faults exactly if it is split among three providers; otherwise each provider is pushed what is planned for it. |
| `Scheduler.Scheduler.LatencyBased` | Order-Manager-Server/src/Scheduler/scheduler.cpp:78-111 | One pass empties the order queue, and each provider queue has grown by exactly the parsed orders the policy routes to it, in order, on the sizes of the moment. |
| `Scheduler.Scheduler.LatencyBatch` | Order-Manager-Server/src/Scheduler/scheduler.cpp:85-108 | One batch empties the order queue and brings each provider queue to what the whole pass routes to it. |
| `Scheduler.Scheduler.RouteOne` | Order-Manager-Server/src/Scheduler/scheduler.cpp:88-107 | The oldest message is parsed and pushed to the queue the policy chooses on the sizes of the moment, and to no other. |
| `Executors.ExecutorManager.ProcessOrderQueue` | Order-Manager-Server/src/Executor-Manager-Core/executor_manager.cpp:47-61 | One pass empties the executor's queue and creates its orders in order, each once. |
| `Equalizer.TextReadsBack` | Order-Manager-Server/src/Scheduler/scheduler.cpp:56-62 | A printed quantity reads back as itself. |
| `Equalizer.NumberReads` | Order-Manager-Server/src/Scheduler/scheduler.cpp:56-56 | White space, a sign or none, leading zeros, a printed number and then anything but a digit read as that number with that sign. |
| `Equalizer.NothingReads` | Order-Manager-Server/src/Scheduler/scheduler.cpp:56-56 | White space and a sign or none, without a digit behind them, read as 0. |
| `Equalizer.NextDigit` | Order-Manager-Server/src/Scheduler/scheduler.cpp:56-56 | A further digit counts one, and the digits before it ten times what they counted. |
| `Equalizer.SharesAddUp` | Order-Manager-Server/src/Scheduler/scheduler.cpp:56-72 | For every order: the printed shares read back to its quantity, each is at least 1, the first two are equal and the last exceeds them by at most 2, they go to index 0, 1 and 3, and nothing else of the order changes; an order below 3 goes whole and unchanged to the first provider. |
| `Equalizer.RunsAddUp` | Order-Manager-Server/src/Scheduler/scheduler.cpp:52-73 | Over any sequence of orders the pushed quantities sum to the ordered ones. |
| `Equalizer.InRangeExactly` | Order-Manager-Server/src/Scheduler/scheduler.cpp:67-67 | All pushes of an order go to registered providers exactly if it is below 3 or there are more than three providers. |
| `Latency.FastestIsBounded` | Order-Manager-Server/src/Scheduler/scheduler.cpp:96-99 | However stale the sizes read and whatever executors take, the fastest provider never has more than 8 orders waiting. |
| `Latency.GapIsBounded` | Order-Manager-Server/src/Scheduler/scheduler.cpp:96-107 | With nobody taking orders the third queue is never behind the second and never more than 10 ahead of it. |
| `Latency.UnsignedGapExactly` | Order-Manager-Server/src/Scheduler/scheduler.cpp:100-100 | Each choice is made exactly under the stated sizes, and the unsigned subtraction decides as the signed one exactly unless the fastest queue is full and the third is shorter than the second. |
| `Latency.ImbalanceGrows` | Order-Manager-Server/src/Scheduler/scheduler.cpp:100-107 | From such a state all further orders go to the longer queue until an executor takes one. |
| `Correlation.SpreadIsCovariance` | IO-Server/src/calculations/mca_handler.cpp:15-24 | For all equal-length series the one-pass raw-sum term is n squared times the two-pass covariance, and with equal arguments the variance. |
| `Correlation.CauchySchwarz` | Computing-Server/src/Risk-Analysis-Core/CorrelationAnalyzer.cpp:46-51 | For deviations from any two values the squared sum of products is at most the product of the sums of squares, which are not negative. |
| `Correlation.SpreadBound` | IO-Server/src/calculations/mca_handler.cpp:23-24 | The square root has an argument that is not negative, and the squared numerator is at most that argument. |
| `Correlation.CoefficientIsBounded` | IO-Server/src/calculations/mca_handler.cpp:8-25 | The one-pass coefficient lies between -1 and 1 for every pair of equal-length series. |
| `Correlation.VarianceSeesMovement` | Computing-Server/src/Risk-Analysis-Core/CorrelationAnalyzer.cpp:49-55 | The two-pass variance is not negative, and zero exactly for a series that stays at one value. |
| `Correlation.TwoPassIsOnePass` | Computing-Server/src/Risk-Analysis-Core/CorrelationAnalyzer.cpp:39-57 | The two programs give one coefficient for series that both move; for all others the two-pass program divides by zero and the one-pass program gives 0. |
| `Correlation.CoefficientExactly` | Computing-Server/src/Risk-Analysis-Core/CorrelationAnalyzer.cpp:39-57 | For series that both move, the coefficient times the product of their standard deviations is their covariance. |
| `Correlation.SelfCorrelation` | Computing-Server/src/Risk-Analysis-Core/CorrelationAnalyzer.cpp:39-57 | A series that moves has coefficient 1 with itself. |
| `Correlation.Pearson` | IO-Server/src/calculations/mca_handler.cpp:8-25 | Computes the one-pass coefficient, 0 for fewer than two points or a zero denominator. |
| `Correlation.RawSums` | IO-Server/src/calculations/mca_handler.cpp:14-22 | The loop accumulates the five sums. |
| `Correlation.CentredSums` | Computing-Server/src/Risk-Analysis-Core/CorrelationAnalyzer.cpp:42-51 | The loop accumulates the three sums of products of deviations. |
| `Correlation.Deviations` | Computing-Server/src/Risk-Analysis-Core/CorrelationAnalyzer.cpp:39-57 | Computes the two-pass coefficient. |
| `Correlation.CorrelationAnalyzer.LoadPriceData` | Computing-Server/src/Risk-Analysis-Core/CorrelationAnalyzer.cpp:8-20 | Loaded series replace those of the same name and leave the others. |
| `Correlation.CorrelationAnalyzer.CalculateCorrelation` | Computing-Server/src/Risk-Analysis-Core/CorrelationAnalyzer.cpp:22-58 | 0 for an unknown symbol or different lengths; otherwise the one-pass coefficient if both series move, and none if not. |
| `MovingCorrelation.AlignedMembers` | IO-Server/src/calculations/mca_handler.cpp:95-100 | A bar is aligned exactly if each history has its own close at that timestamp. |
| `MovingCorrelation.AlignedInOrder` | IO-Server/src/calculations/mca_handler.cpp:95-103 | Aligned timestamps ascend strictly. |
| `MovingCorrelation.OrderIsUnique` | IO-Server/src/calculations/mca_handler.cpp:101-103 | Bars in strictly ascending order are determined by their members, so that sorting them again changes nothing. |
| `MovingCorrelation.PointIsItsWindow` | IO-Server/src/calculations/mca_handler.cpp:121-131 | The point of a window carries the timestamp of its last bar, and the coefficient of two series that hold the closes of its bars in order. |
| `MovingCorrelation.AlignedSwaps` | IO-Server/src/calculations/mca_handler.cpp:95-100 | Aligning the other way round gives the same bars with the closes exchanged. |
| `MovingCorrelation.PointsAreProper` | IO-Server/src/calculations/mca_handler.cpp:115-135 | The points' timestamps ascend strictly and their coefficients lie between -1 and 1. |
| `MovingCorrelation.SymbolsExchange` | IO-Server/src/calculations/mca_handler.cpp:82-135 | Exchanging the two symbols gives the same points. |
| `MovingCorrelation.Align` | IO-Server/src/calculations/mca_handler.cpp:92-100 | The loop computes the shared bars. |
| `MovingCorrelation.CutWindow` | IO-Server/src/calculations/mca_handler.cpp:121-128 | The loop copies the two columns of one window. |
| `MovingCorrelation.LastPoint` | IO-Server/src/calculations/mca_handler.cpp:121-131 | The point of the window that ends at an index carries the timestamp of that bar and the coefficient of the window's two columns of closes. |
| `MovingCorrelation.Points` | IO-Server/src/calculations/mca_handler.cpp:113-135 | Exactly min(limit, windows) points; the k-th carries the timestamp of bar k + window - 1, and the coefficient of the closes of bars k to k + window. |
| `MovingCorrelation.Compute` | IO-Server/src/calculations/mca_handler.cpp:43-135 | From the two histories: exactly min(limit, windows) points; the k-th carries the timestamp of shared bar k + window - 1, and the coefficient of the two closes of bars k to k + window; 20 and 200 stand for a window and limit that are not positive. |
| `Backtest.BuySpendsAll` | Computing-Server/src/Backtesting-Bot/bot.cpp:135-141 | A purchase spends the cash on as many whole shares as it reaches, keeps the ledger sound, and loses less than one unit of wealth at its price. |
| `Backtest.SellTakesAll` | Computing-Server/src/Backtesting-Bot/bot.cpp:144-149 | A sale turns all shares into cash, never lowers it, and loses less than one unit of wealth at its price. |
| `Backtest.ReactKeeps` | Computing-Server/src/Backtesting-Bot/bot.cpp:135-155 | Whatever the signals, for a positive price cash and shares stay non-negative, no shares are held without a position, the loss is below one unit, and a bar without trade changes nothing. |
| `Backtest.RunLosesLessThanItsTrades` | Computing-Server/src/Backtesting-Bot/bot.cpp:83-156 | Over any run of bars the ledger stays sound and is behind the exact cash moved by its own trades by less than one unit a trade, and never ahead. |
| `Backtest.LogTakesTurns` | Computing-Server/src/Backtesting-Bot/bot.cpp:135-151 | Purchases and sales alternate in every run, and every sale is of exactly the shares last bought. |
| `Backtest.TurnsByPosition` | Computing-Server/src/Backtesting-Bot/bot.cpp:135-151 | Read by position: even entries are purchases, odd ones sales of the shares of the entry before. |
| `Backtest.MarksFollowSignals` | Computing-Server/src/Backtesting-Bot/bot.cpp:83-156 | Over any run there is a record of whether a position was open before each bar: without one a short average above the long one opens it, with one a short average below the long one closes it, and the two rows hold the price at exactly the bars that did so. |
| `Backtest.BackTester.constructor` | Computing-Server/src/Backtesting-Bot/bot.cpp:20-29 | 1000 in cash, no shares, no position. |
| `Backtest.BackTester.ExecuteTradingLogic` | Computing-Server/src/Backtesting-Bot/bot.cpp:118-156 | Without a position and with the short average above the long one, as many whole shares as the cash reaches are bought; with a position and the short average below, all are sold; otherwise cash, shares and position stay. The price is marked at the last index of the row of what was done and nowhere else, and the fields are those of the ledger step. |
| `Backtest.BackTester.ProcessBar` | Computing-Server/src/Backtesting-Bot/bot.cpp:83-95 | One bar extends the chart by one index, marked in the row of purchases exactly if no position was open and the short average is above, in that of sales exactly if one was open and it is below, and takes one ledger step. |
| `Backtest.BackTester.Run` | Computing-Server/src/Backtesting-Bot/bot.cpp:83-95 | A run of bars leaves the ledger of all steps and a chart with one index a bar; the recorded positions follow the two averages from the first to the last, and the rows hold the price at exactly the bars that bought and those that sold. |
| `Drawdown.CalculateMaxDrawdown` | Computing-Server/src/Risk-Analysis-Core/RiskAdjustedMetrics.cpp:19-35 | On every series that is not empty: infinity if a value falls from a peak of zero; otherwise m, not below 0, such that no value is less than (1 - m) of a positive running peak nor more than that of a negative one, with equality somewhere unless m is 0. For positive values no later value is less than (1 - m) of an earlier one, and some is just that. |
| `Drawdown.FallIsLoss` | Computing-Server/src/Risk-Analysis-Core/RiskAdjustedMetrics.cpp:30-30 | From a positive value a fall is at most m exactly if at least (1 - m) of it is left, from a negative one exactly if at most that, and is m exactly if just that is left. |
| `Drawdown.LargestFallIsLoss` | Computing-Server/src/Risk-Analysis-Core/RiskAdjustedMetrics.cpp:30-31 | On every series m is the largest fall from a positive value exactly if no later value is less than (1 - m) of one, and some is just that. |
| `Drawdown.PeaksSuffice` | Computing-Server/src/Risk-Analysis-Core/RiskAdjustedMetrics.cpp:21-32 | If no value is negative, the largest fall from a running peak is the largest fall between any two values in order, between 0 and 1, and below 1 for positive values. |
| `Drawdown.PeaksSufficeExactly` | Computing-Server/src/Risk-Analysis-Core/RiskAdjustedMetrics.cpp:21-32 | For a series that starts above zero it is the largest fall between any two values exactly if no value is negative, or some negative value ends a fall from the first value, with no other positive value before it, that no other fall below zero exceeds. |
| `Drawdown.LossesLeaveNoTrace` | Computing-Server/src/Risk-Analysis-Core/RiskAdjustedMetrics.cpp:22-29 | Values before the first positive one change neither a finite result nor the largest fall from a positive value. |
| `Drawdown.DrawdownExactly` | Computing-Server/src/Risk-Analysis-Core/RiskAdjustedMetrics.cpp:19-35 | On every series with a finite result, that is the largest fall from a positive value exactly if the condition above holds from the first positive value on. |
| `Drawdown.RiseThenLoss` | Computing-Server/src/Risk-Analysis-Core/RiskAdjustedMetrics.cpp:30-31 | A witness: the three values of a rise and a negative one miss the condition, and the result is not the largest fall. |

## Left out

- Mutexes inside the order book: each public call is one step. As written some calls take a non-recursive mutex twice, which is undefined; `Locking.RelocksExactly` says which, and all other theorems are about the book as if it could be taken again.
- Ingress: nothing in the repository pushes a received message into the scheduler's queue (`Order-Manager-Server/src/main.cpp:37-41` passes it to a policy that ignores its argument and never returns), so arrival is a step of the environment.
- Scheduler.Scheduler.RoundRobin: one pass of an endless outer loop with nobody else at work, because a method runs alone; all interleavings of this policy with ingress and executors are in `Dispatch`.
- Scheduler.Scheduler.Equalize: one pass of an endless outer loop with nobody else at work; this policy is not interleaved.
- Scheduler.Scheduler.LatencyBased: one pass of an endless outer loop with nobody else at work; with executors taking orders and sizes read early, only the bound on the fastest queue is proved, in `Latency`.
- Executors.ExecutorManager.ProcessOrderQueue: one pass of an endless outer loop with nobody else at work, because a method runs alone; all interleavings of executors and scheduler are in `Dispatch`.
- Equalizer.SharesAddUp: quantities beyond 32 bits, for which `atoi` is undefined, are read as the number written.
- `TSQueue`: the condition variable is the blocked caller; fairness of the threads is not modelled, and termination is stated as a bound on every way of going on.
- OrderBook.Orderbook.ExecuteMarketMakingStrategy: prices and threshold are reals; a quote outside the 32-bit price range is not treated, and the text of the returned price is the number itself.
- Order book fields that no operation reads: imbalance threshold, trade and position sizes, entry prices, last trades.
- Floating point: Correlation, MovingCorrelation, Backtest and Drawdown compute with exact reals, and the ledger's whole numbers have no width.
- Correlation.CorrelationAnalyzer.CalculateCorrelation: a division by zero is no answer; the correlation matrix, which calls it for all pairs, is not part of this model.
- MovingCorrelation.Compute: the two histories are parameters. Fetching them, checking the request and writing JSON are not part of this model; nor is the second sort, which changes nothing by MovingCorrelation.OrderIsUnique.
- Backtest.BackTester.Run: the two signals of each bar come from indicators that are not part of this model, nor is plotting; a price of zero is left out, because a purchase divides by it.
- Backtest.BackTester.ExecuteTradingLogic: a price of zero is left out, because a purchase divides by it.
- Drawdown.CalculateMaxDrawdown: an empty series, on which the original reads past the end; and the sign of a zero peak, which decides the sign of the infinity.
- Redis: connection, channels and what is done with a command; LOG messages, whose format the subscriber does not expect; an INSERT's embedding into SQL.
- The other risk ratios are single expressions; `Liquidity_Based` drops its orders.
- HTTP, WebSocket, ZeroMQ, SQLite, the trading bots, indicators, neural networks, the front end and the database schema are not part of this model.
