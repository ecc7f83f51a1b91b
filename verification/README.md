# Verified model of the order book pipeline

The model covers the path a price level takes through the trading system, and the order lifecycle
of the mock exchange:

1. `Coinbase.dfy`, `Splitting.dfy`, `SplitProbes.dfy`: the `l2update` handler splits one interleaved
   list of changes into a bid list and an ask list; when that keeps the meaning of the list.
2. `Feed.dfy`, `Engine.dfy`: the market data engine turns snapshots and deltas into writes of the
   order book of their symbol and publishes one update per message.
3. `BookSpec.dfy`, `OrderBook.dfy`: the order book, two ordered price maps under one lock, whose
   updates silently drop a level that would cross the other side.
4. `Dispatch.dfy`: the update queue, the dispatcher thread, `initialize` and `stop`.
5. `Pipeline.dfy`, `Settling.dfy`: all of it at once, with any number of handlers interleaved with each
   other and with the dispatcher, what that means for the updates a subscriber gets, and how it comes
   to rest.
6. `Orders.dfy`, `MockExchange.dfy`: submit, cancel, modify and the asynchronous execution of orders.

How the pieces are modelled:

- `OrderBooks.OrderBook`, `Engine.MarketDataEngine`, `Coinbase.CoinbaseAdapter` and
  `MockExchange.MockExchangeAdapter` are classes that hold the program's fields, with ghost or explicit
  logs of what was enqueued, handled and reported; their methods have the program's branches and loops.
  Each method is proved against a step of a state machine (`BookSpec`, `Feed`, `Dispatch`, `Orders`);
  the theorems are about runs of those machines. Every engine method also keeps the conservation of
  updates (`Dispatch.Conserved`), and every adapter method the invariant of the orders and the balance
  of the fills (`MockExchangeAdapter.Valid`).
- The step machine of the book has two plain maps as its state, and its guard quantifies over the whole
  opposite side. The class keeps sorted containers and looks at their first level, as the program does;
  `Levels.dfy` proves that this refines the maps, and that a sorted container is determined by its map.
- Concurrency: one locked region is one step. A run is any sequence of steps, so a statement about runs
  is a statement about every interleaving of any number of threads. Handlers and `getSpread`, which lock
  several times, are several steps; `Interleaving.dfy`, `Crossing.dfy`, `Feed.dfy` and
  `Pipeline.dfy` say what other threads can do in between.
- Prices and sizes are `real`: sums are exact, there is no NaN, and equal prices are one key.
- Parameters: the clock (`now`), the values an uninitialised local `MarketUpdate` happens to hold, the
  element the lock-free queue offers next, and the messages that arrive while `stop` waits.

Where the code does less than its names and tests suggest:

- A snapshot's published bid is its lowest bid, not its best (`Feed.SnapshotPublishesWorstBid`; exactly
  when, in `Feed.SnapshotPublishes`).
- A book whose asks alone are missing reports a negative spread (`Crossing.SpreadCanBeNegative`; exactly
  when, in `Crossing.SpreadAtRest`), and a spread read while the level read first is removed need not be
  positive (`Crossing.RemovalTearsSpread`; exactly when, in `Crossing.TornSpreadExact`).
- Replaying a delta may admit a bid the first pass refused (`Delta.ReplayCanChange`; exactly when, in
  `Delta.ReplayExact`); one replay is always enough to settle (`Delta.SecondReplaySettles`).
- Splitting an `l2update` reorders writes: a buy listed after a sell that it crosses may change its
  meaning (`Coinbase.LateCrossBreaksSplit`; exactly when, in `Splitting.SplitExact` and, for messages
  that remove a bid, set it again and remove it again, in `SplitProbes.SplitExactOnProbes`).
- When two threads handle deltas of one symbol, the last update a registered subscriber gets may carry
  an outdated top, for good (`Pipeline.StaleTopCanBeLast`); it never does exactly if no two threads bring
  messages of the symbol (`Pipeline.CurrentExactly`).

## Model

| member | source | states |
|---|---|---|
| Levels.FindRefines | src/core/OrderBook.cpp:64-74 | Looking a price up in the ordered container gives what the unordered map holds there |
| Levels.PutRefines | src/core/OrderBook.cpp:10-22 | Assigning a level in the ordered container is a map update, in either order |
| Levels.EraseRefines | src/core/OrderBook.cpp:24-32 | Erasing from the ordered container removes that price and no other |
| Levels.ReverseRefines | src/core/OrderBook.cpp:34-38 | Copying a container into the opposite order keeps its map, and copying back restores it |
| Levels.FrontIsBest | src/core/OrderBook.cpp:46-54 | `begin()` is the extreme price of the map: highest bid, lowest ask |
| Levels.SortedCanonical | src/core/OrderBook.cpp:96-104 | The map a container denotes determines the container |
| Levels.ToMapLastWins | src/core/MarketDataEngine.cpp:121-127 | When a snapshot lists a price more than once, its last-listed size is the one kept |
| BookSpec.GuardAgainstFront | src/core/OrderBook.cpp:12-20 | Testing the first opposite level decides whether the new level stays clear of all of them |
| Interleaving.DiamondExact | src/core/OrderBook.cpp:10-32 | Two single-level writes commute on every book if and only if they are independent: different prices on one side, not crossing on opposite sides, or both removals |
| Interleaving.Confluence | src/core/OrderBook.cpp:10-32 | Writers with mutually independent writes: all interleavings of the same programs end in the same book, from any book |
| Interleaving.InterleavingIsSerial | src/core/OrderBook.cpp:10-32 | Any interleaving of such programs ends as if each had run alone, one after the other |
| Crossing.CrossedPairsOnlyShrink | src/core/OrderBook.cpp:10-44 | Over any run without a snapshot the crossed pairs are exactly the old ones untouched by removals and clears |
| Crossing.UncrossedRun | src/core/OrderBook.cpp:10-44 | A book fed only uncrossed snapshots never crosses, in any interleaving |
| Crossing.TornSpreadPositive | src/core/OrderBook.cpp:56-58 | Either read order: the two-lock spread is positive unless the level read first is removed, or the book cleared or replaced, in between |
| Crossing.TornSpreadExact | src/core/OrderBook.cpp:46-58 | The spread stays positive whatever updates still intervene if and only if a level as good as the one read first is still resident |
| Crossing.RemovalTearsSpread | src/core/OrderBook.cpp:56-58 | For either read order, a run of one removal and one update between the two reads that makes the spread 0 on an uncrossed book |
| Crossing.SpreadAtRest | src/core/OrderBook.cpp:46-58 | With no writer in between and positive prices: positive exactly when there are asks and the book is uncrossed, negative exactly when there are bids and either no asks or an ask strictly below a bid |
| Crossing.SpreadCanBeNegative | src/core/OrderBook.cpp:46-58 | An uncrossed book, with bids alone, whose spread is negative |
| Delta.DeltaClosedForm | src/core/MarketDataEngine.cpp:159-174 | The two loops equal one merge per side: last entry wins at admitted prices, elsewhere only removals act; the asks merge against the new bids |
| Delta.EntryOrderIrrelevant | src/core/MarketDataEngine.cpp:159-174 | With distinct prices per side, permuting the entries of a delta changes nothing |
| Delta.DeltaMerges | src/core/MarketDataEngine.cpp:159-174 | A delta none of whose updates is refused is a last-writer-wins merge of both sides |
| Delta.ReplayKeepsAsks | src/core/MarketDataEngine.cpp:152-174 | Handling a delta again never changes the asks |
| Delta.ReplayExact | src/core/MarketDataEngine.cpp:152-174 | Handling a delta again is the identity if and only if every bid of it that the asks would now admit already rests at its last listed size |
| Delta.ReplayIdempotent | src/core/MarketDataEngine.cpp:152-174 | It is the identity when no bid of the delta was refused, even on a crossed book |
| Delta.ReplayCanChange | src/core/MarketDataEngine.cpp:152-174 | A delta whose replay does change the book |
| Delta.SecondReplaySettles | src/core/MarketDataEngine.cpp:152-174 | For every book and delta, the second replay changes nothing |
| Volume.VolumeUnderDelta | src/core/MarketDataEngine.cpp:159-174 | A delta moves each cumulative volume by the growth of the touched prices strictly beyond the given one |
| Volume.VolumeTelescopes | src/core/OrderBook.cpp:76-94 | The cumulative volumes at two adjacent levels differ by the size of the nearer one |
| Volume.VolumeMonotone | src/core/OrderBook.cpp:76-94 | With sizes that are not negative, cumulative volume grows away from the best price |
| OrderBooks.OrderBook.constructor | src/core/OrderBook.cpp:7-8 | A new book is empty |
| OrderBooks.OrderBook.UpdateBid | src/core/OrderBook.cpp:10-15 | Sets the bid if it is below every ask, else leaves the book as it was |
| OrderBooks.OrderBook.UpdateAsk | src/core/OrderBook.cpp:17-22 | Sets the ask if it is above every bid, else leaves the book as it was |
| OrderBooks.OrderBook.RemoveBid | src/core/OrderBook.cpp:24-27 | Removes that bid and nothing else |
| OrderBooks.OrderBook.RemoveAsk | src/core/OrderBook.cpp:29-32 | Removes that ask and nothing else |
| OrderBooks.OrderBook.SetSnapshot | src/core/OrderBook.cpp:34-38 | Replaces both sides by the two given ascending maps |
| OrderBooks.OrderBook.Clear | src/core/OrderBook.cpp:40-44 | Empties the book |
| OrderBooks.OrderBook.GetBestBid | src/core/OrderBook.cpp:46-49 | The highest bid of the map, 0 when there is none |
| OrderBooks.OrderBook.GetBestAsk | src/core/OrderBook.cpp:51-54 | The lowest ask of the map, 0 when there is none |
| OrderBooks.OrderBook.GetSpread | src/core/OrderBook.cpp:56-58 | Best ask minus best bid when no writer runs between the two reads |
| OrderBooks.OrderBook.GetMidPrice | src/core/OrderBook.cpp:60-62 | Half the sum of the two best prices, likewise |
| OrderBooks.OrderBook.GetBidVolume | src/core/OrderBook.cpp:64-68 | The size resting at a bid price, 0 when absent |
| OrderBooks.OrderBook.GetAskVolume | src/core/OrderBook.cpp:70-74 | The size resting at an ask price, 0 when absent |
| OrderBooks.OrderBook.GetCumulativeBidVolume | src/core/OrderBook.cpp:76-84 | The early-exit loop returns the sum of all bids strictly above the price |
| OrderBooks.OrderBook.GetCumulativeAskVolume | src/core/OrderBook.cpp:86-94 | The early-exit loop returns the sum of all asks strictly below the price |
| OrderBooks.OrderBook.GetBids | src/core/OrderBook.cpp:96-99 | The bids as an ascending map |
| OrderBooks.OrderBook.GetAsks | src/core/OrderBook.cpp:101-104 | The asks as an ascending map |
| OrderBooks.CopyOutAndIn | src/core/OrderBook.cpp:34-38 | `setSnapshot(getBids(), getAsks())` restores both containers although the bids change order twice |
| Coinbase.CoinbaseAdapter.HandleL2Update | src/exchanges/CoinbaseAdapter.cpp:400-424 | With a callback a delta of the product is passed on whose bids are the price and size of exactly the "buy" entries and whose asks are those of exactly the "sell" entries, each in list order; without one nothing is |
| Coinbase.WireOne | src/exchanges/CoinbaseAdapter.cpp:413-417 | In wire order a "buy" entry is one bid write, a "sell" entry one ask write, a removal if the size is 0, and any other entry none |
| Coinbase.SplitPreservesMeaning | src/exchanges/CoinbaseAdapter.cpp:409-418 | If no buy listed after a sell crosses it, all bids then all asks give the book of the wire order |
| Coinbase.HandledInWireOrder | src/exchanges/CoinbaseAdapter.cpp:409-422 | The same for the engine's books after it handled the delta of the message |
| Coinbase.BuysBelowSellsSplit | src/exchanges/CoinbaseAdapter.cpp:409-418 | In particular when every buy price is below every sell price |
| Coinbase.LateCrossBreaksSplit | src/exchanges/CoinbaseAdapter.cpp:409-418 | A sell followed by a buy that crosses it is not split faithfully on some book |
| Splitting.SplitExact | src/exchanges/CoinbaseAdapter.cpp:409-418 | A message that does not remove a bid, set it again and remove it again is split faithfully on every book if and only if (1) each final buy that crosses an earlier sell crosses an update shielded by a standing earlier buy priced between the two, and (2) a bid removed after a final sell update it crosses was removed before that sell too |
| SplitProbes.SplitExactOnProbes | src/exchanges/CoinbaseAdapter.cpp:409-418 | Any message is split faithfully on every book if and only if (1) holds and each final sell update gets in when the message is run in wire order on its finitely many probe books |
| Splitting.RevivalBreaks | src/exchanges/CoinbaseAdapter.cpp:409-418 | A message that removes a bid, sets it again and removes it again: (1) and (2) hold, yet it is not split faithfully |
| Splitting.LateCrossCanBeHarmless | src/exchanges/CoinbaseAdapter.cpp:409-418 | A message with a late cross that, taken whole, is still split faithfully on every book |
| Coinbase.PartsSplitExact | src/exchanges/CoinbaseAdapter.cpp:409-418 | A message and all its parts are split faithfully on every book if and only if no buy listed after a sell crosses it |
| Feed.StepsProject | src/core/MarketDataEngine.cpp:74-81 | In every interleaving each book is the fold of the writes addressed to it; no book appears, disappears or sees another symbol's writes |
| Feed.Projection | src/core/MarketDataEngine.cpp:110-187 | After any message log, the book of a symbol is the fold of that symbol's messages alone |
| Feed.HandleIsSteps | src/core/MarketDataEngine.cpp:152-174 | Handling a message is its block of locked writes with nothing in between |
| Feed.ConcurrentDeltas | src/core/MarketDataEngine.cpp:152-174 | Two concurrent delta handlers with independent writes give the book of either serial order |
| Feed.SnapshotErasesHistory | src/core/MarketDataEngine.cpp:110-130 | Engines of any two pasts agree on a symbol after the same snapshot and the same later messages for it |
| Feed.HandlersKeepNoZero | src/core/MarketDataEngine.cpp:110-174 | In every run made of writes of the handlers of messages whose snapshots, crossed or not, are free of zero sizes, no book ever holds a level of size zero |
| Feed.HandlersKeepUncrossed | src/core/MarketDataEngine.cpp:110-174 | In every run made of writes of the handlers of messages whose snapshots are uncrossed, whatever their sizes, no book is ever crossed |
| Feed.DeltaPublishesTop | src/core/MarketDataEngine.cpp:176-184 | After a delta the update has its symbol and timestamp, is no snapshot, and carries the best level of each side with its size, zeros for an empty side; the sizes are non-zero unless the book had a zero level |
| Feed.TornSizeIsZeroIffGone | src/core/MarketDataEngine.cpp:181-184 | With writers between the four reads, a size is zero exactly when its level was gone when the size was read |
| Feed.TornUpdateIsUncrossed | src/core/MarketDataEngine.cpp:181-184 | With any writers between the four reads, and both sides non-empty when read, the update of an uncrossed book is uncrossed unless the published bid is removed, or the book replaced, between the two price reads |
| Feed.TornUpdateHasSizes | src/core/MarketDataEngine.cpp:181-184 | With no zero size in the book or a snapshot in between, each size is non-zero if its side was not empty and its level is not removed before the size is read |
| Feed.PublishedIsUncrossed | src/core/MarketDataEngine.cpp:176-184 | In any run of handlers of messages without crossed snapshots, over all symbols and interleavings, a delta's update with two non-empty sides is uncrossed unless its bid is removed, or the book replaced, between the two price reads |
| Feed.PublishedWhileBacked | src/core/MarketDataEngine.cpp:181-182 | Even then it is uncrossed as long as a bid at least as high is there when the best ask is read |
| Feed.PublishedSizeIsZeroIffGone | src/core/MarketDataEngine.cpp:181-184 | In any run of handlers of messages without zero sizes in a snapshot, each size is zero exactly when its own level was gone when the size was read |
| Feed.PublishedHasSizes | src/core/MarketDataEngine.cpp:181-184 | In such a run each size is non-zero if its side was not empty and its level is not removed, nor the book replaced, before the size is read |
| Feed.SnapshotPublishes | src/core/MarketDataEngine.cpp:132-146 | After a snapshot the book is its two lists; the update has its symbol and timestamp, is flagged as a snapshot, and carries its best ask and its lowest bid, which is the best bid exactly when one distinct bid price is listed |
| Feed.SnapshotPublishesWorstBid | src/core/MarketDataEngine.cpp:132-146 | A snapshot with two bids whose update does not carry the best bid of the new book |
| Dispatch.Conservation | src/core/MarketDataEngine.cpp:93-108 | Over any run what was enqueued is what was delivered, dropped, held or pending, without duplicates and in each producer's order |
| Dispatch.CallbackDecides | src/core/MarketDataEngine.cpp:98-102 | From any state and as long as the registration is not changed: with a callback all that is handled is delivered, in that order; without one nothing is |
| Dispatch.RegistrationDecides | src/core/MarketDataEngine.cpp:70-102 | In every run: after a callback is registered and until it is taken away all that is handled is delivered; after it is taken away and until one is registered nothing is |
| Dispatch.StopStrands | src/core/MarketDataEngine.cpp:50-68 | After a stop request at most the update in flight is handled; once the dispatcher has exited nothing is, and nothing leaves the queue |
| Dispatch.RestartRecovers | src/core/MarketDataEngine.cpp:17-68 | After stop and initialize there is a run that hands over every update ever enqueued, each producer's in order, the pending ones in queue order |
| Dispatch.WorkBalance | src/core/MarketDataEngine.cpp:93-108 | In any run without a stop, the work left and the turns made equal the work at the start, three for each arrival and one for each failed dequeue |
| Dispatch.DoneExactly | src/core/MarketDataEngine.cpp:93-108 | While nothing arrives and nobody stops the engine, nothing is pending or held exactly when the dispatcher has acted as often as it had turns left, and twice more for each dequeue that failed although the queue was not empty |
| Dispatch.LongRunsHandOver | src/core/MarketDataEngine.cpp:17-108 | After a restart and any run with arrivals, once nothing arrives for a while in which the dispatcher acts three times for each update pending at the restart or arrived since, and twice more for each dequeue that failed although the queue was not empty, every update ever enqueued has been handed over, each producer's in order |
| Dispatch.RestartDelivers | src/core/MarketDataEngine.cpp:17-108 | In every such run with a callback registered, it is called from the restart on with exactly what the stop had stranded and what was enqueued since |
| Pipeline.UpdatesAreTops | src/core/MarketDataEngine.cpp:93-188 | In every run of handlers, dispatcher and queue in which one producer brings the messages of a symbol, whatever happens to other symbols, a callback that stays registered is called for the symbol with the tops of its book after each of its messages, in order and none left out; once the symbol is quiet, with all of them |
| Pipeline.TopsAt | src/core/MarketDataEngine.cpp:132-184 | The i-th of those tops is what the i-th message publishes from the book right after it |
| Pipeline.UpdatesIdentify | src/core/MarketDataEngine.cpp:132-179 | The i-th update received for a symbol with one producer has the symbol and timestamp of its i-th message and is flagged as a snapshot exactly if that was one |
| Pipeline.LastUpdateIsCurrent | src/core/MarketDataEngine.cpp:93-188 | Then, once the symbol is quiet and if its last message was a delta, the last update the callback was called with shows the top of the current book |
| Pipeline.AloneIsHandle | src/core/MarketDataEngine.cpp:110-188 | A handler whose writes and reads no other thread interleaves with changes that symbol's book by the whole message and enqueues its one update |
| Pipeline.StaleTopCanBeLast | src/core/MarketDataEngine.cpp:152-188 | For any books, any symbol and any two producers of it: a run with the callback registered that ends with all handlers idle and nothing waiting, whose last delivered update carries bid 10 while the best bid is 11 |
| Pipeline.CurrentExactly | src/core/MarketDataEngine.cpp:93-188 | For a symbol whose messages a given set of producers may bring: every quiet run leaves a registered subscriber up to date if and only if the set has no two members |
| Settling.HandlerProgress | src/core/MarketDataEngine.cpp:110-188 | While no message begins, whatever other threads do, each act of a thread brings its handler one act nearer to the end |
| Settling.BusyBalance | src/core/MarketDataEngine.cpp:110-188 | While no message begins, the updates enqueued are as many as the handlers that finish, one each |
| Settling.ComesToRest | src/core/MarketDataEngine.cpp:93-188 | Once no message begins and nobody stops the engine, every run in which the handlers under way get the acts they need, and the dispatcher then acts three times for each update waiting or yet to be enqueued and twice more for each dequeue that failed although the queue was not empty, ends with all handlers idle and nothing waiting |
| Settling.AllTopsArrive | src/core/MarketDataEngine.cpp:93-188 | Then a callback that stayed registered has been called, for each symbol with one producer, with the tops after all of its messages, in order |
| Engine.MarketDataEngine.Initialize | src/core/MarketDataEngine.cpp:17-48 | A no-op while running; else new empty books for the listed symbols, all other books kept, both handlers registered with every adapter, one receiver thread for each adapter and a dispatcher started |
| Engine.MarketDataEngine.Stop | src/core/MarketDataEngine.cpp:50-68 | Ends with the dispatcher exited and no receiver thread; books and queue change only by the messages that arrive while it waits, and at most one more update is handled |
| Engine.MarketDataEngine.RegisterCallback | src/core/MarketDataEngine.cpp:70-72 | The callback is present afterwards exactly if one was given, and nothing else changes, also while `stop` waits |
| Engine.MarketDataEngine.DispatcherStep | src/core/MarketDataEngine.cpp:93-108 | While running the guard leads to the dequeue, else out; an offered oldest update of its producer is held and leaves the queue, and otherwise nothing does; a held update is handled, delivered if there is a callback |
| Engine.LoopStepCounts | src/core/MarketDataEngine.cpp:93-108 | Each step of the loop is one of the actions Dispatch.DoneExactly counts, and a spurious failure exactly if the queue is not empty and what it offers is no oldest update |
| Engine.MarketDataEngine.HandOverFront | src/core/MarketDataEngine.cpp:97-102 | One pass of the loop of a running engine that finds something hands over the front of the queue |
| Engine.MarketDataEngine.HandOverPending | src/core/MarketDataEngine.cpp:97-107 | The loop of a running engine hands over all that is pending, in order, delivered exactly if there is a callback |
| Engine.MarketDataEngine.GetOrderBook | src/core/MarketDataEngine.cpp:74-81 | The shared book of a known symbol, null for an unknown one |
| Engine.MarketDataEngine.HandleArrival | src/core/MarketDataEngine.cpp:34-41 | A message that reaches a registered callback changes the books by that message and enqueues its one update, or nothing for an unknown symbol |
| Engine.MarketDataEngine.HandleOrderBookSnapshot | src/core/MarketDataEngine.cpp:110-150 | Replaces that symbol's book by the two lists, leaves all others, enqueues exactly one update with the snapshot's symbol, timestamp and flag; an unknown symbol changes and enqueues nothing |
| Engine.MarketDataEngine.HandleOrderBookDelta | src/core/MarketDataEngine.cpp:152-188 | Merges the delta into that symbol's book, leaves all others, enqueues exactly one update, the top of the new book with the delta's symbol and timestamp; an unknown symbol changes and enqueues nothing |
| Orders.OrderIdInjective | tests/unit/MockExchangeAdapter.cpp:74-76 | Different counter values give different order identifiers |
| Orders.OrderIdReads | tests/unit/MockExchangeAdapter.cpp:74-76 | An identifier is `MOCK_` and the counter in decimal digits without leading zeros |
| Orders.ReportTraces | tests/unit/MockExchangeAdapter.cpp:253-311 | Whenever the order lock is free, the reports of an order are nothing, NEW FILLED, CANCELED+, or CANCELED+ NEW CANCELED+ |
| Orders.ReportTracesExact | tests/unit/MockExchangeAdapter.cpp:69-125 | Each of those traces, and no other, is the trace of some order in some run while the lock is free |
| Orders.ObservedExact | tests/unit/MockExchangeAdapter.cpp:253-311 | At any moment, also between the two reports of one execution, an order's reports are the beginning of such a trace, and each beginning occurs |
| Orders.FinalStatuses | tests/unit/MockExchangeAdapter.cpp:97-125 | A filled order keeps status, amount and price and is never reported again; a canceled order stays canceled |
| Orders.FillsConserved | tests/unit/MockExchangeAdapter.cpp:292-310 | The filled amounts of all orders add up to the amounts of the FILLED reports, and an unfilled order has none |
| Orders.ReportsCarryFills | tests/unit/MockExchangeAdapter.cpp:112-310 | In every run every report has its order's client identifier; a FILLED one has the amount and price the order was filled with, and any other has zeros |
| Orders.HistoryMatches | tests/unit/MockExchangeAdapter.cpp:69-143 | Whether the adapter is connected, how many orders it accepted and what each asks for follow from the calls alone: the request as submitted, at the price and size last given |
| Orders.DisconnectedRefuses | tests/unit/MockExchangeAdapter.cpp:69-130 | Disconnected, submitting, canceling and modifying change nothing |
| Orders.FillsUseLatestTerms | tests/unit/MockExchangeAdapter.cpp:127-143 | Each fill has the price and size last given by the step that makes the FILLED report: earlier modifications count, later ones do not |
| Orders.ReceivedTraces | tests/unit/MockExchangeAdapter.cpp:145-148 | With a callback registered first and kept, it receives each order's whole report trace, one of the four shapes; with none registered, nothing |
| Orders.RegistrationDecides | tests/unit/MockExchangeAdapter.cpp:145-148 | In every run: from a registration on and until it is taken back the callback receives every report, and from then on none until the next |
| MockExchange.MockExchangeAdapter.SubmitOrder | tests/unit/MockExchangeAdapter.cpp:69-95 | Stores a NEW order under an identifier no order, thread or report had, and starts its execution thread; refuses when disconnected |
| MockExchange.MockExchangeAdapter.CancelOrder | tests/unit/MockExchangeAdapter.cpp:97-125 | Connected, cancels any known order that is not filled, canceled ones included, and reports it with zeros as its fill; says whether it did, and changes nothing if it did not |
| MockExchange.MockExchangeAdapter.ModifyOrder | tests/unit/MockExchangeAdapter.cpp:127-143 | Replaces price and size of the request of any known order, whatever its status, and reports nothing |
| MockExchange.MockExchangeAdapter.SimulateOrderExecution | tests/unit/MockExchangeAdapter.cpp:253-311 | Connected or not, reports NEW with zeros, then the cancellation with zeros, or the fill at the price and size of the request as it stands |
| MockExchange.MockExchangeAdapter.Promises | tests/unit/MockExchangeAdapter.cpp:69-143 | At any time every order's reports have one of the four shapes and carry its client identifier and its fill, or zeros; it is filled exactly when they are NEW FILLED; and the fills add up to the FILLED reports |

## Left out

- Splitting.SplitExact: leaves out messages that remove a bid, set it again and remove it again, for which its condition is necessary but not sufficient (Splitting.RevivalBreaks); SplitProbes.SplitExactOnProbes covers them.
- Engine.MarketDataEngine.HandleOrderBookDelta: its contract is for a handler no other writer interleaves with; Pipeline.AloneIsHandle ties it to the runs of Pipeline, where handlers interleave.
- Engine.MarketDataEngine.Stop: a message that arrives while it waits is handled as a whole between two actions of the dispatcher; receiver threads only sleep, and the moments at which they leave are not modelled.
- `initialize` and `stop` called at the same time from several threads, and a handler that still holds the book of a symbol while `initialize` replaces it; a run of Pipeline replaces no book.
- The logic inside the lock-free queue (a queue library is not part of this model): it keeps each producer's order and may refuse a dequeue at any time.
- Callbacks are present or absent; what a subscriber does inside one is not modelled, nor is a callback that calls back into the adapter.
- A callback registered in the middle of an execution step of the mock exchange: both reports of one step see the same callback.
- Order identifiers share one 64-bit counter across all adapters of a process; the model has one adapter, and its counter does not wrap around.
- `handle_snapshot_message` of the Coinbase adapter builds two lists from the message in order; not modelled.
- Parsing of JSON and numbers, and the exceptions that drop a malformed message as a whole.
- Rounding, signed zeros and NaN of floating-point prices and sizes.
- Binance and Kraken handlers, which copy lists that arrive already split by side.
- WebSocket, TLS, reconnection, authentication, logging, configuration, metrics and the components declared without bodies.
- Simulated market data, sleeps and wall-clock timestamps.
