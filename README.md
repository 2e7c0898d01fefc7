# Order-matching engine: a verified model

This project models the single-threaded core of a small C++ limit order book
and matching engine in Dafny, and proves properties of that model.

- **Instruments**: each instrument is keyed by its (instrument id, market
  identification code, trading currency) triple. The catalog accepts a triple
  only once.
- **Orders**: an order is a bid or an ask on an instrument. Before it reaches
  the book it is validated against the first catalog instrument that lists
  it. Its price must be positive and on the instrument's tick grid. Its
  quantity must be a positive whole number of lots.
- **The book**: each side is a map from price to a FIFO queue. Bids are kept
  best (highest) first, asks best (lowest) first.
- **Matching**: `matchOrders` runs passes while the best bid is at or above
  the best ask. Each pass scans the two best queues in arrival order for the
  first compatible bid/ask pair (same instrument, market and currency). It
  trades the smaller of the two quantities at the ask's price, numbers the
  trade and reports it to the engine. It then removes every order left with
  nothing and every emptied level. A pass that finds no pair cleans up and
  ends the loop.
- **The engine**: it is bound to a book and a catalog created elsewhere and
  keeps the trading statistics. Its run loop resets the daily statistics once a day, makes one
  matching attempt per iteration, sweeps expired good-till-date (GTD) orders
  once an hour, and stamps a status time every half minute.

The files:

| file | module | what it holds |
|---|---|---|
| `wrappers.dfy` | `Wrappers` | `Option`, `Min` |
| `instrument.dfy` | `Instruments` | the instrument record and its bounded name buffer |
| `order.dfy` | `Orders` | the order record, its constructors, price and quantity validation |
| `trading.dfy` | `Trading` | the trade record and sums over runs of trades |
| `statistics.dfy` | `Statistics` | the statistics record and what each update does to it |
| `catalog.dfy` | `Catalog` | the uniqueness helpers and the `InstrumentManager` class |
| `levels.dfy` | `Levels` | one side of the book as a sequence of price levels |
| `matching.dfy` | `Matching` | the book as a value and the specification of matching, cleanup and the GTD sweep |
| `engine.dfy` | `Engine` | the `OrderBook` and `MatchingEngine` classes, proved against `Matching` |

Units and representation:

- Prices are integers in units of 10^-8 of the currency.
- Times are integers counting seconds since the epoch.
- Volumes are quantity times price in those units.
- A book side is a sequence of levels in map order. `Levels.AsMap` turns it
  back into the map it stands for.

`OrderBook` and `MatchingEngine` are classes whose methods update their
fields in place. Each method's postcondition ties the new state to a
specification function of `Matching` or `Statistics`, whose properties are
proved as lemmas.

## Model

| member | source | states |
|---|---|---|
| Instruments.NewInstrument | MatchingEngine/src/Instrument.cpp:33-45 | every argument lands in its own field; the name buffer holds 50 characters, ends in NUL and reads back as the given name cut at its first NUL and at 49 characters |
| Instruments.NameRoundTrip | MatchingEngine/src/Instrument.cpp:43-44 | the bounded copy plus the forced final NUL reads back as the input cut at 49 characters; a short NUL-free name comes back unchanged |
| Instruments.StateName | MatchingEngine/src/Instrument.cpp:64-78 | the printed name is "DELISTED" exactly for the DELISTED state |
| Instruments.StateNameInjective | MatchingEngine/src/Instrument.cpp:64-78 | the printed state name identifies the state: two states print alike exactly when they are equal |
| Orders.DefaultOrder | MatchingEngine/src/Order.cpp:23-38 | zero ids, price and quantities, empty strings, DAY / BID / LIMIT, and both time stamps at the current time |
| Orders.NewOrder | MatchingEngine/src/Order.cpp:57-75 | the GTD constructor copies every argument, the expiration date included, into its field |
| Orders.NewDayOrder | MatchingEngine/src/Order.cpp:95-114 | the constructor without an expiration date is the full constructor with the epoch as expiration date |
| Orders.ValidatePrice | MatchingEngine/src/Order.cpp:167-198 | validatePrice's decision; `ValidatePriceMeansTick` proves it accepts exactly the positive prices on the tick grid |
| Orders.ValidateQuantity | MatchingEngine/src/Order.cpp:211-235 | validateQuantity's decision, defined wherever the source does not divide by zero; `ValidateQuantityMeansLots` proves it agrees with the C++ remainder |
| Orders.ValidatePriceMeansTick | MatchingEngine/src/Order.cpp:167-198 | validatePrice accepts exactly the positive prices that are whole numbers once multiplied by 10^pricedecimal |
| Orders.ValidateQuantityMeansLots | MatchingEngine/src/Order.cpp:211-235 | validateQuantity accepts exactly the positive quantities whose C++ remainder by the lot size is zero |
| Statistics.Zeroed | MatchingEngine/src/MatchingEngine.cpp:28-34 | all six counters at zero and the reset time at the given clock reading |
| Statistics.DailyReset | MatchingEngine/src/MatchingEngine.cpp:363-370 | the daily trade count, daily volume, attempts and successful matches go to zero; the totals stay; the reset time moves to now |
| Statistics.Recorded | MatchingEngine/src/MatchingEngine.cpp:380-392 | one updateStats call; `RecordedAllEffect` gives its effect on every field over a run of trades |
| Statistics.RecordedAllEffect | MatchingEngine/src/MatchingEngine.cpp:380-392 | reporting a run of trades adds its length to both trade counts and to the successful matches, adds its notional value to both volumes, and leaves the attempts and the reset time alone |
| Statistics.IntakeCountsLastTradeTwice | MatchingEngine/src/MatchingEngine.cpp:426-434 | an accepted order that executes m > 0 trades raises both trade counts and the successful matches by m + 1 and the total volume by the notional of all trades plus that of the last one |
| Statistics.IntakeWithoutTrades | MatchingEngine/src/MatchingEngine.cpp:426-434 | an accepted order that executes nothing leaves the statistics unchanged |
| Statistics.TickCounts | MatchingEngine/src/MatchingEngine.cpp:69-87 | one loop iteration counts one attempt and each of its m trades twice in the successful matches but once in the trade counts and volumes, after an optional daily reset |
| Statistics.ResetAfterRecording | MatchingEngine/src/MatchingEngine.cpp:363-370 | a reset forgets exactly the daily part of what was recorded before it; the totals keep every trade |
| Catalog.IsUniqueInstrument | MatchingEngine/src/Utils.cpp:23-29 | the triple is not yet in the set; `AddKey` and `DuplicateByTripleOnly` state what it decides |
| Catalog.AddKey | MatchingEngine/src/Utils.cpp:44-55 | the result is true exactly when the triple was absent; the set then gains the triple and is otherwise unchanged |
| Catalog.AddKeyTwice | MatchingEngine/src/Utils.cpp:44-55 | adding a new instrument succeeds and grows the set by one; adding it again fails and leaves the set as it was |
| Catalog.DuplicateByTripleOnly | MatchingEngine/src/Utils.cpp:23-29 | uniqueness looks only at the triple: a second instrument with the same triple is refused whatever else differs |
| Catalog.InstrumentManager.constructor | MatchingEngine/include/InstrumentManager.hpp:27-30 | an empty catalog: no instruments and no triples |
| Catalog.InstrumentManager.AddInstrument | MatchingEngine/src/InstrumentManager.cpp:25-48 | a new triple is appended to the vector and added to the set; a known one changes nothing; the vector never holds two instruments with the same triple and the set is exactly its triples |
| Catalog.InstrumentManager.GetInstruments | MatchingEngine/src/InstrumentManager.cpp:59-62 | the instruments in insertion order, with distinct triples that are exactly the set's |
| Levels.AddToSide | MatchingEngine/src/OrderBook.cpp:49-61 | every level of the result was already there or sits at the order's price; `AddToSideOrdered`, `AddToSideMap`, `AddToSideCount` and `AddToSideHomed` give the rest |
| Levels.AddToSideOrdered | MatchingEngine/src/OrderBook.cpp:49-61 | inserting an order keeps the side in strict map order |
| Levels.AddToSideMap | MatchingEngine/src/OrderBook.cpp:49-61 | as a map, inserting changes only the entry at the order's price, which gains the order at its tail or is created holding just the order |
| Levels.AddToSideCount | MatchingEngine/src/OrderBook.cpp:49-61 | inserting adds exactly one resting order |
| Levels.AddToSideHomed | MatchingEngine/src/OrderBook.cpp:49-61 | inserting an order of the side's type keeps every order under its own price key |
| Levels.RemoveIfMembers | MatchingEngine/src/OrderBook.cpp:170-174 | remove_if plus erase keeps exactly the orders the predicate does not select |
| Levels.RemoveIfAppend | MatchingEngine/src/OrderBook.cpp:170-174 | remove_if is stable: filtering commutes with concatenation, so survivors keep their FIFO order |
| Levels.RemoveIfCount | MatchingEngine/src/OrderBook.cpp:170-174 | remove_if removes exactly the number of selected orders |
| Levels.RemoveExecutedQuantity | MatchingEngine/src/OrderBook.cpp:170-174 | removing zero-quantity orders keeps the queue's total remaining quantity |
| Levels.CleanSide | MatchingEngine/src/OrderBook.cpp:165-202 | after cleanup no level is empty and no order has zero quantity |
| Levels.CleanSideWellFormed | MatchingEngine/src/OrderBook.cpp:165-202 | cleanup keeps the side in map order with every order under its own key |
| Levels.CleanSideOfCompact | MatchingEngine/src/OrderBook.cpp:165-202 | cleanup is idempotent: a side without empty levels or executed orders is left as it is |
| Levels.CleanSidePositive | MatchingEngine/src/OrderBook.cpp:165-202 | on a side without negative quantities, cleanup leaves only orders with something left |
| Levels.CleanSideCount | MatchingEngine/src/OrderBook.cpp:165-202 | cleanup removes exactly the executed orders and keeps the side's total remaining quantity |
| Levels.SweepSide | MatchingEngine/src/MatchingEngine.cpp:316-329 | every level stays at its place with its queue filtered; `SweepSideMembers`, `SweepCount` and `SweepSideWellFormed` say what the filter keeps |
| Levels.SweepCount | MatchingEngine/src/MatchingEngine.cpp:314-349 | the GTD sweep removes exactly the expired orders it counts |
| Levels.SweepSideMembers | MatchingEngine/src/MatchingEngine.cpp:316-329 | every level stays, and it keeps exactly its DAY orders and its GTD orders that expire after now |
| Levels.SweepSideWellFormed | MatchingEngine/src/MatchingEngine.cpp:314-349 | the sweep keeps the side in map order with every order under its own key |
| Matching.FirstPair | MatchingEngine/src/OrderBook.cpp:90-148 | the pair found is compatible, and every bid scanned before it has no compatible ask |
| Matching.FirstPairMeans | MatchingEngine/src/OrderBook.cpp:90-148 | the pair traded is the first compatible one in scan order (bids in FIFO order, then asks in FIFO order); with no pair, no bid/ask of the two queues is compatible |
| Matching.PassTradeFacts | MatchingEngine/src/OrderBook.cpp:111-134 | a trade joins two compatible orders, carries the next trade id, both order ids, the bid's market and currency and the clock reading, is priced at the ask, which the best bid reaches, is for the smaller quantity and is appended to the ledger; each of the two orders loses exactly that quantity, so at least one is left with nothing, and every other order and level is unchanged |
| Matching.PassShrinks | MatchingEngine/src/OrderBook.cpp:129-151 | every pass that trades takes at least one order off the book, so the loop ends |
| Matching.MatchAll | MatchingEngine/src/OrderBook.cpp:74-156 | matchOrders on a book value; its properties are the `MatchAll*` lemmas below |
| Matching.MatchAllStep | MatchingEngine/src/OrderBook.cpp:79-153 | an uncrossed book is left alone, a crossed book with no compatible pair is cleaned up, and a crossed book with one matches on from the book after the trade and cleanup |
| Matching.MatchAllOneSided | MatchingEngine/src/OrderBook.cpp:79 | with either side empty, matchOrders changes nothing |
| Matching.MatchAllCompact | MatchingEngine/src/OrderBook.cpp:79-153 | an uncrossed book is left exactly as it is; a crossed one comes out with no empty level and no executed order |
| Matching.MatchAllSettles | MatchingEngine/src/OrderBook.cpp:79-153 | on a compact book, matching ends with one side empty, the best bid below the best ask, or no compatible pair at the two best levels |
| Matching.MatchAllLedger | MatchingEngine/src/OrderBook.cpp:114-126 | the old trades stay in place; the new ones carry consecutive ids from the book's next id, which moves past them |
| Matching.MatchAllWellFormed | MatchingEngine/src/OrderBook.cpp:74-156 | matching keeps both sides in map order with every order under its own price key, and the trade ids numbered 1, 2, 3, ... |
| Matching.MatchAllConserves | MatchingEngine/src/OrderBook.cpp:112-131 | each side's total remaining quantity falls by exactly the quantity of the new trades |
| Matching.MatchAllKeepsPositive | MatchingEngine/src/OrderBook.cpp:129-151 | on a book whose orders all have something left, matching leaves only such orders |
| Matching.MatchAllPositive | MatchingEngine/src/OrderBook.cpp:112-122 | on such a book every trade matching makes has a positive quantity |
| Matching.PlacedEffect | MatchingEngine/src/OrderBook.cpp:49-61 | addOrder puts the order at the tail of the queue at its price on its own side and leaves the other side, the ledger and every other queue alone; the book gains one order and stays well-formed |
| Matching.SweptEffect | MatchingEngine/src/MatchingEngine.cpp:308-355 | the GTD sweep keeps the book well-formed and its ledger, and removes exactly the expired GTD orders |
| Engine.CompactLevels | MatchingEngine/src/OrderBook.cpp:168-183 | the cleanup loop over one side computes the cleaned side |
| Engine.SweepLevels | MatchingEngine/src/MatchingEngine.cpp:314-330 | the sweep loop over one side computes the swept side and counts the orders it removed |
| Engine.FindPair | MatchingEngine/src/OrderBook.cpp:90-148 | the nested scan finds the first compatible pair in scan order, or none |
| Engine.FindListed | MatchingEngine/src/MatchingEngine.cpp:409-414 | the first catalog instrument with the order's triple, or none when no instrument has it |
| Engine.Accepts | MatchingEngine/src/MatchingEngine.cpp:409-435 | addAndValidateOrder's decision; `AcceptsMeans` and `AddAndValidateOrder` state it |
| Engine.AcceptsMeans | MatchingEngine/src/MatchingEngine.cpp:406-442 | an order is accepted exactly when the first catalog instrument that lists it sees a positive price on its tick grid and a positive quantity whose C++ remainder by its lot size is zero; an order no instrument lists is refused |
| Engine.StartClock | MatchingEngine/src/MatchingEngine.cpp:57-59 | the loop starts with all three time stamps at its first clock reading |
| Engine.NextClock | MatchingEngine/src/MatchingEngine.cpp:69-109 | each time stamp moves to now exactly when more than its interval (a day, an hour, 30 seconds) has passed |
| Engine.NoActionTwiceWithinInterval | MatchingEngine/src/MatchingEngine.cpp:69-109 | once an action has run, it is not due again within its own interval: a day for the reset, an hour for the GTD sweep, 30 seconds for the status update |
| Engine.OrderBook.constructor | MatchingEngine/src/OrderBook.cpp:21-23 | an empty book whose first trade will be number 1, reporting to no engine |
| Engine.OrderBook.SetMatchingEngine | MatchingEngine/include/OrderBook.hpp:78 | the book reports to the given engine |
| Engine.OrderBook.NotifyMatch | MatchingEngine/src/OrderBook.cpp:33-39 | the engine, when there is one, records the trade; nothing else changes |
| Engine.OrderBook.AddOrder | MatchingEngine/src/OrderBook.cpp:49-61 | the book becomes `Placed(old book, order)`: well-formed and one order larger |
| Engine.OrderBook.CleanupExecutedOrders | MatchingEngine/src/OrderBook.cpp:165-202 | the book becomes its cleanup |
| Engine.OrderBook.GetLastTrade | MatchingEngine/src/OrderBook.cpp:288-291 | none exactly when the ledger is empty, otherwise its last trade |
| Engine.OrderBook.ExecutePass | MatchingEngine/src/OrderBook.cpp:111-134 | the pass's trade is made, appended, reported to the engine, and both orders lose its quantity |
| Engine.OrderBook.MatchPass | MatchingEngine/src/OrderBook.cpp:79-152 | one pass: with no pair the book is where matching stops and nothing is reported; with one, a trade is appended and reported, and the book has fewer orders and matches to the same end |
| Engine.OrderBook.MatchOrders | MatchingEngine/src/OrderBook.cpp:74-156 | the book becomes `MatchAll(old book)`; the result is the number of trades appended; the old ledger is kept; the engine recorded each new trade in order; a well-formed book stays so |
| Engine.MatchingEngine.constructor | MatchingEngine/src/MatchingEngine.cpp:24-36 | a stopped engine with zeroed statistics, bound to its book and catalog and registered with the book |
| Engine.MatchingEngine.Start | MatchingEngine/src/MatchingEngine.cpp:126-145 | the engine runs afterwards; a stopped engine has its statistics zeroed, a running one keeps them |
| Engine.MatchingEngine.Stop | MatchingEngine/src/MatchingEngine.cpp:150-161 | the engine is stopped |
| Engine.MatchingEngine.IsEngineRunning | MatchingEngine/src/MatchingEngine.cpp:168-171 | true exactly while the engine runs |
| Engine.MatchingEngine.ResetDailyStats | MatchingEngine/src/MatchingEngine.cpp:363-370 | the statistics become their daily reset |
| Engine.MatchingEngine.UpdateStats | MatchingEngine/src/MatchingEngine.cpp:380-392 | the statistics record one more trade |
| Engine.MatchingEngine.CheckGTDOrders | MatchingEngine/src/MatchingEngine.cpp:308-355 | both sides lose their expired GTD orders, emptied levels stay, the result counts the removed orders, and the book stays well-formed |
| Engine.MatchingEngine.Admit | MatchingEngine/src/MatchingEngine.cpp:416-435 | an accepted order is added and the book matched; the statistics record every new trade and the last one once more |
| Engine.MatchingEngine.AddAndValidateOrder | MatchingEngine/src/MatchingEngine.cpp:406-443 | the order is accepted exactly when the first instrument listing it validates its price and quantity; then it is added and matched; otherwise book and statistics are unchanged |
| Engine.MatchingEngine.MatchAttempt | MatchingEngine/src/MatchingEngine.cpp:78-87 | one more attempt is counted, the book is matched, and the matches are credited once more to the successful matches |
| Engine.MatchingEngine.Tick | MatchingEngine/src/MatchingEngine.cpp:61-117 | one loop iteration: the daily reset when due, a matching attempt, the GTD sweep when due, and the time stamps moved as `NextClock` says |

## Left out

- Threads, atomics, mutexes and the `try`/`catch` around the loop body are not modelled. The model is the single-threaded behaviour, with each atomic counter a plain integer.
- Console output and the `display*` functions are not modelled. This covers the messages of `addAndValidateOrder`, `checkGTDOrders`' printed count, the status display of the run loop (reduced to its time stamp) and `displayGTDOrders` after the sweep.
- Floating point is not modelled. Prices are integers in units of 10^-8 and volumes are exact integer products, so validatePrice's `pow`/`round`/1e-8 tolerance becomes exact divisibility on that grid.
- Fixed-width integer overflow is not modelled: counts, ids and quantities are unbounded integers.
- Clock reads are parameters. Every method that reads the clock takes `now`, and one matchOrders call uses a single `now` for all its trades where the source reads the clock per trade. Engine.MatchingEngine.Tick passes its one reading to the daily reset and the GTD sweep, where the source reads the clock again inside resetDailyStats and checkGTDOrders.
- Engine.MatchingEngine.Tick: the run loop itself (`while (isRunning)` with a one-second sleep) is left out. The model gives one iteration as `Tick` with its clock readings as parameters.
- Engine.MatchingEngine.Start: the engine thread is not launched. Engine.MatchingEngine.Stop: the thread join is left out.
- Orders.ValidateQuantity: it requires a nonzero lot size for a positive quantity, because the C++ `%` by zero is undefined behaviour. A quantity that is not positive is refused before the division, with any lot size. Engine.MatchingEngine.AddAndValidateOrder requires this only where the source performs that division (`LotSizeUsable`).
- Out-of-range enum values cannot arise in the model. This covers an `OrderType` that is neither BID nor ASK, which addOrder silently ignores. It also covers a `State` outside the four named ones, which the state switch's `default:` branch prints as DELISTED.
- Instruments.NewInstrument: one model character stands for one C++ `char`, that is one byte. The source's `strncpy` counts bytes, so a name with multi-byte UTF-8 characters is cut by its encoded length, possibly in the middle of a character. The model counts characters and does not capture this.
- The destructor and the Qt widgets (MainWindow, CreateInstrumentWidget) and Main.cpp are not part of this model.
