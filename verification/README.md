# Verified model of the cmarket matching engine

cmarket is a limit-order matching engine with a price-time priority book, layered position, risk and impact accounting, and a
single-worker concurrent front end. This project models its core in Dafny and proves what the design promises of it.

## How the model is built

- **Values and objects.** `EngineModel` describes the engine as a value (`Engine`: book, order vector, trade log, id and sequence
  counters) with one deterministic function per command. The classes `OrderBook`, `OrderManager`, `TradeStore`,
  `OrderIdGenerator` and `MatchingEngine` follow the C++ statement by statement (loops, journals, catch blocks) and their methods
  are proved equal to those functions. Theorems about runs are proved on the values.
- **Specifications of specifications.** What a command function computes is stated again in `Answers`, `Sweeps`, `Priority` and
  `Ledgers` without reference to its definition: by the answer, the trades, the log and the orders before and after.
- **The id index and the two priority sets** are separate fields of `OrderManager`. `Valid()` says that they agree with the order
  vector, and the vector determines them, so a rollback that restores the vector restores all three.
- **The book** is a strictly sorted vector of levels. The engine invariant says that each level is the sum of the remaining
  quantities of the orders at that price; this determines the book (`OrdersDetermineBook`), which is why rollbacks are exact.
- **Exceptions** are a `Result`. The sites where the program can run out of memory on a forward step ask a `Memory` object, which
  numbers the requests and whose arbitrary `exhausted` predicate decides which of them fail. Code inside catch blocks does not run out of memory.
- **One sweep for three callers.** Market orders, crossing limit orders and price changes repeat the same matching loop in the
  source. `SweepResting` is that loop, `UndoJournal` the rollback loop; their parameters are the points where the copies differ.
- **External book.** While orders are active only the engine writes the book. With no active order the book may be any
  well-formed snapshot from a feed (`Publish`), and the first local order discards it.
- **Concurrency** is a step relation: each region under the queue's mutex is one atomic move, and a schedule is any sequence of
  enabled moves of any number of producers and the one worker.

## Findings

In each case the condition is one on the state, the arguments and the first failing allocation request, all fixed before the call.

- **A fill can be lost and its quantity left in the book.** In `execute_market_order` and in a price-changing `modify_order` the
  journal entry is pushed before the trade is recorded, and rollback adds every entry's quantity back to the book
  (src/matching_engine.cpp:233-278, src/matching_engine.cpp:1036-1065). Number the requests from the call on: a pass of the market
  loop makes three (push, record, collect), a pass of a price change two. Fill `k` of the planned trades is lost exactly when the
  first failing request is in pass `k` and is not its push (`LosesFill`). `ModifyOrder` restores the exact prior state if and only
  if no planned fill is lost; `ExecuteMarketOrder` likewise, with one exception (next item). Both say what a lost fill leaves
  behind, `OverfedBreaksInvariant` that the engine invariant is then gone, and `GapExample` is a concrete instance.
  `place_limit_order` restores the book from a backup and is all-or-nothing without exception.
- **The rollback itself can throw.** When the lost fill's level on entry has no room for the excess, re-adding overflows inside the
  catch block. `StuckIsStranded` and the two methods say where it stops and what state that leaves: orders from before one fill,
  the book from after it with the excess, and a trade log that was not rolled back. A market order that loses the recording of its
  first fill throws before anything has changed; that is the exception above. `AbortExample` is an instance.
- **A committed execution can stay unbooked.** The risk-managed path books fills after the engine has committed them. When the
  symbol has no position yet and there is no memory for one, the engine keeps the execution, the positions do not change and the
  next risk check does not see it. `ExecuteMarket` states exactly when (`Unbooked`); `UnbookedExample` is an instance. The limit
  theorem is about booked positions.
- **A removal record can be restored in the wrong place.** `restore_removal` does not check the slot of a record that involved no
  swap. Its indexes are right afterwards if and only if the vector has the length the removal left (`RestoreRemoval`); the engine
  always restores in reverse, where this holds (`LifoRestoration`). `OutOfOrderExample` is an instance.
- **A level at price zero stops a market order.** A snapshot may hold such a level (src/order_book.cpp:149-168) but a trade may
  not, so a market order against an external book is refused exactly when it would reach it (`MatchBookRejection`).

## Model

| member | source | states |
|---|---|---|
| Levels.MapDeterminesLevels | src/order_book.cpp:318-543 | a well-formed side is determined by the price-to-quantity map it denotes |
| Levels.AdjustRefinesMap | src/order_book.cpp:432-543 | an accepted adjustment keeps the side strictly sorted and representable and changes the map at one price only |
| Levels.AdjustmentIsExact | src/order_book.cpp:432-543 | the new total at the price alone decides: accepted from zero to INT64_MAX, overflow above, invalid below or at a negative price |
| Levels.AdjustThenUndo | src/order_book.cpp:432-543 | adjusting by a delta and then by its negation raises nothing and is the identity on the level list |
| OrderBooks.LowerBound | src/order_book.cpp:330-344 | binary search returns the boundary between better levels and the rest |
| OrderBooks.AdjustLevels | src/order_book.cpp:432-543 | the binary-search update equals the reference walk, with overflow, underflow and bad price raised exactly as the map says |
| OrderBooks.UpdateLevels | src/order_book.cpp:318-430 | setting a level equals the reference walk by the difference from the old total; rejected exactly on negative price or quantity |
| OrderBooks.NormalizeLevels | src/order_book.cpp:183-316 | normalisation accepts exactly non-negative snapshots whose per-price totals fit, and returns the sorted list of those totals; a refusal is for the first level at which that fails, and says which way |
| OrderBooks.SnapshotOrderIrrelevant | src/order_book.cpp:183-316 | a snapshot and any reordering of it are accepted or refused together and normalise to the same list |
| OrderBooks.CalculateDepth | src/order_book.cpp:545-572 | depth is the exact sum, or overflow exactly when the sum does not fit |
| OrderBooks.OrderBook.Adjust | src/order_book.cpp:784-834 | the adjusted side is the reference walk of the old one; a refused adjustment leaves the book unchanged |
| OrderBooks.OrderBook.Update | src/order_book.cpp:752-782 | the new map is the old one with one price overwritten; a refused update leaves the book unchanged |
| OrderBooks.OrderBook.ReplaceSnapshot | src/order_book.cpp:708-734 | both sides are replaced by their normal forms or, if either is unacceptable, nothing changes and the error is that of the first fault |
| OrderBooks.OrderBook.Best | src/order_book.cpp:856-882 | the best level is the one every other level of its side is strictly worse than |
| OrderBooks.OrderBook.Depth | src/order_book.cpp:928-960 | reported depth is the smaller of the true sum and INT64_MAX |
| Orders.BestIsBest | src/order_manager.cpp:644-666 | the linear-scan optimum strictly precedes every other order of its side |
| Orders.RemoveAtContents | src/order_manager.cpp:202-235 | removal by swapping with the back removes that order and no other |
| OrderManagers.RestoreUndoesRemoval | src/order_manager.cpp:354-505 | a removal record fits the vector the removal left, and restoring it gives the vector back with the given quantity |
| OrderManagers.LifoRestoration | src/order_manager.cpp:238-505 | any sequence of removals restored in reverse gives back the identical vector and no restoration raises |
| OrderManagers.VectorDeterminesIndex | src/order_manager.cpp:354-505 | the vector determines the id index, so restoring the vector restores the index |
| OrderManagers.RemoveConsistent | src/order_manager.cpp:150-236 | swap-with-back removal keeps the id map a bijection onto slots and both priority sets exact |
| OrderManagers.RestoreConsistent | src/order_manager.cpp:354-505 | restoring a fitting record keeps all indexes exact and inserts no duplicate |
| OrderManagers.OrderManager.Find | src/order_manager.cpp:606-642 | the id map finds the slot holding the id, or none when no order has it |
| OrderManagers.OrderManager.BestOrder | src/order_manager.cpp:644-666 | the head of the priority set is the linear-scan optimum over the vector |
| OrderManagers.OrderManager.AddOrder | src/order_manager.cpp:62-148 | appends the order with all indexes, or restores them; refused exactly for an inadmissible order or a taken id |
| OrderManagers.OrderManager.CancelOrder | src/order_manager.cpp:150-236 | removes exactly the order with this id; the logic errors are unreachable |
| OrderManagers.OrderManager.RemoveOrder | src/order_manager.cpp:238-352 | the same removal, returning the record from which it can be undone |
| OrderManagers.CheckedAgainstVector | src/order_manager.cpp:437-504 | a genuine record past the entry checks meets no duplicate node, and leaves the indexes right if and only if it was swapped or goes back to the end it came from |
| OrderManagers.OrderManager.RestoreRemoval | src/order_manager.cpp:354-505 | a record refused by the entry checks changes nothing; past them the vector is the restored one and the record is spent, so it is refused a second time; a genuine record is always restored, and the indexes are valid if and only if an unswapped one goes back to the end |
| OrderManagers.OrderManager.UpdateSequence | src/order_manager.cpp:507-604 | rewrites one order's sequence number and its priority key, or changes nothing |
| OrderManagers.OrderManager.SetQuantities | src/matching_engine.cpp:286-287 | writing quantities through the found pointer leaves every index valid |
| TradeStores.RollbackUndoesRecords | include/trade_store.hpp:23-95 | rollback to a checkpoint after any records is the identity, counters included; records keep the log ordered |
| TradeStores.TradeStore.RecordTrade | include/trade_store.hpp:23-59 | appends one numbered trade, or leaves log and counters alone; refused exactly for non-positive price or quantity |
| TradeStores.TotalsAdd | src/matching_engine.cpp:266-278 | volume and notional add up over any split of the fills |
| TradeStores.AverageIsFloor | src/matching_engine.cpp:357-368 | the average times the executed quantity is at most the notional, and one more tick would exceed it; absent exactly when nothing executed |
| TradeStores.AverageUnique | src/matching_engine.cpp:357-368 | no other average has this property |
| TradeStores.AveragePrice | src/matching_engine.cpp:357-368 | the reported average is the truncated exact average of the fills, and absent exactly when nothing executed |
| TradeStores.TradeStore.Rollback | include/trade_store.hpp:72-95 | truncates to the checkpoint, or refuses a checkpoint newer than the log and changes nothing |
| TradeStores.TradeStore.Clear | include/trade_store.hpp:104-107 | empties the log and keeps both counters |
| TradeStores.OrderIdGenerator.Next | include/order_id_generator.hpp:24-41 | hands out consecutive ids and raises exactly when exhausted, without moving |
| EngineInvariant.OrdersDetermineBook | src/matching_engine.cpp:17-36 | two books that show the same active orders are equal |
| EngineInvariant.OpenQuantityFits | src/matching_engine.cpp:832-838 | taking an open order's quantity, or part of it, out of the book never raises |
| EngineInvariant.FillKeepsLive | src/matching_engine.cpp:709-753 | one trade keeps orders, levels and log in step |
| EngineInvariant.MatchKeepsLive | src/matching_engine.cpp:493-555 | a whole sweep does, and an unfilled taker is left with nothing it could still trade with |
| EngineInvariant.MatchSparesOwnSide | src/matching_engine.cpp:493-555 | a sweep leaves every level of the taker's own side as it was |
| EngineInvariant.TouchIsBestOrder | src/matching_engine.cpp:38-60 | the touch of the book is the price of the highest-priority order |
| EngineInvariant.CrossingAgrees | src/matching_engine.cpp:38-60 | `crosses_order_book` agrees with `find_best_match` |
| EngineInvariant.BookUncrossed | src/matching_engine.cpp:448-469 | while orders are active the best bid is below the best ask |
| EngineInvariant.CrossingLandsOnEmptyLevel | src/matching_engine.cpp:557-569 | a crossing order's own side has no level at its price, so its residual cannot overflow |
| EngineInvariant.EnterRejection | src/matching_engine.cpp:448-569 | an incoming order is refused exactly when it does not cross and its own level would overflow |
| EngineInvariant.PlaceRejection | src/matching_engine.cpp:401-468 | a valid limit order is refused exactly on id exhaustion or a non-crossing level overflow |
| EngineInvariant.ModifyRejection | src/matching_engine.cpp:850-1099 | a valid modification is refused exactly when, with the order withdrawn, the new price does not cross and its level would overflow |
| EngineInvariant.MatchBookRejection | src/matching_engine.cpp:89-157 | a market order against an external book is refused exactly when it reaches a level at price zero |
| EngineInvariant.MarketKeepsInv | src/matching_engine.cpp:62-371 | market execution keeps the invariant and never fails against active orders |
| EngineInvariant.StepKeepsInv | src/concurrent_matching_engine.cpp:369-575 | every command keeps the invariant |
| EngineInvariant.RunKeepsInv | src/matching_engine.cpp:38-1193 | after every run of commands and snapshots: sorted positive levels that sum the orders, uncrossed touch, and agreement of the two crossing tests |
| EngineInvariant.ModifyIsCancelThenPlace | src/matching_engine.cpp:947-1101 | a price change equals cancellation followed by placement under the same id with a fresh sequence number, and is refused in the same cases |
| Queues.SortedUnique | include/order_manager.hpp:25-79 | price-time priority is strict: two sorted lists of the same orders are equal |
| Queues.QueueRemove | src/order_manager.cpp:202-235 | removing any order, in spite of the swap, only closes its gap in the priority queue |
| Queues.QueueRewrite | src/matching_engine.cpp:938-942 | rewriting quantities keeps the order's place |
| Sweeps.MatchIsSweep | src/matching_engine.cpp:185-305 | the matching loop over any vector computes the greedy sweep of the sorted opposite queue: same trades, log, remainder and queues |
| Sweeps.SweepTakes | src/matching_engine.cpp:709-753 | closed form: each order gives what the quantity ahead of it leaves of the demand, and no order trades past one with priority |
| Sweeps.SweepLeaves | src/matching_engine.cpp:493-555 | closed form: at most the last maker survives reduced; the rest of the queue is untouched |
| Sweeps.SweepMeets | src/matching_engine.cpp:493-555 | the demand met is the smaller of demand and acceptable liquidity |
| Sweeps.MatchExecutesMinimum | src/matching_engine.cpp:266-287 | a match executes exactly the smaller of demand and the acceptable liquidity summed over the vector |
| Priority.TieBreakNeverDecides | include/order_manager.hpp:25-79 | sequence numbers of active orders differ, so price and sequence alone rank them |
| Priority.NewestJoinsBack | include/order_manager.hpp:25-79 | an order with the newest sequence number joins behind every equal or better price and ahead of every worse one |
| Priority.PlaceRefinesSweep | src/matching_engine.cpp:395-655 | placement is the greedy sweep followed by joining the back of the own price |
| Priority.MarketRefinesSweep | src/matching_engine.cpp:171-370 | a market order is the greedy sweep; executed is the smaller of requested and available |
| Priority.Rank | src/order_manager.cpp:94-117 | every active order has a place in its side's priority queue |
| Priority.CancelKeepsPriorities | src/matching_engine.cpp:807-848 | cancelling leaves every other order's relative priority alone |
| Priority.DecreaseKeepsPlace | src/matching_engine.cpp:885-944 | a decrease at the same price always succeeds and keeps the order's place |
| Priority.IncreaseGoesBehind | src/matching_engine.cpp:885-944 | an increase moves the order behind everyone at its price and moves no one else |
| Priority.PriceChangeGoesBehind | src/matching_engine.cpp:987-1099 | a price change is the greedy sweep and the remainder joins the back of the new price; the others keep their order |
| Fifo.MatchFifo | src/matching_engine.cpp:185-305 | a sweep after which an order is still active has not traded with any order behind it in its queue |
| Fifo.StepFifo | src/matching_engine.cpp:62-1193 | the same for every command that gives neither order a new place |
| Fifo.StepKeepsPlace | src/matching_engine.cpp:850-1193 | only a price change or an increase gives an order a new place; any other command, a same-price decrease included, leaves its side, price, sequence number and id |
| Fifo.RunKeepsGone | src/matching_engine.cpp:62-1193 | over every run, an order that has left is not named by a trade again and its id does not come back |
| Fifo.RunIsFifo | include/order_manager.hpp:25-79 | over every run in which neither is given a new place: while the order ahead is active the one behind is not traded at all, and what is left of both keeps its place |
| Answers.PlaceAnswer | src/matching_engine.cpp:395-655 | a placement answers the next id; its trades are on its side, in its name, no worse than its limit, and are what the log gained; what they leave of it rests under that id; a refusal changes nothing and is an overflow unless an argument is not positive |
| Answers.MarketAnswer | src/matching_engine.cpp:62-371 | a market report has the submitted side and quantity, executed plus remaining is requested, its fills are on that side, anonymous, add up to executed and are what the log gained, and its average is the exact one rounded down |
| Answers.CancelAnswer | src/matching_engine.cpp:807-848 | the answer is whether the id was active; afterwards it is not, every other order is unchanged, and an answer of false leaves the engine as it was |
| Answers.ModifyAnswer | src/matching_engine.cpp:850-1193 | the answer is whether the id was active; the order asked for rests with what its own trades leave of it, and keeps its sequence number only at the same price with no more quantity; false or a refusal changes nothing |
| Answers.StepIsLawful | src/concurrent_matching_engine.cpp:369-575 | every command obeys its law: the four above, queries answer the orders and the log of the state and change nothing, a clear empties the log and nothing else |
| Journals.FillReverts | src/matching_engine.cpp:517-553 | the journal entry written for a trade undoes that trade, vector slot included |
| Journals.UndoPads | src/matching_engine.cpp:1160-1164 | re-adding an entry's quantity fails exactly when the level it restores is not representable, so an exact rollback never overflows |
| Transactions.OverfedBreaksInvariant | src/matching_engine.cpp:342-346 | after a lost fill the level exceeds the orders resting there and the invariant is gone |
| Transactions.PassFails | src/matching_engine.cpp:233-278 | when the first failing request is past the push of a pass, that pass loses its fill, no other does, and it is the recording that failed exactly when the second request did |
| Transactions.StuckIsStranded | src/matching_engine.cpp:308-347 | a throwing rollback stops at the newest entry whose level cannot hold the excess: orders from before that fill, book from after it plus the excess, log not rolled back |
| Transactions.MarketStranded | src/matching_engine.cpp:307-354 | a market order whose rollback throws leaves the entry state if and only if it lost the recording of its first fill |
| Findings.GapExample | src/matching_engine.cpp:233-354 | ten rest, four are bought, recording fails: the call raises, the level is left at 14 and the order at 10 |
| Findings.AbortExample | src/matching_engine.cpp:307-354 | the largest quantity rests, one is bought, collecting fails: the rollback throws and the trade stays in the log |
| Findings.UnbookedExample | include/risk_managed_execution.hpp:45-58 | four units are sold by the engine, no position is booked, and the same order would be admitted again |
| Findings.OutOfOrderExample | src/order_manager.cpp:398-505 | two records restored in the order they were taken: the call succeeds and the id index is wrong |
| MatchingEngines.MatchingEngine.FindBestMatch | src/matching_engine.cpp:681-707 | the best opposite order is returned exactly when its price crosses the limit |
| MatchingEngines.MatchingEngine.ReduceResting | src/matching_engine.cpp:280-304 | book and resting order are reduced by the fill and a filled order is removed with an undoable entry; nothing can fail |
| MatchingEngines.MatchingEngine.ExecuteTrade | src/matching_engine.cpp:253-304 | one pass of the loop after its push is one specified fill, or fails, exactly when a request of recording or collecting fails, with book and orders untouched |
| MatchingEngines.MatchingEngine.JournalTrade | src/matching_engine.cpp:233-304 | a pass with its push makes two or three requests and fails exactly when one of them does; what it leaves depends on which |
| MatchingEngines.MatchingEngine.SweepResting | src/matching_engine.cpp:184-306 | the loop computes the specified match exactly when none of its requests fails; otherwise the journal leads back to the entry vector, and fill `k` was lost if and only if the first failing request is past the push of pass `k` |
| MatchingEngines.MatchingEngine.RevertOrder | src/matching_engine.cpp:317-340 | undoing one entry restores the vector before it; the disappeared-order error is unreachable |
| MatchingEngines.MatchingEngine.UndoJournal | src/matching_engine.cpp:308-347 | the rollback loop restores vector and book exactly; with a lost fill the book ends up with the excess, or the loop throws, exactly when the entry level cannot hold it, at a stated entry with stated vector and book |
| MatchingEngines.MatchingEngine.TradeTouch | src/matching_engine.cpp:103-156 | one trade consumes the external touch, is refused exactly at price zero, or fails at one of its two requests |
| MatchingEngines.MatchingEngine.SweepExternal | src/matching_engine.cpp:93-157 | the loop over an external book computes the specified consumption of levels, exactly when it is not refused and none of its requests fails |
| MatchingEngines.MatchingEngine.ExecuteExternal | src/matching_engine.cpp:86-169 | a market order against an external book succeeds as specified or restores the prior state without exception |
| MatchingEngines.MatchingEngine.ExecuteActive | src/matching_engine.cpp:171-370 | a market order against active orders: success, exact restoration and damage, each decided before the call |
| MatchingEngines.MatchingEngine.ExecuteMarketOrder | src/matching_engine.cpp:62-371 | succeeds exactly when the sweep is not refused and none of its requests fails, and then commits it; a failure restores the prior state if and only if no planned fill is lost, or only the first recording with no room for its excess; a lost fill `k` determines the exception and the state left behind |
| MatchingEngines.MatchingEngine.SweepAndRest | src/matching_engine.cpp:492-572 | matches and rests an incoming order as specified, or reports exactly what the catch block must undo and, from the requests, which fill was lost |
| MatchingEngines.MatchingEngine.PlaceUncrossed | src/matching_engine.cpp:454-469 | a non-crossing order adds its level and itself, or fails reporting whether the level was touched |
| MatchingEngines.MatchingEngine.UndoPlacement | src/matching_engine.cpp:573-628 | the inner catch block restores vector and trade log exactly |
| MatchingEngines.MatchingEngine.TryPlace | src/matching_engine.cpp:427-572 | the try block commits the specified placement, or leaves only book and counters to the outer catch block |
| MatchingEngines.MatchingEngine.PlaceLimitOrder | src/matching_engine.cpp:395-655 | all or nothing: whichever forward step fails, vector, indexes, book, log, counters, id generator and sequence counter equal those on entry |
| MatchingEngines.MatchingEngine.CancelOrder | src/matching_engine.cpp:807-848 | never raises; answers whether the id was active, removes exactly that order and its quantity, and leaves the engine alone otherwise |
| MatchingEngines.MatchingEngine.ResizeOrder | src/matching_engine.cpp:885-945 | a same-price modification commits as specified or changes nothing |
| MatchingEngines.MatchingEngine.WithdrawOrder | src/matching_engine.cpp:990-1006 | taking the original order out of vector and book cannot fail |
| MatchingEngines.MatchingEngine.UndoPriceChange | src/matching_engine.cpp:1103-1182 | the catch block restores every order to its slot and the book exactly; with a lost fill it leaves the excess or throws at a stated entry |
| MatchingEngines.MatchingEngine.ChangePrice | src/matching_engine.cpp:947-1193 | a price change commits as specified or fails; a failure restores the exact prior state if and only if no planned fill is lost, and a lost fill determines exception and state |
| MatchingEngines.MatchingEngine.ModifyOrder | src/matching_engine.cpp:850-1193 | commits as specified or fails; a failure restores the exact prior state, vector positions included, if and only if the first failing request records none of the planned fills; a lost fill `k` determines the exception and the state left behind |
| Ledgers.MatchAccounts | src/matching_engine.cpp:742-753 | every order active after a sweep is an order active before it, less the trades naming it |
| Ledgers.MatchVolume | src/matching_engine.cpp:266-270 | executed plus remaining equals requested, and all of it is in the taker's name |
| Ledgers.MatchNamesBothSides | src/matching_engine.cpp:720-740 | every trade names the taker on its side and, on the other, an active opposite order at its price |
| Ledgers.StepExplained | src/matching_engine.cpp:62-1193 | after any command each active order is newly counted or an earlier order plus the command's trades |
| Ledgers.RunBalances | include/limit_order.hpp:20-23 | over every run, filled quantity equals the trades naming the order since it was placed or last modified |
| Ledgers.RunNumbersIncrease | include/trade_store.hpp:36-44 | over every run and across clears, trade ids and execution sequences strictly increase and stay below the counters |
| Positions.Narrow64 | include/position.hpp:94-199 | the conversion to 64 bits changes a value by a multiple of 2^64, and leaves it alone exactly when it fits |
| Positions.RemainderBound | include/position.hpp:126-161 | an extension loses less than the new absolute position to truncation; reductions, closes and flips lose nothing |
| Positions.PnlStep | include/position.hpp:97-221 | one trade changes profit and loss by its mark-to-market value plus the signed remainder less the 64-bit wrap of the realized profit, at every mark price |
| Positions.PnlIdentity | include/position.hpp:74-221 | for every trade sequence and mark price, realized plus unrealized is the mark-to-market sum plus a bounded error independent of the mark, modulo 2^64; an equality when every realized profit fits |
| Positions.RealizedOnClosedQuantity | include/position.hpp:163-201 | a trade realizes the price difference to the average on exactly the quantity it and the position have in common, counted from the absolute quantities alone |
| Positions.EntryPriceStep | include/position.hpp:112-221 | opening and flipping take the trade's price, reducing leaves the average, closing clears it, extending takes the weighted average rounded down |
| Positions.EntryPriceLaw | include/position.hpp:97-221 | over every trade sequence the average of the open position lies between the lowest and highest price since it was last flat or flipped |
| Positions.OpeningExists | include/position.hpp:97-221 | every open position has such an opening trade |
| Positions.FoldIsNet | include/position.hpp:97-221 | the position is the net quantity of the trades |
| Positions.Position.ApplyTrade | include/position.hpp:97-221 | the new position is the specified one, realized profit narrowed to 64 bits; zero quantity and non-positive price are refused unchanged |
| Positions.Position.UnrealizedPnl | include/position.hpp:74-95 | the mark-to-market value of the open position, narrowed to 64 bits; a non-positive mark is refused |
| MarketImpact.MatchFairFills | src/matching_engine.cpp:185-305 | every fill is positive and none is at a better price for the taker than the touch; no order left behind is either |
| MarketImpact.MatchBookFairFills | src/matching_engine.cpp:94-156 | the same for fills against an external book, whose own side does not move and whose touch does not improve |
| MarketImpact.MatchBookVolume | src/matching_engine.cpp:94-156 | external fills add up to the executed quantity, which is exactly the smaller of the demand and the side's total |
| MarketImpact.MatchBookTakes | src/matching_engine.cpp:94-156 | closed form: trade k is at the price of level k for what the levels before it leave of the demand |
| MarketImpact.MatchBookLeaves | src/matching_engine.cpp:138-156 | closed form: emptied levels are gone, the last one keeps the rest, the others are untouched |
| MarketImpact.OwnSideStays | src/matching_engine.cpp:185-305 | a sweep leaves the taker's own side of the book as it was, level by level |
| MarketImpact.TotalIsOpenQuantity | src/order_book.cpp:545-572 | the total of a side's levels is the open quantity of that side's orders |
| MarketImpact.CaptureQuote | include/market_impact.hpp:55-71 | the quote holds both touches and both saturated depths of the book |
| MarketImpact.QuoteIsTouch | include/market_impact.hpp:55-71 | a quote holds the highest bid, the lowest ask and the totals of both sides as far as 64 bits reach |
| MarketImpact.SummaryAddsUp | include/market_impact.hpp:118-188 | every figure is tied to its inputs by an equation without division and is present exactly when they are |
| MarketImpact.Analyze | include/market_impact.hpp:74-188 | rejects exactly the reports that do not add up, and otherwise returns average, reference, slippage, effective spread, mids, impact and consumed ratio over the reals, each present exactly when its inputs are and adding up with them |
| MarketImpact.NotionalBound | include/market_impact.hpp:142-156 | fills no better than the touch cost at least, or earn at most, the touch price for their volume |
| MarketImpact.MarketFills | src/matching_engine.cpp:62-371 | every execution the engine returns adds up, costs no less than the touch, stays within the reported depth, and only pushes the other touch away |
| MarketImpact.MarketImpactIsSane | include/market_impact.hpp:74-188 | for every execution that filled anything, with the quotes before and after: never rejected, slippage and signed mid impact not negative, effective spread at least the quoted spread, consumed ratio in (0, 1], reported average no better than the touch |
| Risk.AppliedQuantity | include/position.hpp:97-221 | a trade moves the position by its signed quantity, whether it opens, extends, reduces, closes or flips |
| Risk.TradeCheckIsExact | include/risk_limits.hpp:33-72 | the pre-trade check admits exactly the trades whose resulting position `is_position_allowed` accepts |
| Risk.SnapshotsAre | include/position_execution_handler.hpp:31-42 | there is one portfolio per fill, and each is what booking the fills up to it gives |
| Risk.FillsStayWithin | include/position_execution_handler.hpp:31-42 | after every individual fill the position lies within the limit the whole order was checked against |
| Risk.AdmissionIsExact | include/risk_managed_execution.hpp:33-88 | a valid order is rejected for risk exactly when held plus or minus quantity leaves the limit either way; otherwise its answer is the engine's |
| Risk.BookedIsFold | include/position_manager.hpp:17-50 | booking folds the deals into the symbol's position in order and touches no other symbol |
| Risk.ExecutionMovesPosition | include/position_execution_handler.hpp:31-42 | fills move the position by their volume and its profit at every mark by volume at the mark less cash, up to the position's accounting error |
| Risk.ExecuteMovesPosition | include/risk_managed_execution.hpp:33-88 | a managed order moves its own symbol by the executed quantity and no other |
| Risk.ExecuteKeepsSafe | include/risk_managed_execution.hpp:33-88 | a managed order keeps the engine invariant and the limit, fill by fill |
| Risk.RunStaysWithinLimit | include/risk_limits.hpp:51-72 | over every run, started within the limit, every symbol is within it after every single fill and at the end |
| Risk.PositionManager.ApplyTrade | include/position_manager.hpp:17-50 | updates one symbol's position; a refused trade leaves no empty position behind, and only a new symbol can run out of memory |
| Risk.FirstRefused | include/position_execution_handler.hpp:31-42 | the accepted fills are those before the first with a non-positive price or no quantity |
| Risk.PositionManager.ApplyExecution | include/position_execution_handler.hpp:21-43 | result and positions are determined: every fill before the first refused one is booked, none when the new symbol finds no memory |
| Risk.RiskManagedExecution.ExecuteMarket | include/risk_managed_execution.hpp:33-88 | executes within the limit; succeeds exactly when the order is admitted, no request of the sweep fails and the fills can be booked; a failure leaves engine and positions alone if and only if the execution is not one that is committed and cannot be booked and either the order was refused or the engine's own failure restores; throwing analytics only clear the health flag |
| FixedPoint.SplitInvertsText | src/order_book.cpp:28-108 | cutting up the text of a numeral gives the numeral back, so a text has at most one reading |
| FixedPoint.ReadingIsGrammar | src/order_book.cpp:17-147 | a text has a reading exactly when it is an optional plus, digits and an optional point with up to six digits, with a representable value |
| FixedPoint.PointShifts | src/order_book.cpp:110-147 | a numeral is worth all its digits read as one number, divided by ten for every decimal |
| FixedPoint.PlaceValue | src/order_book.cpp:45-75 | digits have place value |
| FixedPoint.ParseWhole | src/order_book.cpp:45-75 | the digit loop returns the value of the run, or overflows exactly when it does not fit |
| FixedPoint.ParseFraction | src/order_book.cpp:77-108 | the fraction loop returns the value of the run, or refuses a seventh digit |
| FixedPoint.Parse | src/order_book.cpp:17-147 | accepts exactly the texts with a reading and returns that exact value; a refusal is an overflow exactly when the leading digits or the whole numeral are too large |
| FixedPoint.FormatPrice | src/order_book.cpp:1126-1226 | prints a canonical text for the truncated price; refuses exactly a negative price or more than six places |
| FixedPoint.PrintedIsCanonical | src/order_book.cpp:1126-1226 | the text has no sign, no needless zero, and a point followed by exactly the asked number of digits when there are any |
| FixedPoint.PrintedIsUnique | src/order_book.cpp:1126-1226 | it is the only such text that is worth the truncated price |
| FixedPoint.RoundTrip | src/order_book.cpp:1126-1226 | parsing the printed price gives the price truncated to those places; with six places the price itself |
| Concurrent.BlockingQueue.Push | include/blocking_queue.hpp:24-52 | appends, or is refused unchanged exactly when closed |
| Concurrent.BlockingQueue.Pop | include/blocking_queue.hpp:54-72 | returns the oldest item; empty-handed only when closed and drained |
| Concurrent.BlockingQueue.TryPop | include/blocking_queue.hpp:74-85 | returns the oldest item, or nothing and changes nothing |
| Concurrent.BlockingQueue.Close | include/blocking_queue.hpp:87-99 | closes and keeps the items |
| Concurrent.ProcessCommand | src/concurrent_matching_engine.cpp:369-575 | with enough memory the engine's methods leave the state and give the response of the specified step, and both obey the law of the command |
| Concurrent.FinishKeepsLinear | src/concurrent_matching_engine.cpp:369-575 | processing answers the next request of the log, once, as the sequential engine does |
| Concurrent.EveryScheduleIsSequential | src/concurrent_matching_engine.cpp:345-575 | in every interleaving the accepted log is answered, then in flight, then queued, and engine and answers are those of the sequential run |
| Concurrent.ScheduleFromBoot | src/concurrent_matching_engine.cpp:345-367 | from start-up the engine invariant always holds; when the worker has exited the queue is closed and empty and every accepted request has its one answer |
| Concurrent.EveryAnswerIsLawful | src/concurrent_matching_engine.cpp:345-575 | in every interleaving every answer obeys the law of its command between the states the sequential run has there |
| Concurrent.AnsweredIsSettled | src/concurrent_matching_engine.cpp:359-393 | later requests stand behind an answered one and its answer never changes |
| Concurrent.ShutdownDrains | include/blocking_queue.hpp:54-99 | after shutdown nothing is accepted, each worker move uses up one unit of work, and the worker is never stuck before it exits |

## Left out

- TradeStores.AveragePrice: exact integer arithmetic; the source accumulates in `long double`, whose rounding is not modelled.
- MarketImpact.Analyze: real arithmetic; the rounding of `long double` is not modelled.
- Positions.Position.ApplyTrade: the 64-bit conversion of each realized profit is modelled; the signed overflow of the running
  sums `quantity_` and `realized_pnl_ticks_` is undefined in the source and not modelled. Quantities of managed orders cannot
  overflow, by `RunStaysWithinLimit`.
- Each logical step that allocates is one request: a container that allocates twice for one insertion counts once.
- Sequence numbers, trade ids and execution sequences are unbounded; only the order-id generator checks exhaustion.
- Failures of allocation inside catch blocks, and inside the concurrent front end, where commands run with enough memory.
- Thread scheduling, wake-ups and fairness: schedules are arbitrary, and no claim is made that the worker is ever scheduled.
- The reader-writer lock of the order book and its spread, mid, imbalance, VWAP and microprice readers.
- Networking, JSON parsing, console output, benchmarks, and the analytics and order-flow adapters.
- `match_limit_order` and `process_limit_match`, which nothing calls.
