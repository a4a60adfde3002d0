# Verified model of the auto-trading back end

The back end trades spot and perpetual futures with several small services that talk
through a key-value store and a signal queue. A strategy consumer decides once per candle
and publishes buy and sell signals; an executor turns each signal into an order and books it
in two tables, a trade log and a positions table; a repair procedure compares the positions
table with the exchange; a funding-arbitrage service trades a spot leg against a perpetual
leg; a watchdog reports services whose heartbeat is gone. This project models the code that
decides, locks, books and computes, and proves what holds over every run of it.

## Layout

| part | files | main results |
|---|---|---|
| key store and queue | `RedisStore`, `SignalQueue` | lazy expiry refines immediate expiry; both queue adapters are one drop-oldest queue |
| tables and repair | `TradeLedger`, `Reconcile` | book value moves by price times quantity; a repair converges |
| executor | `ExecutorSteps`, `Executor`, `Protocol`, `ProtocolLimits`, `ExecutorLaws`, `SessionEffects`, `LogConservation` | exclusion, at most one fill per signal and hour, serialisability, two-table conservation, one open row |
| executor loop | `ExecutorConsumer` | one turn of the loop; what a message without a symbol does to the rows |
| strategies | `SignalEngines`, `StrategyConsumer`, `StrategyService` | no whipsaw, running-maximum stop, alternation, cooldown |
| whole pipeline | `Pipeline` | self-stabilisation of the two notions of "in position" |
| regime | `Adx`, `AdxTheorems`, `Fading`, `Regime` | closed forms, bounds, reflection, unit invariance, steady rise, classifier |
| funding arbitrage | `FundingArb` | exposure law, no stacking |
| sizing | `Sizing`, `QuantityText` | spending bounds, dust conservation, exact text round trip |
| watchdog | `Watchdog` | paced alerts, no false alarm for a prompt consumer |

The executor, the strategy consumer, the funding-arbitrage services, the watchdog, the key
store, the in-memory queue and the tables are classes whose methods change fields; each
method is proved equal to a function on values, and the theorems are about those functions.
The ADX loops work on arrays. `await` points are step boundaries: `ExecutorSteps.MicroStep`
does the work between two of them, `Protocol` interleaves any number of calls with crashes,
repairs and passing time. Answers of the exchange, clock readings and failing database calls
are inputs of the step or call that meets them, so the theorems range over all of them.

## Where the obvious claim is false

* The lock has no owner and is deleted unconditionally. A call that outlives the lock's ten
  seconds loses its protection, and one signal is then filled twice without any error
  (`SlowHolderFillsTwice`). Exclusion holds throughout a run exactly when no call enters while
  another one is still inside after the lock's time to live (`ExclusionIff`,
  `ExclusionThroughoutIff`); runs with that property are called safe and are the hypothesis of the
  other protocol theorems. A run in which no call outlives the lock is safe (`TimelyRunIsSafe`).
* A signal is marked as processed only after the trade has been written. A filled signal that is
  delivered again within the hour is answered as a duplicate exactly when neither the trade write
  nor the mark raised (`SecondDeliveryIff`), but it is filled a second time only when the trade
  write raised, or the mark raised and, for a buy, the row write failed, too: an open row stops what
  a lost mark lets through (`SecondFillIff`, `FailedTradeFillsTwice`). After a call that died between
  its order and its mark, a sell is always filled again, and a buy exactly when it died before its
  row was written or that write had failed (`DeadCallRefillsIff`).
* The repair takes no lock. In a safe run without errors, a repair between a buy's trade and
  its row leaves two open rows (`RepairInsideDoublesRow`). A repair under a committed buy is
  harmless exactly when it cannot read the rows, cannot create one, or sees less than a minimum
  order or the tolerance on the exchange (`RepairInsideBuyIff`). Conservation holds in any case.
* Reads of open rows stop at 200: closing orphans empties the table exactly when all open rows
  fit into one read (`OrphansClosedIff`).
* The position flag flips before the push, so a failed push is lost: consecutive delivered
  signals differ exactly when an even number of signals was lost between them
  (`DeliveredAlternateIff`, `LostBuyThenSell`).
* An automatic switch between decision and publication throws away the entry stop of the very
  buy that is then published (`BuyKeepsStopIff`).
* The regime engine restarts its stop when the old one is not positive, the two other trailing
  engines only when it is zero; only then can a stop fall (`RegimeStopRisesIff`,
  `TruthyStopRisesIff`).
* Asking a strategy consumer for `funding_arb` renames it before the engine is built, which
  raises. Afterwards a tick is decided exactly when the engine that stayed loaded is a
  regime-trend or breakout one and the request is not padded (`FundingArbDecidesIff`); with one
  of the two others no tick is decided again until an engine is loaded (`FundingArbRequestStalls`).
* The executor's loop takes its symbol from each message before checking it. After a blank one
  the repair drops the symbol filter (src/autr/infra/db/sqlite.py:557) while the balance of a
  nameless coin is 0: it takes every row it sees for an orphan and closes it although the coins are
  still held. The table stays as it is exactly when every repair is not due, cannot read the rows,
  sees next to nothing in them or cannot close the first one (`BlankRepairIff`,
  `BlankMessageLosesRowsIff`, `BlankMessageClosesHeldRow`).
* A consumer that restarts while signals are queued is right, once they are drained, exactly when
  the newest of them already agreed with the table at the restart (`RestartOnBusyQueueIff`).
* How fast a consumer must iterate to be never missed by the watchdog: exactly when beat interval
  plus iteration bound fit into the time to live (`NeverMissedIff`).
* Swapping the directional indicators and negating the gap mirrors the regime, except for a trend
  declared with a gap of zero under a threshold that is not positive (`ClassifyMirrorIff`). Reflecting
  the candles about k does more: the gap is then measured against k minus the slow average. The
  regime is mirrored exactly when a trend stays a trend of the opposite direction and no trend stays
  none (`ReflectionMirrorsIff`); for a k above a positive slow average, a trend is exactly when the
  distance of the averages also reaches the threshold against k minus the slow one
  (`ReflectedTrendIff`), so far enough above it every trend is lost (`FarReflectionLosesTrend`).
* Stripping trailing zeros needs a decimal point to stop at (`StripWithoutPointIff`).

The architecture document describes signal ids as hashes (docs/auto-tr_arch_doc_v0.2.md:110)
and a position state machine inside the executor; the code draws random ids and never calls the
state machine, and the model follows the code. It also follows the code where the comment on the
classifier asks for 50 rows more than the slow period: the guard asks for 10.

## Model

| member | source | states |
|---|---|---|
| `RedisStore.StepAgrees` | src/autr/infra/redis.py:43-86 | one call on the lazily evicting store answers as a store that forgets keys the moment they expire, and the live entries agree at every later instant |
| `RedisStore.LazyRefinesEager` | src/autr/infra/redis.py:43-86 | the same for every sequence of get, set, delete and lock calls with a clock that never goes back |
| `RedisStore.ProcessedKeysDiffer` | src/autr/infra/redis.py:102-106 | idempotency keys of different signals differ from each other and from the lock key |
| `RedisStore.SetThenGet` | src/autr/infra/redis.py:62-72 | a value set is found until its time to live has passed, for ever without one or with zero, and not after a deletion |
| `RedisStore.LockExcludes` | src/autr/infra/redis.py:78-86 | a locked key can be locked again exactly after its time to live or a deletion by anyone |
| `RedisStore.OtherKeysStay` | src/autr/infra/redis.py:43-86 | no call touches a key but its own |
| `RedisStore.InMemoryRedis.GetValue` | src/autr/infra/redis.py:62-65 | returns the value of a live key or the default, and changes no live entry |
| `RedisStore.InMemoryRedis.SetValue` | src/autr/infra/redis.py:67-69 | writes the key with its deadline; a missing or zero time to live means none |
| `RedisStore.InMemoryRedis.TryAcquireLock` | src/autr/infra/redis.py:78-83 | succeeds exactly when no live entry holds the key, and the key then lives for the whole time to live |
| `RedisStore.InMemoryRedis.ReleaseLock` | src/autr/infra/redis.py:85-86 | removes the key whoever wrote it |
| `RedisStore.InMemoryRedis.IsProcessed` | src/autr/infra/redis.py:105-106 | true exactly when the signal's key is live and not empty |
| `SignalQueue.RunConserves` | src/autr/infra/redis.py:112-131 | over every run the queue is the newest pushes, at most 200, and every older push left once, in order, popped or dropped |
| `SignalQueue.RunCounts` | src/autr/infra/redis.py:112-131 | pushed = popped + queued + dropped, in number and as multisets |
| `SignalQueue.RedisListLinearises` | src/autr/infra/redis.py:189-204 | any interleaving of LPUSH, LTRIM and BRPOP behaves like atomic pushes and pops of the drop-oldest queue; outstanding pushes belong to trims still to come |
| `SignalQueue.RedisListConserves` | src/autr/infra/redis.py:189-204 | on the Redis list, whatever the interleaving: every push that left the list left once, in push order, and the popped messages are an in-order selection of those |
| `SignalQueue.TrimmedListIsQueue` | src/autr/infra/redis.py:189-193 | a trimmed list is the queue itself and holds at most 200 messages |
| `SignalQueue.InMemoryQueue.QueuePush` | src/autr/infra/redis.py:112-120 | the message becomes the newest; a full queue loses its oldest message and nothing else |
| `SignalQueue.InMemoryQueue.QueuePop` | src/autr/infra/redis.py:122-131 | returns and removes the oldest message, or nothing |
| `TradeLedger.VisibleIdsExact` | src/autr/infra/db/sqlite.py:545-570 | the read shows exactly the open rows among the 200 newest open ones, newest first |
| `TradeLedger.CloseRowsEffect` | src/autr/services/executor.py:203-208 | closing a list of open rows closes exactly those at the given price and touches no other row |
| `TradeLedger.ClosedRowFields` | src/autr/infra/db/sqlite.py:601-638 | a closed row keeps kind, entry, quantity and amount, and carries the price and the profit, with the sign of its kind |
| `TradeLedger.CloseVisibleClosesAll` | src/autr/services/executor.py:205-207 | closing the rows read leaves none open when at most 200 were open |
| `TradeLedger.SumOverOpenIds` | src/autr/services/executor.py:257-259 | a sum over the ids of open rows is the sum over the open rows of the table |
| `TradeLedger.InvestedInOneRow` | src/autr/services/executor.py:174-178 | what is invested in one open row is the amount stored with it, or entry price times quantity when that is zero |
| `TradeLedger.OpenMovesBook` | src/autr/infra/db/sqlite.py:479-535 | opening a row raises cost of open rows minus realised profit by price times quantity |
| `TradeLedger.CloseRowsMovesBook` | src/autr/infra/db/sqlite.py:601-638 | closing any rows at one price moves that book value by price times the change of the open quantity, whatever the entry prices |
| `TradeLedger.CloseRowsTotals` | src/autr/infra/db/sqlite.py:601-638 | closing removes the rows' quantities from the open total and adds their stored profit to the realised one |
| `TradeLedger.RepriceKeepsTotals` | src/autr/infra/db/sqlite.py:572-599 | marking to market realises nothing and moves no quantity or cost |
| `TradeLedger.TradeWorth` | src/autr/infra/db/sqlite.py:401-426 | a trade enters the invested total at price times its signed quantity |
| `TradeLedger.TradeTrackerDb.ClosePosition` | src/autr/infra/db/sqlite.py:601-638 | closes an open row at the price; a missing or closed row is left alone and reported |
| `TradeLedger.TradeTrackerDb.CreatePosition` | src/autr/infra/db/sqlite.py:479-535 | appends one open row without profit or loss |
| `TradeLedger.TradeTrackerDb.UpdateOpenPositionPrices` | src/autr/infra/db/sqlite.py:572-599 | re-marks exactly the open rows and counts them |
| `Reconciliation.BranchAgrees` | src/autr/domain/reconcile.py:14-21 | every branch of the repair ends in a quantity that agrees with the exchange within a minimum order or the tolerance |
| `Reconciliation.RepairConverges` | src/autr/services/executor.py:243-341 | after one repair without a database error the table agrees with what was observed, from any table whose open rows fit into one read |
| `Reconciliation.RepairLeaves` | src/autr/services/executor.py:243-341 | after one repair without a database error the table is unchanged if the quantities agreed, and otherwise shows the exchange's quantity, or nothing if that is worth less than a minimum order |
| `Reconciliation.OutcomeTells` | src/autr/services/executor.py:265-331 | the reported outcome of a repair that found disagreement: missing, orphan, dust or adjusted, each if and only if booked and held quantity say so |
| `Reconciliation.SecondRepairIsNoop` | src/autr/services/executor.py:243-341 | a second repair on the same observation changes nothing |
| `Reconciliation.DustBranchUnreachable` | src/autr/services/executor.py:281-286 | the dust test inside `open_missing_local` never succeeds |
| `Reconciliation.OrphansClosedIff` | src/autr/services/executor.py:273-279 | closing orphans empties the table if and only if all open rows fit into one read |
| `Reconciliation.RepairMovesBook` | src/autr/services/executor.py:243-341 | every repair, also one cut short by an error, moves the book value by price times the change of the open quantity |
| `Reconciliation.RepairQuantities` | src/autr/services/executor.py:273-331 | every repair, also one cut short, changes the open quantity by what it recreates minus what it closes |
| `ExecutorService.Executor.ExecuteBuy` | src/autr/services/executor.py:57-148 | store, tables, orders and result are those of the step program run without interruption, for every answer and every failing call |
| `ExecutorService.Executor.ExecuteSell` | src/autr/services/executor.py:150-241 | the same for sells, including rows closed before a swallowed error |
| `ExecutorService.Executor.Reconcile` | src/autr/services/executor.py:243-341 | the table and the outcome are those of the repair function; the trade log is untouched |
| `Protocol.MutualExclusion` | src/autr/services/executor.py:57-241 | over every safe run at most one call is between acquire and release, and the lock entry is its own |
| `Protocol.ExclusionIff` | src/autr/infra/redis.py:78-86 | an event out of a guarded state keeps exclusion if and only if it is not an entry while another call has outlived the lock |
| `Protocol.ExclusionThroughoutIff` | src/autr/services/executor.py:57-241 | exclusion holds throughout a run if and only if no call ever enters while another one has outlived the lock |
| `Protocol.TimelyRunIsSafe` | src/autr/services/executor.py:27-72 | a run in which no call stays inside longer than the lock lives has safe entries only |
| `Protocol.OnlyHolderReleases` | src/autr/infra/redis.py:85-86 | the lock entry of the call inside disappears or changes only by that call's release |
| `Protocol.AtMostOnce` | src/autr/services/executor.py:74-132 | over every safe run without a lost mark, two fills of one signal id are more than an hour apart |
| `Protocol.NextKeepsIdempotent` | src/autr/services/executor.py:74-132 | every single event keeps: young fills are marked or about to be, and a call about to order checked after older fills were forgotten |
| `Protocol.FreshSystemIsSafe` | src/autr/services/executor.py:43-51 | a system without fills and running calls meets the start hypotheses on exclusion, fills and serialisability |
| `Protocol.Serialisable` | src/autr/services/executor.py:57-241 | every safe and orderly run ends in the state, and returns the results, of the logged calls executed one after the other |
| `ProtocolLimits.SlowHolderFillsTwice` | src/autr/services/executor.py:57-148 | an unsafe run without any error that fills one signal twice within the hour |
| `ProtocolLimits.RepairInsideDoublesRow` | src/autr/services/executor.py:281-296 | a safe run from the empty system, without errors, in which a repair between a trade and its row leaves two open rows |
| `ExecutorLaws.StepConserves` | src/autr/services/executor.py:107-129 | every step, failed or not, moves the distance of the two tables by its price times the quantity by which it drives them apart |
| `ExecutorLaws.Conservation` | src/autr/infra/db/sqlite.py:401-446 | over every run, with any interleaving, crashes, errors and repairs in one piece or row by row: invested = cost of open rows - realised profit + initial distance + the sum of price x quantity over trades (with their sign), rows closed, and rows opened or recreated (negative) |
| `LogConservation.LogConserves` | src/autr/services/executor.py:107-127 | calls and repairs one after the other, with every result and error, drive the tables apart by price x (closed - filled) per sell, price x filled per buy without a row, and price x (closed - recreated) per repair |
| `LogConservation.SerialConservation` | src/autr/services/executor.py:57-241 | the same for every safe, orderly run of concurrent calls; if fills are exact, rows written and repairs noops, the distance of the tables never changes |
| `ExecutorLaws.RepairKeepsOneRow` | src/autr/services/executor.py:281-331 | a repair never leaves a second open row |
| `ExecutorLaws.AlwaysOneRow` | src/autr/services/executor.py:80-127 | at every moment of a safe run, also with repairs between the steps of calls as long as they open no row under a committed buy or beside an open one, there is at most one open row, of positive quantity and priced at entry times quantity |
| `ExecutorLaws.RepairBeforeRowIff` | src/autr/services/executor.py:281-296 | after a repair of a table without open rows there is room for one more row if and only if the repair opened nothing, in terms of what it observed |
| `ExecutorLaws.RepairInsideBuyIff` | src/autr/services/executor.py:80-127 | on the protocol, a repair under a committed buy keeps what the buy relies on if and only if it opens nothing |
| `ExecutorLaws.FreshSystemKeepsRows` | src/autr/services/executor.py:43-51 | a system without running calls and with at most one open row meets the start hypotheses of that theorem |
| `SessionEffects.SessionTables` | src/autr/services/executor.py:57-241 | what a call did to the tables can be read off its result; a raised call left them alone, or booked its trade and all that follows it |
| `SessionEffects.FilledQuantityIsAnswered` | src/autr/services/executor.py:107-108 | a buy or sell that succeeds was accepted and answers the filled quantity; without one, or with 0, the quantity ordered, and 0 for a full sell |
| `SessionEffects.AnswerIsBooked` | src/autr/services/executor.py:107-145 | that quantity is the one in the trade, in the row a buy opens and, times price minus what was invested, in the profit a sell reports; all at the signal's price |
| `SessionEffects.SessionFills` | src/autr/services/executor.py:57-241 | a call adds at most one order, of its own signal and side |
| `SessionEffects.SessionBooks` | src/autr/services/executor.py:57-241 | whatever fails, a call adds at most one trade, of its side and price and worth price times quantity; a buy only adds rows and a sell leaves closed ones alone |
| `SessionEffects.SessionAnswers` | src/autr/services/executor.py:57-241 | whichever steps raise, the answer is the first that applies of one list: lock not reached or held, failing release, failing or positive duplicate check, failing read, row open, no size, order failed, failing trade write or mark, filled |
| `SessionEffects.ReportedProfit` | src/autr/services/executor.py:173-218 | the reported profit is the profit stored on the closed rows plus price times (filled minus closed quantity), equal if and only if the fill is exact or the price zero |
| `SessionEffects.SellResidue` | src/autr/services/executor.py:191-208 | a sell drives the tables apart by price times (closed minus filled quantity), hence not at all if and only if the fill is exact or the price zero |
| `SessionEffects.BuyResidue` | src/autr/services/executor.py:107-129 | a buy drives the tables apart exactly by the row it failed to write |
| `SessionEffects.FilledIsMarkedIff` | src/autr/services/executor.py:108-132 | a filled signal is marked for the next hour if and only if neither the trade write nor the mark raised |
| `SessionEffects.SecondDeliveryIff` | src/autr/services/executor.py:75-78 | a repeated signal is rejected as a duplicate if and only if the first call neither failed its trade write nor its mark |
| `SessionEffects.OrdersIff` | src/autr/services/executor.py:74-100 | a call that gets in, reads without error and is accepted orders if and only if its signal is not marked and, for a buy, no row is open |
| `SessionEffects.SecondFillIff` | src/autr/services/executor.py:75-132 | a filled signal delivered again within the hour is filled a second time if and only if its trade was not written, or its mark was lost and, for a buy, its row, too |
| `SessionEffects.DeadCallRefillsIff` | src/autr/services/executor.py:96-132 | after a call that died between order and mark, the next delivery fills again if and only if it is a sell, or the row was not yet written or its write had failed |
| `SessionEffects.FailedTradeFillsTwice` | src/autr/services/executor.py:109-117 | a concrete buy whose trade write raises is filled twice |
| `SignalEngines.SignalsFitPosition` | src/autr/strategies/regime_trend_strategy.py:45-80 | every engine buys only flat, after its cooldown and with its entry stop, sells only in position, and both at the last close |
| `SignalEngines.EntryIff` | src/autr/strategies/dual_timeframe_strategy.py:70-113 | flat, each engine buys if and only if the cooldown is over and its entry condition holds on the last bar, and never sells |
| `SignalEngines.TrailingExitIff` | src/autr/strategies/regime_trend_strategy.py:45-80 | after any held stretch a trailing engine sells if and only if the close is on or below the entry stop or the trailing distance of some bar of the stretch, or its trend is gone |
| `SignalEngines.ReasonTells` | src/autr/strategies/dual_timeframe_strategy.py:70-113 | in every engine, each reason given with a decision is true of the bar, the flag and the cooldown |
| `SignalEngines.MeanReversionExitIff` | src/autr/strategies/mean_reversion_strategy.py:57-92 | after any held stretch mean reversion sells if and only if the close is on or below the entry stop, overbought, or back at the middle of the band; its stop never moves |
| `SignalEngines.NoEntryAfterEntry` | src/autr/strategies/dual_timeframe_strategy.py:107-113 | the dual-timeframe entry is a crossing: the bar after one that allowed a buy never allows another |
| `SignalEngines.NoWhipsaw` | src/autr/strategies/mean_reversion_strategy.py:57-92 | in every engine, the bar that yields a buy is held when decided again in position with the entry stop |
| `SignalEngines.PositiveSettingsHold` | src/autr/strategies/regime_trend_strategy.py:45-80 | the same from the engines' settings: positive ATR and multipliers, and for mean reversion a positive band width and oversold below overbought |
| `SignalEngines.WhipsawIff` | src/autr/strategies/dual_timeframe_strategy.py:70-113 | for the trailing engines with a positive entry stop: held if and only if entry and trailing stop lie below the close |
| `SignalEngines.StopIsRunningMaximum` | src/autr/strategies/regime_trend_strategy.py:60-72 | over any holding period the stored stop is the maximum of the starting stop and all close - m * ATR |
| `StrategyConsumers.HeldStopIsRunningMaximum` | src/autr/services/run_strategy_consumer.py:188-197 | through every stretch of the consumer's loop in which it holds, with undecided ticks, errors and requests that change nothing, its stored stop is that maximum over the bars shown |
| `SignalEngines.DrawdownIsBounded` | src/autr/strategies/dual_timeframe_strategy.py:90-97 | while a bar is held, the fall from any earlier close of the holding period is less than m * ATR of that bar |
| `StrategyConsumers.HeldDrawdownIsBounded` | src/autr/services/run_strategy_consumer.py:188-246 | the same over stretches of the consumer's loop: a bar it holds through with trading enabled lies less than m * ATR below any earlier bar shown |
| `SignalEngines.RegimeStopRisesIff` | src/autr/strategies/regime_trend_strategy.py:63-66 | the regime engine's stop does not fall if and only if the old stop is positive or the candidate no lower |
| `SignalEngines.TruthyStopRisesIff` | src/autr/strategies/breakout_volume_strategy.py:66-67 | the other trailing engines lose only a zero stop |
| `StrategyConsumers.SignalsAlternate` | src/autr/services/run_strategy_consumer.py:188-246 | over every run with requests, automatic switches and exceptions, issued signals alternate, starting as the restored flag says, and the flag is the side of the last one |
| `StrategyConsumers.NothingLost` | src/autr/services/run_strategy_consumer.py:341-350 | without failing pushes the delivered signals are the issued ones |
| `StrategyConsumers.IssuedCarriesLastClose` | src/autr/services/run_strategy_consumer.py:341-350 | an issued signal carries the close of the bar it was decided on, the fresh id, and the strategy in force at publication |
| `StrategyConsumers.CooldownIsKept` | src/autr/services/run_strategy_consumer.py:188-246 | between an issued signal and the next buy lie at least as many decided ticks as the cooldown of the engine that decides the buy |
| `StrategyConsumers.DeliveredAlternateIff` | src/autr/services/run_strategy_consumer.py:228-240 | neighbouring delivered signals differ if and only if an even number was lost between them |
| `StrategyConsumers.LostBuyThenSell` | src/autr/services/run_strategy_consumer.py:228-240 | a concrete run whose first delivered signal is a sell although no position was held |
| `StrategyConsumers.BuyKeepsStopIff` | src/autr/services/run_strategy_consumer.py:224-232 | the entry stop of an issued buy survives if and only if no automatic switch happens in that tick |
| `StrategyConsumers.FundingArbDecidesIff` | src/autr/services/run_strategy_consumer.py:142-169 | under the name of funding arbitrage a decidable tick is decided if and only if a regime-trend or breakout engine is loaded and the request is not padded |
| `StrategyConsumers.FundingArbRequestStalls` | src/autr/services/run_strategy_consumer.py:148-165 | with a dual-timeframe or mean-reversion engine loaded, no tick is decided after such a request until another engine is loaded |
| `StrategyConsumers.EngineAlwaysFits` | src/autr/services/run_strategy_consumer.py:248-296 | without such a request, name and engine stay of one kind over every run |
| `StrategyConsumers.RequestLoads` | src/autr/services/run_strategy_consumer.py:142-169 | a request for another strategy loads its engine and forgets the stop; position, cooldown count and regime stay, and an unknown or current name changes nothing |
| `StrategyConsumers.LoadedEnginesAreOrdered` | src/autr/strategies/strategy_params.py:19-239 | every engine a consumer loads enters with a stop closer than it trails, both below the close of a bar with positive ATR, and waits at least two bars; the two faster coins have their own oversold mark |
| `StrategyConsumers.SwitchFollowsRegime` | src/autr/services/run_strategy_consumer.py:383-427 | after a decided tick a flat consumer with automatic switching runs the trend strategy in a rising and mean reversion in a ranging market, by this tick's regime or else the last one; otherwise it keeps its strategy |
| `StrategyConsumers.ZeroStopIsForgotten` | src/autr/services/run_strategy_consumer.py:195-197 | without a switch the decision's stop is stored as it is, except that a trailing engine's stop of exactly zero is forgotten |
| `StrategyConsumers.DecidesIff` | src/autr/services/run_strategy_consumer.py:188-300 | a turn is decided if and only if a tick comes, nothing raises before the decision, and candles and frame suffice; otherwise at most the regime is remembered |
| `StrategyConsumers.LateErrors` | src/autr/services/run_strategy_consumer.py:222-244 | an error in reading the flag or the switch, or in writing the switch, silences the turn exactly where that call is made, and otherwise changes nothing |
| `StrategyConsumers.IssuesIff` | src/autr/services/run_strategy_consumer.py:188-246 | a tick issues a signal if and only if trading is enabled and, flat, the cooldown is over and the entry condition holds, or, in position, the engine exits; side, flag, bar count and delivery follow |
| `StrategyService.StrategyConsumer.CheckStrategyChange` | src/autr/services/run_strategy_consumer.py:142-169 | the new fields, also when building the engine raises |
| `StrategyService.StrategyConsumer.MaybeAutoSwitch` | src/autr/services/run_strategy_consumer.py:383-427 | the new fields of an automatic switch, and when there is none |
| `StrategyService.StrategyConsumer.OneTurn` | src/autr/services/run_strategy_consumer.py:121-136 | one turn of the loop: the fields, the outcome, and the queue with the issued signal pushed unless the push failed |
| `Pipeline.SettledSession` | src/autr/services/executor.py:80-127 | after a settled signal a row is open exactly when the signal was a buy |
| `Pipeline.TurnPushesIff` | src/autr/services/run_strategy_consumer.py:228-244 | a strategy turn makes its signal the newest queued message exactly when it is delivered, and touches nothing else outside the consumer |
| `Pipeline.ConsumeFollowsMessage` | src/autr/services/run_executor_consumer.py:75-107 | the oldest message is consumed as what it says: any fill or trade has its side, id and price |
| `Pipeline.SelfStabilises` | src/autr/services/run_strategy_consumer.py:228-244 | after any history of failed orders, skipped and dropped signals, crashes, repairs and restarts, a quiet system has flag = "an open row exists" |
| `Pipeline.OneDeliveryStabilises` | src/autr/services/run_strategy_consumer.py:228-244 | from any state at all, after lost pushes and failed row writes, one issued and delivered signal is enough: with sound events from there on, a quiet system has flag = "an open row exists" |
| `Pipeline.RestartEstablishes` | src/autr/services/run_strategy_consumer.py:171-182 | a restart re-establishes the links the theorem needs, whatever happened before |
| `Pipeline.RestartOnBusyQueueIff` | src/autr/services/run_strategy_consumer.py:171-182 | after a restart on a busy queue, once it is drained and the last signal settled, the flag is right if and only if the newest queued signal agreed with the table at the restart |
| `Adx.Moves` | src/autr/domain/regime.py:202-222 | the first array loop computes directional moves and true range of every candle |
| `Adx.WilderSmooth` | src/autr/domain/regime.py:224-236 | the smoothing loop computes the mean start and every blended value after it |
| `Adx.DirectionalIndex` | src/autr/domain/regime.py:245-251 | the DX loop, zero before the first smoothed value |
| `Adx.ComputeAdx` | src/autr/domain/regime.py:200-260 | the loops stay in bounds and compute the indicators of the candles, for every length that passes the guard |
| `AdxTheorems.OnlyLargerMoveCounts` | src/autr/domain/regime.py:211-216 | DM+ is positive if and only if the highs rise and by more than the lows fall, and then equals the rise; DM- is the mirror; never both, and equal moves give zero |
| `AdxTheorems.TrueRangeIsSpread` | src/autr/domain/regime.py:217-222 | the true range is the spread of the candle together with the previous close |
| `AdxTheorems.SmoothClosedForm` | src/autr/domain/regime.py:224-236 | a smoothed value is the starting mean and every later value, each weighted by 1/period and faded by 1 - 1/period per step since |
| `AdxTheorems.DxIsImbalance` | src/autr/domain/regime.py:245-251 | DX is the difference of the smoothed moves in percent of their sum, and zero exactly when they are equal |
| `AdxTheorems.IndicatorsClosedForm` | src/autr/domain/regime.py:199-260 | the three indicators of all candles as percentages of such weighted averages |
| `AdxTheorems.SmoothedMovesBelowRange` | src/autr/domain/regime.py:224-236 | at every index smoothed DM+ plus smoothed DM- is at most the smoothed true range |
| `AdxTheorems.IndicatorBounds` | src/autr/domain/regime.py:199-260 | DI+ and DI- are non-negative and sum to at most 100, ADX lies in [0, 100], for all candles with low <= close <= high |
| `AdxTheorems.ReflectionSwapsDirections` | src/autr/domain/regime.py:199-260 | reflecting all candles swaps DI+ and DI- and keeps ADX |
| `AdxTheorems.UnitsDoNotMatter` | src/autr/domain/regime.py:199-260 | scaling prices by c > 0 and shifting them changes none of the three |
| `AdxTheorems.SteadyRise` | src/autr/domain/regime.py:211-260 | on rising candles DI- is zero, DI+ positive and ADX exactly 100 |
| `RegimeClassifier.FastLeadsSlow` | src/autr/domain/regime.py:263-271 | on rising positive closes the fast average lies strictly above the slow one and below the price |
| `RegimeClassifier.EmaClosedForm` | src/autr/domain/regime.py:262-271 | the exponential average is the first close and every later one, weighted by 2/(span+1) and faded per step since |
| `RegimeClassifier.CountBelowIsNumber` | src/autr/domain/regime.py:282-300 | the count behind both ranks is the number of positions in the window whose value lies below |
| `RegimeClassifier.RanksAreShares` | src/autr/domain/regime.py:273-300 | each rank is the share, among the last values of the lookback, of those below the newest; 0.5 while the lookback is not filled |
| `RegimeClassifier.ClassifiableIff` | src/autr/domain/regime.py:113-117 | there is a result if and only if slow period, lookback and three ADX periods each fit with ten rows to spare, and the band-width rank does not raise |
| `RegimeClassifier.ReportedIff` | src/autr/domain/regime.py:108-144 | what is reported of candles: the regime by their ADX, gap and ranks, and the indicators rounded |
| `RegimeClassifier.RoundsToNearest` | src/autr/domain/regime.py:136-138 | rounding goes to a nearest integer, and from a half to the even one |
| `RegimeClassifier.RankBounds` | src/autr/domain/regime.py:273-300 | the volatility rank, also on a window shorter than the lookback, and the band-width rank lie in [0, 1) |
| `RegimeClassifier.RoundedSum` | src/autr/domain/regime.py:136-138 | rounding half to even cannot push two numbers above an even total they stay within |
| `RegimeClassifier.RegimeIff` | src/autr/domain/regime.py:164-193 | each regime if and only if: ADX and the gap's size reach their thresholds and the gap is positive (up) or not (down); otherwise both ranks are high (volatile) or one is not (range) |
| `RegimeClassifier.TrendConfidenceRises` | src/autr/domain/regime.py:164-183 | the confidence of a confirmed trend is at least 0.5, never falls with ADX, and is 1 from 25 points above the threshold on |
| `RegimeClassifier.TrendConfidenceIs` | src/autr/domain/regime.py:164-183 | a trend is confirmed by the larger directional indicator of its direction, and has confidence 0.4 otherwise |
| `RegimeClassifier.SidewaysConfidence` | src/autr/domain/regime.py:185-193 | in a range the confidence never rises with ADX, with high ranks it never falls with them; both are anchored at 0.5 |
| `RegimeClassifier.ClassifyMirrorIff` | src/autr/domain/regime.py:164-193 | swapping DI and negating the gap mirrors the regime at equal confidence, except exactly for a zero gap under a non-positive threshold |
| `RegimeClassifier.EmaReflects` | src/autr/domain/regime.py:263-271 | the average of reflected closes is the reflected average |
| `RegimeClassifier.ReflectionMirrorsIff` | src/autr/domain/regime.py:108-193 | reflecting all candles mirrors the reported regime at equal confidence if and only if a trend stays a trend of the opposite direction, and no trend stays none with the same outcome of the ranks |
| `RegimeClassifier.ReflectedTrendIff` | src/autr/domain/regime.py:164-183 | a trend with a slow average between zero and k is reported mirrored if and only if the distance of the averages reaches the threshold against k minus the slow one |
| `RegimeClassifier.FarReflectionLosesTrend` | src/autr/domain/regime.py:164-183 | for every trend a k exists at which that fails |
| `RegimeClassifier.ConfidenceBounds` | src/autr/domain/regime.py:166-193 | the confidence lies in [0.3, 1] for all indicators when the two percentile thresholds sum to at least 0.6 |
| `RegimeClassifier.SteadyRiseTrendsUp` | src/autr/domain/regime.py:108-183 | on steadily rising candles the default classifier never reports a downtrend, and reports an uptrend with confidence exactly 1 once the gap reaches the threshold |
| `RegimeClassifier.StateBounds` | src/autr/domain/regime.py:113-144 | the reported, rounded state stays within its ranges for all valid candles |
| `FundingArb.DeadBandIsQuiet` | src/autr/services/run_funding_arb.py:117-142 | over every run with funding between the thresholds nothing is traded, open or flat, with good or failed reads |
| `FundingArb.ClosesIff` | src/autr/strategies/funding_arb_strategy.py:76-119 | an open short falls if and only if the service is enabled, ticker, reads and lock are good, the perpetual order is accepted, and basis, margin or funding call for it; it then falls to zero |
| `FundingArb.OpensIff` | src/autr/strategies/funding_arb_strategy.py:76-119 | a flat account gets a short if and only if the service is enabled, the ticker is good, funding is at the entry threshold, lock and quantity are there, and the orders leave one; spot follows unless both orders after it were refused |
| `FundingArb.ReportsWhatItDid` | src/autr/services/funding_arb_executor.py:59-198 | the reported result tells what became of both legs |
| `FundingArb.ReasonTells` | src/autr/strategies/funding_arb_strategy.py:76-119 | every decision on a rate carries it and the first reason that applies |
| `FundingArb.CalcQtyIff` | src/autr/services/funding_arb_executor.py:46-55 | there is an order size if and only if the price is positive and the notional pays for one tick |
| `FundingArb.OlderRatesAreIgnored` | src/autr/strategies/funding_arb_strategy.py:57-64 | the decision depends on the latest rates of the lookback only |
| `FundingArb.ExposureLaw` | src/autr/services/funding_arb_executor.py:59-198 | over every run, at every cycle boundary, spot minus short = unsold spot minus shorts not rolled back; delta-neutral if and only if the two are equal |
| `FundingArb.StackingIff` | src/autr/services/run_funding_arb.py:94-142 | a cycle adds to an existing short if and only if its position read failed, funding was at the entry threshold, lock and quantity were there, and the orders left a short |
| `FundingArb.NoSecondPosition` | src/autr/services/run_funding_arb.py:117-142 | with correct reads the short never exceeds the size of one order |
| `FundingArb.CalcQtyIsLargest` | src/autr/services/funding_arb_executor.py:46-55 | the order is the largest positive number of ticks worth at most the notional |
| `FundingArb.FundingArbExecutor.OpenPosition` | src/autr/services/funding_arb_executor.py:59-127 | account and result of opening both legs with rollback, nothing under a held lock, and the lock gone afterwards |
| `FundingArb.FundingArbExecutor.ClosePosition` | src/autr/services/funding_arb_executor.py:131-198 | account and result of closing both legs, and the lock gone afterwards |
| `FundingArb.FundingArbConsumer.OneCycle` | src/autr/services/run_funding_arb.py:85-142 | one read, decide, execute cycle changes the account as the cycle function says |
| `Sizing.BuySpend` | src/autr/infra/bybit/client.py:148-184 | a computed buy spends at most the allowed amount and falls short of it by less than one tick at the price |
| `Sizing.BuyStaysWithin` | src/autr/infra/bybit/client.py:148-184 | the value of a computed buy is at most the position share of the balance and at most that of the cap, and less than one tick at the price below at least one of the two |
| `Sizing.BuySizedIff` | src/autr/infra/bybit/client.py:148-184 | a buy is sized if and only if the price is positive and balance and cap reach the minimum, both before and after the position share is applied |
| `Sizing.BuyNeverAboveMaximum` | src/autr/infra/bybit/client.py:240-250 | the order checks never reject a computed buy for exceeding the maximum at the same price |
| `Sizing.BuyAcceptedIff` | src/autr/infra/bybit/client.py:240-256 | it is accepted if and only if rounding left the minimum, for which one tick of slack suffices |
| `Sizing.DustIsConserved` | src/autr/infra/bybit/client.py:186-198 | over any buys and attempted full sells with exact fills, the part of the balance below a tick never changes, and a successful sell leaves exactly that |
| `QuantityText.RoundTrip` | src/autr/infra/bybit/client.py:184-198 | the printed quantity reads back as exactly the same number, at every precision |
| `QuantityText.BuyTextIsSafe` | src/autr/infra/bybit/client.py:148-256 | the text of a buy, read back by the order call, spends within the allowed amount and passes the maximum check |
| `QuantityText.BuyTextStaysWithin` | src/autr/infra/bybit/client.py:148-184 | the same bounds on balance and cap for the printed buy, read back |
| `QuantityText.OrderSizedIff` | src/autr/infra/bybit/client.py:148-204 | when there is a text at all, for buys and sells, in terms of price, balance, cap, share, minimum and available coins |
| `QuantityText.TextAcceptedIff` | src/autr/infra/bybit/client.py:238-256 | the last checks pass a text if and only if it is worth the minimum at the price seen then and, in a buy only, at most the maximum |
| `QuantityText.DecimalsOfSymbol` | src/autr/infra/bybit/client.py:184-211 | a text has two decimals for XRP, four for SOL and six for any other symbol |
| `QuantityText.SellTextIsCovered` | src/autr/infra/bybit/client.py:186-198 | the text of a sell never exceeds what is available and leaves less than a tick |
| `QuantityText.StripPreservesValue` | src/autr/strategies/regime_trend_strategy.py:255-257 | stripping zeros and the point keeps the value and every digit of the integer part, for every precision above zero |
| `QuantityText.StripWithoutPointIff` | src/autr/strategies/regime_trend_strategy.py:257 | without decimals it keeps the value if and only if the number does not end in zero |
| `Heartbeats.Watchdog.CheckOnce` | src/autr/services/run_watchdog.py:57-87 | memory and notices of one pass over the services |
| `Heartbeats.ServicesAreIndependent` | src/autr/services/run_watchdog.py:62-87 | a pass treats each service as a look at it alone would |
| `Heartbeats.Watchdog.Watch` | src/autr/services/run_watchdog.py:89-100 | memory and notices of so many rounds of the loop |
| `Heartbeats.PassesAreLooks` | src/autr/services/run_watchdog.py:57-100 | over every run of passes the watchdog says about a service, and remembers of it, what looks at it alone do |
| `Heartbeats.AlertsArePaced` | src/autr/services/run_watchdog.py:57-100 | over every run of passes and for every service, alerts of one outage are a threshold apart and every recovery answers the latest unanswered alert, with its age |
| `Heartbeats.NextNotice` | src/autr/services/run_watchdog.py:57-87 | after every run of passes, the next one alerts a missing service if and only if its threshold has passed since the last unanswered alert, and reports a returned one if and only if an alert is unanswered |
| `Heartbeats.HealthyConsumerStaysAlive` | src/autr/services/run_executor_consumer.py:51-60 | if iterations take at most d and interval + d fits into the time to live, every check after the first beat finds the key |
| `Heartbeats.NextPassSeen` | src/autr/services/run_watchdog.py:57-64 | a check of a consumer that has beaten is one more pass at its time, which finds the service if and only if its key is live then |
| `Heartbeats.HealthyConsumerIsNeverReported` | src/autr/services/run_strategy_consumer.py:433-438 | the watchdog's passes never alert about such a consumer after its first beat, whatever they find of the others |
| `Heartbeats.TightInterval` | src/autr/services/run_executor_consumer.py:51-60 | beyond that bound, for every d > 0, a prompt run exists in which a pass misses the key |
| `Heartbeats.NeverMissedIff` | src/autr/services/run_executor_consumer.py:51-60 | a prompt consumer is never missed if and only if beat interval + d fits into the time to live |
| `ExecutorConsumers.SymbolFollowsLastMessage` | src/autr/services/run_executor_consumer.py:75-84 | the loop's symbol is the one of the last readable message, well-formed or not |
| `ExecutorConsumers.BlankRepairIff` | src/autr/infra/db/sqlite.py:545-570 | a repair under an empty symbol leaves the rows alone if and only if it could not read them, they hold next to nothing, or the first could not be closed; otherwise it closes the rows it sees |
| `ExecutorConsumers.BlankMessageLosesRowsIff` | src/autr/services/run_executor_consumer.py:62-84 | after a message without a symbol and until the next message rows are only closed, and the table stays as it is if and only if every repair is not due or idles |
| `ExecutorConsumers.BlankMessageClosesHeldRow` | src/autr/services/run_executor_consumer.py:62-84 | a concrete run: one held coin, a message without a symbol, and the next repair closes its row |
| `ExecutorConsumers.ForeignSymbolKeepsRows` | src/autr/services/run_executor_consumer.py:62-84 | under another symbol the repair leaves this symbol's rows alone |
| `ExecutorConsumers.BuyMessageBuys` | src/autr/services/run_executor_consumer.py:75-107 | a well-formed buy message is answered, never by a sale, closes no row, and what it orders and books is a buy of its signal at its price |
| `ExecutorConsumers.SellMessageSells` | src/autr/services/run_executor_consumer.py:75-107 | the mirror for a sell message, which opens no row |
| `ExecutorConsumers.OtherMessageDoesNothing` | src/autr/services/run_executor_consumer.py:75-107 | a timeout, an unreadable or incomplete message, and any other side order and book nothing |
| `ExecutorConsumers.DueBeatIsLive` | src/autr/services/run_executor_consumer.py:51-60 | a due heartbeat is live for exactly its time to live; one that is not due writes nothing |
| `ExecutorConsumers.RepairsWhenDue` | src/autr/services/run_executor_consumer.py:62-70 | only an upkeep five minutes after the last repair touches the rows, under the loop's symbol |
| `ExecutorConsumers.RepairsArePaced` | src/autr/services/run_executor_consumer.py:62-70 | over every run two repairs are at least five minutes apart, whatever the clock does in between |
| `ExecutorConsumers.DueRepairConverges` | src/autr/services/run_executor_consumer.py:62-70 | a due repair brings the table into agreement before the turn's message is handled |
| `ExecutorConsumers.ExecutorConsumer.OneTurn` | src/autr/services/run_executor_consumer.py:51-107 | one turn: heartbeat, repair, symbol, and the order call the message asks for |

## Left out

- Other symbols: one symbol is modelled; messages and repairs for others are seen only as turns in which this symbol's rows stay as they are, and the rows of others that a repair without a symbol reads, too, are not part of its table.
- IEEE rounding: prices, quantities and indicators are reals; `round(x, k)` is rounding half to even of the real number.
- Exchange calls: retries, response parsing and partial information; an order is either accepted with an optional filled quantity or rejected, so an order that fills while the client reports a failure is not modelled.
- `ExecutorSteps.Finish`: the clock readings of one call are inputs and, outside `Protocol`, not assumed to be ordered; the two readings of one lock acquisition are taken to be equal.
- Repairs interleave with calls in `Protocol` as a whole or through single row closings and openings; the repair's own reads are not separate steps there.
- `Protocol.AtMostOnce`: signal ids are unique by assumption of the caller; their generation from time and random bits is not modelled.
- Row ids, open times and close times: a row's id is its index, rows are read newest first by position, and clock ties in `open_time` are not modelled.
- Percentages stored with rows and reported with sells, the summary with win rate, signal log and portfolio snapshots: not modelled.
- `postgres.py` repeats the logic of `sqlite.py`.
- Indicator frames: RSI, rolling means, Bollinger bands and the volatility and band-width series need square roots or library windows; bars, series and the number of returns are inputs of the engines and of the classifier.
- The reported volume ratio and the rounded percentile fields of the regime state.
- State, regime and API keys written after each tick, Discord messages and log text.
- `StrategyConsumers.BuildEngine`: parameters are the defaults and built-in presets the engines' decisions depend on; parameters from the environment at start-up are an arbitrary engine.
- `FundingArb.ExposureLaw`: fills are complete, quantities are counted in ticks, and setting the leverage is not modelled; the perpetual's size is taken to be on the same grid as the order text.
- `FundingArb.NoSecondPosition`: one funding-arbitrage consumer runs; two of them are not interleaved.
- `Pipeline.RestartEstablishes`: signals that an executor has taken from the queue but not finished when the consumer restarts are not modelled.
- The legacy `*Strategy` polling loops and `PositionService`, which bypass the executor; only the engines and the quantity text of the restore are modelled.
- `risk_policy.py`, `state_machine.py`, HTTP routes, settings, collectors, connection handling of the real Redis client.
