# Verification of the prediction-market engine

The engine is one pipeline: JSON messages become ticks, ticks cross a lock-free single-producer
single-consumer ring, a strategy thread applies them to a book, reads two signals off the top of the
book, makes mock fills and hands log events to a second ring that a worker thread drains to disk. This
project models that pipeline in Dafny and proves what it keeps, step by step and over whole runs.

`dafny verify dfyconfig.toml` checks everything.

## What is modelled

| file | part of the program |
|---|---|
| `Machine.dfy` | `uint32`, `size_t` and `int` as ranges, wrapping sums, bitwise AND, the static assertions on a ring size |
| `RingProtocol.dfy` | `push` and `pop` split at their atomic accesses, over counters that never wrap; slots are dead or live |
| `RingHistory.dfy` | calls, effects and returns; the bounded FIFO queue; what becomes of what is pushed |
| `Linearizability.dfy` | which runs have a placement of effects that a bounded FIFO queue can replay |
| `RingWrapped.dfy` | the same steps on wrapping `size_t` indices, a mask, and the modification orders of the two atomics |
| `WrappedHistory.dfy` | the same histories told of the wrapped steps |
| `SpscQueue.dfy` | the queue object over an array, one thread at a time, with its destructor |
| `RingDestructor.dfy` | the memory two stopped threads leave to the destructor |
| `OrderBook.dfy`, `Microprice.dfy` | the book object, best-price scans, the top of book and its microprice |
| `MomentumAlpha.dfy`, `OfiAlpha.dfy`, `OfiLaws.dfy` | the two signals, and what order flow means for the book |
| `PositionManager.dfy` | fills, average entry price, realized and unrealized profit |
| `Engine.dfy`, `StrategyEngine.dfy` | one loop iteration and whole runs as a function of the ticks popped; the object that computes it in place |
| `EngineLog.dfy`, `EngineLedger.dfy` | the log as an account of the trades; the log of a run entry by entry |
| `EngineMirror.dfy`, `EngineMirrorView.dfy` | the complement market: whole states, and what shows of them |
| `Pipeline.dfy` | the parser thread and the engine thread around the ring, from messages to trades |
| `AsyncLogger.dfy` | the logger's ring and its shutdown |
| `EndToEnd.dfy` | parser, tick ring, engine, event ring and worker as one step system, from messages to the rows of the file |
| `Decimal.dfy`, `DecimalForms.dfy` | decimal prices and sizes; which strings they are |
| `MarketParser.dfy`, `ParserLaws.dfy`, `MessageLaws.dfy` | messages to ticks; ticks to book; batches, hints, failures and skipped elements |

Objects that the program updates in place are classes whose methods are proved equal to specification
functions; the properties are lemmas about those functions. An atomic load of the other thread's index
is a choice, named in the action, among the stores not older than the newest one that thread has read
(C++20, section 6.9.2.1 [intro.races]); a load that reads the cleared flag of the logger also sees every
store released before it. Prices, scores and money are real numbers, so the laws are exact.

## Main results

1. **Ring.** In every interleaving, with stale loads and across any number of index wraps, for every
   capacity the static assertions admit: first in first out, bounded, a construction meets a dead slot,
   moves and destructions meet live ones, and the threads never work on one slot. The wrapped, masked
   ring takes exactly the steps of the ring whose counters never wrap, and what two stopped threads leave
   behind the destructor destroys once each, and nothing else.
2. **Linearizability.** A run can have its effects placed inside its calls so that a bounded FIFO queue
   replays them if and only if every refused push was called when the calls returned so far left no room,
   and every pop that found nothing when they left nothing. Loading an index that was current at some
   moment since the call is enough. With the effects fixed at the index stores, and at the loads that
   decide failures, they replay if and only if no failure was decided by a stale load.
3. **Pipeline.** In every such interleaving the engine is the sequential engine folded over the ticks
   accepted so far, which are the ticks of the messages parsed, in order, less those refused: the
   trades are a function of the messages and the refusals. Runs that accept and drain the same ticks
   agree on everything.
4. **Engine.** After any ticks the signals hold exactly the top of their latest update, so the fills of a
   run are a function of consecutive tops. The gates on two tops that open a trade are given for all
   three selections, in both directions. An update that finds the top unchanged never trades; a repeated
   tick changes nothing but the tick count and at most one mark in the log. The log of a run is
   given entry by entry from its tops: which ticks write a mark or a trade, at which price; every entry can
   be recomputed from the trades logged before it. The order flow of a tick is the size it adds to a bid
   level, or takes from an ask level, not behind the best, and the score is a closed form in it.
5. **Complement market.** Read every price `p` as `100 - p` and exchange the sides. At every step of a run
   the whole state is mirrored, stored microprice included, and the scores are opposite, if and only if
   no update of the run has a size sum that wraps; for the order-flow signal alone, none after the first.
   What shows from outside (scores, position, average, profit, equity at every mark) is symmetric if and
   only if each update's two tops are balanced: for order flow no wrap, for momentum no move that wrapping
   carries across a cent.
6. **Positions.** Equity is conserved fill by fill at every mark, so the order of fills is invisible;
   splitting a fill is invisible from every state; closed volume, the hull of the average entry price and
   the bound on realized profit hold over every sequence of fills.
7. **Parsing.** Dotted prices are the exact value in cents, to the nearest and ties up, modulo 2^32; sizes are
   integers or whole millionths; when prices and sizes keep the order of their values is given exactly.
   The strings that are prices and sizes are characterized by their digits and point. Rendered snapshots and
   deltas, alone or in batches with anything between, read back as the ticks rendered; a full snapshot
   restores its book from any book; a quote below 1.005 is filled within half a cent.
8. **Logger.** When the worker returns, the rows are exactly the accepted events, in order. For the program
   as a whole they are the engine's log less the events its ring refused, so the file is a function of the
   messages, of what each ring refused and of how many ticks were processed; with no event refused, it is an
   account that can be audited row by row and leads to the engine's final position.

## Where the code does less than it seems to

- The sum of the two top sizes is a 32-bit sum. When it wraps, the microprice leaves the spread
  (`Microprice.MicroInSpread`). `OfiAlpha.MirrorConfidence`, `EngineMirrorView.MirrorJump`,
  `EngineMirror.RunMirrors` and `EngineMirrorView.MirroredNumbers` say exactly when scores, whole states and
  visible numbers lose their symmetry; `EngineMirror.WrapBreaksSymmetry` is three ticks after which both
  markets buy. Sizes below 2^31 never wrap (`EngineMirror.SmallSizesNeverWrap`).
- Cents are 32-bit too: the price 42949672.97 reads as one cent and is accepted
  (`Decimal.PriceWraps`), as is every quoted price plus whole laps (`ParserLaws.WrappedPriceIsQuoted`).
  `Decimal.PriceIsExact` and `ParserLaws.QuotedPriceIsExact` say exactly when the value is kept.
- The unit of a size depends on its digits (`Decimal.SizeUnitsMix`), that of a price on its point
  (`Decimal.PriceUnitsMix`): `Decimal.SizesKeepOrder` and `Decimal.PricesKeepOrder` say exactly when two of
  them read in the order of their values. A size below a millionth deletes its level
  (`Decimal.SizeVanishesBelowAMillionth`), zero or not (`Decimal.TinySizeVanishes`).
- A push can be refused by a ring that has room from its call to its return, when its load is stale; such
  a run need not be linearizable (`Linearizability.StalePushFails`).
- ARCHITECTURE.md says that the signals are updated on each tick; the code updates them only when both sides
  are present and the size sum is not zero, and the model follows the code.

## Model

| member | source | states |
|---|---|---|
| Machine.AssertedSizeIsPower | include/spsc_queue.hpp:14-15 | what passes the static assertion on the capacity is a power of two |
| Machine.MaskIsMod | include/spsc_queue.hpp:73 | AND with 2^k - 1 is the remainder modulo 2^k |
| Machine.MaskOfWrapped | include/spsc_queue.hpp:45-73 | masking a wrapped index gives the slot of the counter that never wraps, for every admissible capacity |
| RingProtocol.StepKeepsInv | include/spsc_queue.hpp:35-70 | every atomic step of either thread keeps the window of live slots, the counters and the local copies consistent |
| RingProtocol.SafeInEveryRun | include/spsc_queue.hpp:35-70 | in every interleaving: FIFO, bounded, constructions on dead slots, moves and destructions on live ones, never both threads on one slot, earlier conflicting accesses already published |
| RingProtocol.DestructorIsExact | include/spsc_queue.hpp:22-33 | with both threads stopped, the live slots are exactly those of the counters between the two indices, each met once |
| RingHistory.StepIsFifo | include/spsc_queue.hpp:37-68 | a step is a legal step of the bounded FIFO queue, to the new queue, exactly when it is not a failure decided by a stale load |
| RingHistory.CallsAreWellPhased | include/spsc_queue.hpp:35-70 | every call has exactly one effect, after it is called and before it returns, and returns what the effect decided, stale loads or not |
| RingHistory.EffectsReplay | include/spsc_queue.hpp:35-70 | the effects in order run the bounded FIFO from what was queued to what is queued, exactly when every failure loaded a current index |
| RingHistory.EffectPointsReplay | include/spsc_queue.hpp:35-70 | from the empty ring, with effects at the index stores and the deciding loads: they run the bounded FIFO exactly when no failure was decided by a stale load |
| RingHistory.AcceptedIsKept | include/spsc_queue.hpp:35-51 | what is accepted is, in order, what was pushed and not refused |
| Linearizability.LegalIsJustified | include/spsc_queue.hpp:35-70 | in any history with effects inside the calls that the bounded FIFO replays, failed calls were called when those returned so far left the queue full, or empty |
| Linearizability.LinearizableExactly | include/spsc_queue.hpp:35-70 | a run has a placement of effects that the bounded FIFO replays exactly when its failed calls were so called |
| Linearizability.FreshIsLinearizable | include/spsc_queue.hpp:37-62 | it has one if every failed call loaded an index current at some moment since the call |
| Linearizability.StalePushFails | include/spsc_queue.hpp:38-43 | a reachable run that is not linearizable: a stale load refuses a push on a ring with room throughout the call |
| RingWrapped.FullTestIsExact | include/spsc_queue.hpp:40 | the wrapped difference of the indices is the true distance, so the full test is exact |
| RingWrapped.EmptyTestIsExact | include/spsc_queue.hpp:58 | wrapped indices are equal exactly when the counters are |
| RingWrapped.StepRefines | include/spsc_queue.hpp:35-73 | each step on wrapped indices is the same step on counters that never wrap |
| RingWrapped.RunRefines | include/spsc_queue.hpp:35-73 | the same for runs of any length, across wraps |
| RingWrapped.InvIsFormed | include/spsc_queue.hpp:45-64 | in every reachable state each masked index is inside the buffer |
| RingWrapped.SafeInEveryRun | include/spsc_queue.hpp:35-73 | ring safety on the wrapped indices and the masked slots themselves |
| WrappedHistory.HistoryRefines | include/spsc_queue.hpp:35-73 | the wrapped ring shows its callers what the unwrapped one shows them, and its failures read as new a store |
| WrappedHistory.EffectPointsReplay | include/spsc_queue.hpp:35-73 | the effects decided on wrapped indices run the bounded FIFO exactly when every failed call read the newest store |
| WrappedHistory.LinearizableExactly | include/spsc_queue.hpp:35-73 | which runs of the wrapped ring are linearizable, exactly |
| WrappedHistory.FreshIsLinearizable | include/spsc_queue.hpp:35-73 | enough: every failed call reads a store that was the newest at some moment since the call |
| RingDestructor.StoppedRunIsQueue | include/spsc_queue.hpp:22-33 | after any interleaving with both threads stopped, the slots behind the wrapped read index hold what is queued, in order, every other slot is dead, and the indices are that many apart: what the destructor walks |
| SpscQueue.SpscQueue.Push | include/spsc_queue.hpp:35-51 | refuses exactly when full, else appends |
| SpscQueue.SpscQueue.Pop | include/spsc_queue.hpp:53-70 | nothing exactly when empty, else the oldest item, which leaves |
| SpscQueue.SpscQueue.Destroy | include/spsc_queue.hpp:22-33 | the destructor destroys exactly the items held, oldest first, each once, and leaves no live slot |
| OrderBook.LimitOrderBook.ApplyTick | include/order_book.hpp:28-43 | overwrites one level in place, ignores prices out of range |
| OrderBook.LimitOrderBook.GetBestBid | include/order_book.hpp:46-57 | the highest level in use, or the sentinel when none is |
| OrderBook.LimitOrderBook.GetBestAsk | include/order_book.hpp:59-70 | the lowest level in use, or the sentinel when none is |
| OrderBook.TopIsBest | include/ofi_alpha.hpp:16-40 | the top of any book: best levels in use, nothing better in use, their sizes; none exactly when a side is empty |
| OrderBook.LastWriteWins | include/order_book.hpp:28-43 | after any ticks every level holds its last written size |
| Microprice.UsableTops | src/strategy_engine.cpp:76-88 | every two-sided book leads to an update, crossed or not, unless its sizes make exactly 2^32 |
| Microprice.MicroInSpread | include/ofi_alpha.hpp:73-78 | on an uncrossed book the microprice lies in the spread exactly when the 32-bit size sum did not wrap (or both prices are zero) |
| Microprice.PressureClosedForm | include/ofi_alpha.hpp:73-82 | distance from the middle over the spread is half the size imbalance, whatever the prices |
| Microprice.MirrorMicro | include/momentum_alpha.hpp:25-34 | the complement's microprice is the complement of the microprice exactly when the size sum did not wrap |
| MomentumAlpha.MomentumAlpha.UpdateScore | include/momentum_alpha.hpp:12-56 | the update in place is the specified one: state and score |
| OfiAlpha.OFIAlpha.UpdateScore | include/ofi_alpha.hpp:13-96 | the update in place is the specified one, the flow being order-flow imbalance written as four one-sided terms |
| OfiAlpha.PressureIsImbalance | include/ofi_alpha.hpp:73-82 | without a wrap the pressure clamp does nothing, and pressure stays below one half |
| OfiAlpha.ConfidenceBound | include/ofi_alpha.hpp:73-88 | confidence stays below 0.825 on an uncrossed book whose size sum does not wrap |
| OfiAlpha.SameTopConfidence | include/ofi_alpha.hpp:42-88 | an unchanged top has no flow and a confidence of at most 0.35 |
| OfiAlpha.MirrorConfidence | include/ofi_alpha.hpp:42-88 | the complement market has the opposite confidence exactly when the size sum does not wrap |
| OfiLaws.BidFlow | include/ofi_alpha.hpp:45-57 | the flow of a bid tick is what it adds to its level, if that is not behind the best bid: growth and better bids count up, shrinking and deletion down |
| OfiLaws.AskFlow | include/ofi_alpha.hpp:59-71 | the flow of an ask tick is what it takes from its level, if that is not behind the best ask |
| OfiLaws.FlowSplits | include/ofi_alpha.hpp:42-71 | the flow between any two tops is that of the bid side and that of the ask side |
| OfiLaws.ConfidenceValue | include/ofi_alpha.hpp:73-88 | the score in closed form on uncrossed books without a wrap: 0.65 times flow over the true size sum, at most 1, and 0.35 times half the imbalance |
| OfiLaws.CrossedPressure | include/ofi_alpha.hpp:73-82 | the pressure of a crossed book, in closed form |
| OfiLaws.VanishedSum | include/ofi_alpha.hpp:73-88 | with a size sum of 2^32 only the sign of the flow counts |
| OfiLaws.GrowthMovesScore | include/ofi_alpha.hpp:42-96 | a best bid that grows raises the score of the update, a best ask that grows lowers it |
| OfiLaws.ResetForgets | include/ofi_alpha.hpp:20-24 | after a one-sided book the next update scores nothing |
| PositionManager.PositionManager.AddFill | include/position_manager.hpp:11-75 | the five branches in place, in `int`s that do not overflow, are the signed specification |
| PositionManager.NoOverflowIsExact | include/position_manager.hpp:30-59 | the guard on a fill holds exactly when every `int` of the branch taken fits |
| PositionManager.EntryValue | include/position_manager.hpp:19-74 | value at entry: what stays open keeps its price, what enters comes in at the fill's |
| PositionManager.FillConservesEquity | include/position_manager.hpp:11-80 | a fill moves equity at any mark by its size times its distance to the mark |
| PositionManager.EquityConserved | include/position_manager.hpp:11-80 | the same over any fills from any position |
| PositionManager.FillOrderIsInvisible | include/position_manager.hpp:11-80 | permuted fills end in the same position and equity |
| PositionManager.FlatRealizesCash | include/position_manager.hpp:47-67 | back to flat, realized profit is the cash taken in |
| PositionManager.FillSplittingIsInvisible | include/position_manager.hpp:19-74 | filling a + b at one price is filling a, then b, from every state, before, at or past zero |
| PositionManager.ClosedVolumeLaw | include/position_manager.hpp:43-59 | twice the closed quantity is the quantity filled less what the position grew |
| PositionManager.AverageInHull | include/position_manager.hpp:30-74 | the average entry price stays in the hull of the prices that built the position, 0 when flat |
| PositionManager.RealizedWithinClosedVolume | include/position_manager.hpp:43-59 | for prices in [0, 1], realized profit is at most the quantity closed |
| PositionManager.TotalBoundsOverflow | include/position_manager.hpp:30-59 | fills whose quantities fit `int` in total never overflow on the way |
| PositionManager.ComplementFill | include/position_manager.hpp:11-75 | opposite fills at complementary prices keep positions complementary, profit equal |
| Engine.ScoreGates | src/strategy_engine.cpp:102-124 | the averaged score crosses the threshold exactly when the gates on the last two tops open, for each selection |
| Engine.SignalsRememberLastTop | src/strategy_engine.cpp:74-108 | after any ticks both signals hold exactly the top of their latest update, and the reset branch was never taken |
| Engine.RunTradesOnTops | src/strategy_engine.cpp:74-131 | a run's position is that of the fills its tops decide, and its log reports exactly those |
| Engine.UnchangedTopNeverTrades | src/strategy_engine.cpp:74-131 | an update that finds the top as the previous one left it does not trade |
| Engine.RepeatedTickIsIdle | src/strategy_engine.cpp:74-141 | a tick repeated changes only the tick count and at most one mark |
| EngineLog.LogIsAuditable | src/strategy_engine.cpp:92-141 | every logged profit is what the trades logged before it realized, or are worth at the marked price; replaying them gives the engine's position |
| EngineLedger.LogIsLedger | src/strategy_engine.cpp:90-141 | the log of any run, entry by entry: a mark at the first usable top, the trades the gates open, a mark at each thousandth tick with a usable top, with price, size and profit of each |
| EngineLedger.MarksOfRun | src/strategy_engine.cpp:90-141 | the number of marks: one for the first usable top, one for each due tick with a usable top |
| EngineLedger.FillPrices | src/strategy_engine.cpp:18-21 | a trade buys 10 at that tick's best ask or sells 10 at its best bid, in hundredths |
| Engine.EnginePosition | src/strategy_engine.cpp:111-131 | position is ten times buys less sales, average in [0, 1], equity within ten times the trades, profit within the volume closed |
| Engine.EngineNeverFlipsNorOverflows | src/strategy_engine.cpp:111-131 | no fill crosses zero; none overflows while ten times the trades fits `int` |
| StrategyEngine.StrategyEngine.constructor | src/strategy_engine.cpp:24-50 | the selection's signals, in order, in their initial states |
| StrategyEngine.StrategyEngine.AverageScore | src/strategy_engine.cpp:103-109 | the loop over the signals updates each and averages their scores |
| StrategyEngine.StrategyEngine.OnTick | src/strategy_engine.cpp:74-141 | the loop body in place is the specified step |
| StrategyEngine.StrategyEngine.Run | src/strategy_engine.cpp:57-143 | the loop over any outcomes of its polls is the fold over the ticks popped, while the position fits `int` |
| EngineMirror.MirrorSignalTop | include/order_book.hpp:46-70 | best-price scans of the mirrored book |
| EngineMirror.MirrorSignals | src/strategy_engine.cpp:102-108 | both signals of the mirrored engine: states mirrored and scores negated exactly when the size sum does not wrap, or it is the first update of order flow alone |
| EngineMirror.StepMirrors | src/strategy_engine.cpp:74-141 | a step commutes with mirroring and negates the scores under exactly that condition |
| EngineMirror.RunMirrors | src/strategy_engine.cpp:57-143 | whole runs, each selection: states mirrored and scores negated at every step exactly when no update wraps; for order flow alone, none but the first |
| EngineMirror.NeverWrapsIsNeverUpset | src/strategy_engine.cpp:57-143 | a run without a wrapped size sum meets the condition of `RunMirrors`; with momentum, only such a run |
| EngineMirrorView.MirrorJump | include/momentum_alpha.hpp:25-53 | opposite momentum scores in the two markets exactly when wrapping carries the move across a cent neither way |
| EngineMirrorView.MirrorScores | src/strategy_engine.cpp:102-109 | opposite scores for two consecutive tops, each selection, exactly when they are balanced |
| EngineMirrorView.MirroredNumbers | src/strategy_engine.cpp:92-141 | at every step scores opposite, position negated, average 1 - a, profit and marked equity identical, exactly when every update has balanced tops |
| EngineMirrorView.NeverUpsetIsBalanced | src/strategy_engine.cpp:84-131 | runs with mirrored states look mirrored |
| EngineMirrorView.WrappedStartLooksMirrored | src/strategy_engine.cpp:84-131 | not conversely: a run whose first update wraps looks mirrored though momentum stores microprices that are not |
| EngineMirror.SmallSizesNeverWrap | src/strategy_engine.cpp:84-86 | ticks with sizes below 2^31 never wrap |
| EngineMirror.WrapBreaksSymmetry | src/strategy_engine.cpp:84-131 | three ticks whose last wraps: both markets buy |
| Pipeline.EngineFoldsAcceptedTicks | src/strategy_engine.cpp:62-142 | at any moment of any interleaving the engine is the sequential engine folded over the first accepted ticks, one per completed pop |
| Pipeline.ScheduleIsInvisible | src/strategy_engine.cpp:62-142 | executions that accept and drain the same ticks agree on book, signals, position, profit and log |
| Pipeline.MessagesToTrades | src/strategy_engine.cpp:62-142 | end to end: the ring accepts the ticks of the messages less those refused, all in range, and position and logged trades are those their tops decide |
| Pipeline.NothingLost | src/strategy_engine.cpp:62-142 | all pushed, none refused, all drained: the engine is the sequential engine run on the messages' ticks |
| AsyncLogger.ShutdownLosesNothing | include/async_logger.hpp:41-145 | at worker exit the ring is empty and the rows are the accepted events, once each, in order |
| AsyncLogger.DrainTerminates | include/async_logger.hpp:132-142 | each step of a draining worker lowers a measure led by the queue length, and it always has a step |
| AsyncLogger.AcceptedIsKept | include/async_logger.hpp:52-69 | the accepted events are those logged and not refused, in order |
| EndToEnd.LoggedIsScript | src/strategy_engine.cpp:92-141 | the events logged between two states of the program are those the engine produced, in order |
| EndToEnd.FileIsKeptLog | src/main.cpp:159-212 | once the worker has returned, the file holds the strategy's name and the engine's whole log less what the event ring refused, in order |
| EndToEnd.MessagesToFile | src/main.cpp:159-212 | the rows as a function of the messages, of what each ring refused and of the number of ticks processed |
| EndToEnd.FileIsAuditable | src/main.cpp:159-212 | with no event refused, every row can be recomputed from the trades above it, and they lead to the engine's final position |
| EndToEnd.FillNearQuote | src/strategy_engine.cpp:111-124 | a trade against a level quoted with a point below 1.005 is made within half a cent of the quote |
| Decimal.ParseU32 | include/market_parser.hpp:147-164 | digits only, at least one, in 32 bits |
| Decimal.ParsePriceCents | include/market_parser.hpp:243-327 | cents as they stand without a point; with one, the exact value in cents rounded half up, in 32 bits; refused exactly otherwise |
| Decimal.ParseSizeU32 | include/market_parser.hpp:169-239 | an integer, or the exact value in millionths cut off; refused exactly when malformed or out of 32 bits |
| Decimal.ScaleToSixDigits | include/market_parser.hpp:219-229 | the accumulating and padding loops give the first six digits, without overflow |
| Decimal.RoundingLooksAtThreeDigits | include/market_parser.hpp:278-324 | rounding the exact value half up is reading three digits |
| Decimal.MillionthsLookAtSixDigits | include/market_parser.hpp:219-231 | cutting the exact value off at millionths is reading six digits |
| Decimal.PriceIsExact | include/market_parser.hpp:320-326 | a dotted price keeps its rounded exact value exactly below 42949672.955 |
| Decimal.PriceIsNear | include/market_parser.hpp:320-326 | the rounded value is within half a cent of the exact one |
| Decimal.PriceWraps | include/market_parser.hpp:320 | a price that wraps into the quoted range |
| Decimal.PricesKeepOrder | include/market_parser.hpp:243-327 | two prices that do not wrap read in the order of their values, always, unless the lower has a point, the higher has none, and the lower's cents round above it: an iff |
| Decimal.PriceUnitsMix | include/market_parser.hpp:241-263 | 0.57 reads above 1 |
| Decimal.TrailingZeroIsInvisible | include/market_parser.hpp:278-318 | a trailing zero changes no price |
| Decimal.PrintedPriceIsRead | include/market_parser.hpp:243-327 | reading a printed price gives it back, modulo 2^32 |
| Decimal.SizeVanishesBelowAMillionth | include/market_parser.hpp:200-239 | an accepted size reads as zero exactly when its value is below a millionth |
| Decimal.TinySizeVanishes | include/market_parser.hpp:219-239 | a size that is not zero and reads as zero |
| Decimal.SizeAcceptance | include/market_parser.hpp:194-238 | a dotted size is accepted exactly when it is an integer or its millionths fit 32 bits |
| Decimal.SizesKeepOrder | include/market_parser.hpp:169-239 | two accepted sizes read in the order of their values, always, unless the smaller is a fraction, the larger an integer, and the smaller's millionths exceed it: an iff |
| DecimalForms.PriceOfParts | include/market_parser.hpp:243-327 | digits, a point, digits: refused when the fraction is missing or the integer part exceeds 32 bits, else the rounded cents; the integer part may be missing |
| DecimalForms.LeadingPointPrice | include/market_parser.hpp:269-276 | a missing integer part reads as zero, never refused |
| DecimalForms.PriceAcceptance | include/market_parser.hpp:243-327 | the strings that are prices, by their digits and point |
| DecimalForms.SizeOfParts | include/market_parser.hpp:176-239 | digits, a point, digits as a size: integer, whole millionths, or refused |
| DecimalForms.PointAtTheEnds | include/market_parser.hpp:182-198 | a size may begin or end with its point, a price may not end with it |
| DecimalForms.SizeAcceptanceOfStrings | include/market_parser.hpp:169-239 | the strings that are sizes, by their digits and point |
| DecimalForms.LeadingPointIsRead | include/market_parser.hpp:35 | the price .48 is 48 cents, the size .5 is 500000 millionths |
| MarketParser.ParseElements | include/market_parser.hpp:352-625 | the list loops offer the queue exactly the elements' ticks, up to the first fatal element |
| MarketParser.ParseMessage | include/market_parser.hpp:91-139 | the schema is chosen by the event type; bids before asks; a failure stops the message |
| MarketParser.ParseTick | include/market_parser.hpp:40-87 | an initialized parser offers exactly the ticks of a payload in bounds, in order, whatever becomes of them; a queue not popped meanwhile keeps those that find room |
| ParserLaws.DocumentInRange | include/market_parser.hpp:141-145 | every tick of every document has a price the book can hold |
| ParserLaws.QuotedPriceIsExact | include/market_parser.hpp:141-145 | a dotted price is quoted at its rounded exact value exactly below 1.005, and quoted at all exactly when its cents modulo 2^32 are in range |
| ParserLaws.WrappedPriceIsQuoted | include/market_parser.hpp:141-145 | whole laps of 32-bit cents above a quoted price are quoted as that price |
| ParserLaws.ListFailsAtFirstFatal | include/market_parser.hpp:352-388 | a list fails exactly when an element is fatal, and keeps what it emitted before |
| ParserLaws.HintsBoundTheTop | include/market_parser.hpp:574-622 | once a change's accepted ticks are applied, the best prices are at least as good as its accepted hints |
| ParserLaws.SnapshotIsRead | include/market_parser.hpp:102-138 | rendered snapshots of both schemas read back as their levels, in order |
| ParserLaws.ChangesAreRead | include/market_parser.hpp:488-626 | rendered deltas read back as their ticks |
| ParserLaws.FullSnapshotRestoresBook | include/market_parser.hpp:102-113 | a snapshot of every level, parsed and applied to any book, leaves the book it was taken of |
| MessageLaws.PayloadIsRead | include/market_parser.hpp:40-62 | a payload is read exactly when the parser was set up, it has 1 to 65536 bytes and is a document |
| MessageLaws.BatchesConcat | include/market_parser.hpp:70-84 | a batch is its parts: a message adds what it gives alone, failed or not, and stops nothing |
| MessageLaws.BatchOfOne | include/market_parser.hpp:70-84 | a message in a batch gives what it gives alone; anything else is passed over |
| MessageLaws.BatchIsRead | include/market_parser.hpp:63-87 | batches of rendered snapshots and deltas, with what is not an object between them, read back as their ticks |
| MessageLaws.OtherEventsAreIgnored | include/market_parser.hpp:97-122 | events of other kinds are accepted and offer nothing |
| MessageLaws.UntypedEventIsPairs | include/market_parser.hpp:97-138 | an event type that is no string is ignored |
| MessageLaws.ListsThatAreNot | include/market_parser.hpp:330-350 | a list field of another type fails the message, a missing one does not |
| MessageLaws.ChangesThatAreNot | include/market_parser.hpp:491-506 | the same of the list of changes |
| MessageLaws.PlainDocuments | include/market_parser.hpp:63-87 | what is neither a message nor a batch fails; an empty message does not |
| MessageLaws.FailedListKeepsTicks | include/market_parser.hpp:352-358 | what came before a fatal element stays, and nothing behind it is read, nor the other list |
| MessageLaws.PairFate | include/market_parser.hpp:352-407 | which pairs are fatal and which emit their level; the rest is skipped |
| MessageLaws.ObjectFate | include/market_parser.hpp:435-483 | which objects emit their level, and that only what is not an object is fatal |
| MessageLaws.ChangeFate | include/market_parser.hpp:508-572 | which changes emit their level and on which side |
| MessageLaws.HintsAreRead | include/market_parser.hpp:574-622 | printed hints are read as levels of size one, bid first, zero and out-of-range hints dropped |

## Left out

- IEEE rounding of `double`: prices, scores and money are real numbers, so nothing is claimed at rounding boundaries.
- simdjson: a message is an abstract tree; lexing errors, duplicate fields and the padded buffer are not modelled; whether a payload is a document is given with it.
- Websocket, TLS, threads, signals and command line: only that the strategy thread has been joined before the logger's destructor runs, and was started after its name was logged.
- Clocks, latencies, flush timing and CSV formatting: log events carry kind, price, size and profit, and the first row not the strategy's name.
- The spin loops: `StrategyEngine.StrategyEngine.Run` takes the outcomes of its polls as a sequence, whose end stands for the cleared flag; fairness and liveness of polling are not modelled, termination of the drain is.
- Decimal.FromChars: the library's number reader is given by its documented meaning.
- MarketParser.ParseTick: what the queue keeps is stated for a queue nobody pops meanwhile; under interleaving `Pipeline.MessagesToTrades` says what the ring accepts of the ticks offered.
- Moved-from values in the ring: both item types are plain data, so a moved-from slot keeps its value until destroyed.
- `MarketParser.ParseElements` serves the three list loops of the parser, which differ only in how they read one element; an element's ticks are pushed after it is read whole.
- Cache-line alignment, core pinning, the replay and dashboard tools.
