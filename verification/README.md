# Trading backend: a verified model

This project models the stateful and arithmetic core of a crypto trading backend in Dafny and proves properties of it
over all inputs, all runs and all interleavings. `dafny verify dfyconfig.toml` checks everything.

| file | what it models |
|---|---|
| `MarketTypes.dfy`, `Wrappers.dfy` | shared values: candles, bars, signals, Option, Result |
| `TradeSimulator.dfy`, `TradeTheorems.dfy`, `TradeExits.dfy` | one trade, bar by bar: stop, target, partial exit, RSI reduction, trailing stop, trend flip, TTL, end of data |
| `StrategyCore.dfy`, `StrategyTheorems.dfy`, `StrategySignals.dfy` | indicators, signal quality, signal detection |
| `Backtest.dfy`, `PipelineTheorems.dfy`, `DetectionSymmetry.dfy` | execution of signals, drawdown, summary, the chain from candles to trades, and when it is symmetric |
| `ZigZag.dfy`, `ZigZagLegs.dfy`, `HarmonicPatterns.dfy`, `HarmonicMatches.dfy` | the pivot machine, pattern matching over its output, entry projection |
| `MemoryCache.dfy`, `CacheTheorems.dfy`, `KlineCache.dfy`, `KlineFiling.dfy`, `Glob.dfy` | the LRU and TTL cache, the parameter index kept over it, and the patterns it is invalidated by |
| `Pagination.dfy` | three paging loops against one range query |
| `RateLimiter.dfy` | the sliding-window limiter against the full request history |
| `EventStream.dfy`, `EventPublishers.dfy`, `EventReader.dfy`, `EventStore.dfy` | the per-run event log and its cursors; publishers that overlap; the polling reader; the store over the cache of runs |
| `Watchlist.dfy`, `WatchlistTheorems.dfy`, `WatchlistAgreement.dfy`, `WatchlistResults.dfy`, `WatchlistStore.dfy` | two backends of one watchlist |
| `StrategyRepo.dfy` | strategies, events and reports as an event-sourced state machine |
| `SignalGeometry.dfy`, `MarketScores.dfy`, `ScoreTheorems.dfy` | stop and target geometry, grades, the candidate filter, trap risk and volume authenticity |

Modelling choices. Prices and indicators are exact reals; a missing value (NaN) is `None`. The clock, generated ids and
the verdict of a schema are parameters. Code that updates state is a class or a loop, proved against a function of the
old state; what the code promises is then proved about that function. The exchange is a sorted history that answers
range requests. Each method of a store is one atomic step, except where the event log and the limiter are modelled
through interleavings.

## What the proofs found

Where the code and its documentation disagree the model follows the code.

- The trap score of `quant_trap_risk` starts at 50 and only falls, so it lies in [10, 50], not 10-90; fed to
  `trap_stop_multiplier`, which widens above 60, it never widens a stop (`MarketScores.TrapNeverWidens`).
- `trap_stop_multiplier` reaches its cap of 2.0 at 90, not at 100 (`MarketScores.MultiplierRange`).
- `stop_buffer_atr` is documented to ignore the trap, regime and grade factors; the code multiplies it by them
  (`SignalGeometry.FactorsMatter`). A zero override can put the stop on the entry (`SignalGeometry.GeometryExact`).
- Grades are given with a plain stop, and the reported ratios use one with factors and override. Without an override it
  is never nearer, so a reported ratio can be below the gate of the reported grade; a small override makes it nearer,
  and the signal deserves more than it was given (`SignalGeometry.SecondPassExact`, `ReportedBelowGate`,
  `OverrideDeservesBetter`).
- The lock-in after the partial target needs no assumption on ATR, and holds in the sharper form
  R >= (R(target) + min(0, R(close of that bar)))/2 (`TradeTheorems.LockIn`).
- Long and short detection are mirror images only while `short_rsi_min` does not exceed the overbought level of the
  RSI zone, or detect nothing at all; the pullback zone lowers that level to 60, below the default of 65
  (`DetectionSymmetry.DetectionSymmetryExact`).
- Both walking pagers lose a row when a page ends one millisecond short of the bound (`Pagination.WalksExact`); with
  candle intervals this cannot happen.
- `invalidate` of the kline cache is documented to return the number of keys deleted; it returns the number recorded,
  which is larger when some were evicted or expired (`KlineCache.CountIsExact`).
- Its pattern is documented as a glob but compiled to a regular expression and searched for. The two agree on every key
  if and only if the pattern has no dot and starts and ends with a star, up to question marks (`Glob.GlobExactly`): of
  the documented examples `*BTC*` does, `binance:BTCUSDT:*` does not. `b` removes what is recorded under `ab`
  (`Glob.BareWordIsFound`).
- The in-memory sequence counter is read and written in two steps; publishers that overlap there can store two events
  under one number (`EventPublishers.NumbersUniqueExactly`). Redis does both in one.
- In memory a publisher that finds no log starts one of its own; when two do so for a new run, the log put back last
  displaces the other and its events are lost (`EventPublishers.NoEventLostExactly`, `MemoryLogLosesEvent`).
- A dropped malformed event consumes a sequence number, after which the `after_seq` cursor is off
  (`EventStream.CursorExact`); so it is after the run's log was evicted (`EventStream.CursorAfterLoss`), and for a
  cursor below -1 on any log but an empty one (`EventStream.EveryCursorExact`). The `after_event_id` cursor returns the
  last page, not the next (`EventStream.IdCursorExact`).
- The streaming reader asks for events first and for the status of the run afterwards, and the orchestrator writes the
  final status before it publishes the final event; a reader whose patience ends in between stops without that event
  (`EventReader.GivesUpExactly`, `DoneIsMissed`).
- A reader whose log is lost skips as many events of the new log as it had sent of the old one
  (`EventReader.SkipsAfterLoss`).
- At the default tolerance of twelve percent one window can be two harmonic patterns; below 25/418 none can
  (`HarmonicMatches.PatternsDistinctExactly`).
- The first pivot of the ZigZag is the lowest point so far even when the market then falls and it is named a high
  (`ZigZagLegs.FirstPivotIsLowest`).
- The watchlist limit of fifty counts all rows of a user in memory and the rows of one market in Redis; the
  documentation says per user (`WatchlistAgreement.BackendsAgree`).
- `reset_stagnation` leaves no event, so `recent_stable_count` does not see it (`StrategyRepo.CountersOverRuns`).
- The layers that check a final report are not equivalent: the SQLite trigger compares "TODO:" without letter case, and
  neither database refuses a blank finding (`StrategyRepo.LayersDiffer`).

## Model

| member | source | states |
|---|---|---|
| `TradeTheorems.TargetSecuresHalf` | app/domain/rsi_trend_backtest.py:172-189 | taking half at the target keeps the worth marked to the target and secures half of it: at the new stop the rest is worth zero; it happens at the first touch and never again |
| `TradeTheorems.ReductionKeepsWorth` | app/domain/rsi_trend_backtest.py:191-199 | the RSI reduction keeps the worth marked to the close and the stop; it happens exactly when the target was taken and the RSI is in its extreme, and once |
| `TradeTheorems.TrailKeepsBest` | app/domain/rsi_trend_backtest.py:201-215 | trailing moves nothing but the stop, to the better of itself and the bar's trail level |
| `TradeSimulator.SimulateOne` | app/domain/rsi_trend_backtest.py:123-264 | the bar loop with its five exits computes the specification run `Simulate` on every bar series |
| `TradeTheorems.RAnchors` | app/domain/rsi_trend_backtest.py:114-120 | R is -1 at the stop, 0 at the entry, positive at the target of a well-posed signal |
| `TradeTheorems.Conservation` | app/domain/rsi_trend_backtest.py:140-264 | fractions of all exits add up to one, R is the fraction-weighted R of the exit prices, and the exit price is the one its reason names, for a stop the stop in force in the exit bar |
| `TradeTheorems.LockIn` | app/domain/rsi_trend_backtest.py:160-250 | every trade has R >= -1; once the partial target is taken R > (R(target) - 1)/2, and R >= R(target)/2 when that bar closes no worse than the entry, through every later exit; no assumption on ATR |
| `TradeTheorems.FullExitCap` | app/domain/rsi_trend_backtest.py:181-187 | without partial exits and entering at the signal bar's close, -1 <= R <= R(target) |
| `TradeTheorems.RunRespectsTtl` | app/domain/rsi_trend_backtest.py:223-229 | no trade is held longer than `ttl_bars`, and a TTL exit is exactly that old |
| `TradeTheorems.Ratchet` | app/domain/rsi_trend_backtest.py:160-215 | over any stretch of a trade the working stop never moves against the position |
| `TradeTheorems.RunThrough` | app/domain/rsi_trend_backtest.py:153-169 | the simulation is the run through those positions, and a touched stop closes the trade at the stop then in force |
| `TradeTheorems.TrailingStopValue` | app/domain/rsi_trend_backtest.py:179-215 | the working stop is exactly the best of breakeven and all trail levels since the partial target |
| `TradeTheorems.ExitDiscipline` | app/domain/rsi_trend_backtest.py:153-250 | the trade closes at the first bar with a reason to; the partial target is taken at the first touch, the RSI cut at the first extreme bar from then on, and a trade without one never met its condition |
| `TradeExits.ExitExact` | app/domain/rsi_trend_backtest.py:148-250 | the trade closes on the first bar on which an exit is due - the stop in force, then past the signal bar the full target, the trend flip, the TTL - for that reason, or else with the data |
| `TradeExits.SignalBarExact` | app/domain/rsi_trend_backtest.py:153-241 | a trade is closed on its signal bar if and only if that bar touches the stop or is the last one; flip, TTL, target and partial exits come later |
| `TradeTheorems.Causality` | app/domain/rsi_trend_backtest.py:153-241 | a trade not closed by end of data does not depend on any bar after its exit |
| `TradeTheorems.LongShortMirror` | app/domain/rsi_trend_backtest.py:114-264 | reflecting prices, EMAs, levels and RSI and flipping direction gives the same R, age, exit reason and fractions |
| `StrategyCore.DetectSignals` | app/domain/strategy_core.py:221-331 | the scan with its warm-up, gates and quality floor computes `Detect` |
| `StrategyTheorems.EmaWithinRange` | app/domain/strategy_core.py:97-99 | an EMA stays within every range that holds the closes so far |
| `StrategyTheorems.AtrNonnegative` | app/domain/strategy_core.py:114-129 | ATR is nonnegative on consistent candles |
| `StrategyTheorems.RsiAsShare` | app/domain/strategy_core.py:102-111 | RSI is the share of average gain in gain plus loss, times 100 |
| `StrategyTheorems.RsiInRange` | app/domain/strategy_core.py:102-111 | RSI lies in [0, 100] wherever it is defined |
| `StrategySignals.EmaIsWeighted` | app/domain/strategy_core.py:97-99 | the EMA weighs a close k bars back by a(1-a)^k with a = 2/(span+1), and the first close by what is left |
| `StrategySignals.AtrIsWeighted` | app/domain/strategy_core.py:114-129 | the ATR weighs the bars' spreads, gaps included, in the same way with a = 1/window |
| `StrategySignals.GainsAreWeighted` | app/domain/strategy_core.py:102-111 | and so do the averages of gains and losses behind the RSI |
| `StrategySignals.QualityExactly` | app/domain/strategy_core.py:151-196 | forty points for ten ATR from the EMA 200, twenty for the side of the EMA 50, twenty-five for an RSI move of twenty, fifteen for the colour, and in proportion below |
| `StrategyTheorems.QualityCapRedundant` | app/domain/strategy_core.py:171-196 | the sum of the quality parts already lies in [0, 100]; the cap never applies |
| `StrategyTheorems.IndicatorsArePrefixClosed` | app/domain/strategy_core.py:132-149 | indicator rows of a prefix are a prefix of the indicator rows |
| `StrategyTheorems.CollectEntries` | app/domain/strategy_core.py:249-331 | the scan collects exactly the entries after the warm-up, in strictly increasing bar order |
| `StrategyTheorems.DetectedSignals` | app/domain/strategy_core.py:249-331 | a signal is returned if and only if its bar gives that entry and its quality reaches the floor |
| `StrategySignals.DetectedExactly` | app/domain/strategy_core.py:249-331 | a signal is detected if and only if past bar 200 the RSI crossed its level back on the right side of the EMA 200 and the gates are passed, and its prices are the bar's: stop off the bar's far end by the ATR multiple, target by the ratio |
| `StrategySignals.DetectedInTrend` | app/domain/strategy_core.py:274-302 | longs are detected above the EMA 200, shorts below it |
| `StrategyTheorems.DetectionIsCausal` | app/domain/strategy_core.py:249-331 | detection on a prefix of length k is the full result restricted to index < k |
| `StrategyTheorems.EntryIsWellPosed` | app/domain/strategy_core.py:262-320 | stop, entry and target of every signal are in trading order and R(target) is the reward/risk ratio |
| `Backtest.ExecuteSignals` | app/domain/rsi_trend_backtest.py:283-297 | the `open_until` loop executes exactly the scheduled signals |
| `Backtest.FillsAreDisjoint` | app/domain/rsi_trend_backtest.py:283-297 | executed trades occupy disjoint, increasing bar intervals, whatever the order of the signals |
| `Backtest.SkippedAreCovered` | app/domain/rsi_trend_backtest.py:283-297 | for index-sorted signals each skipped signal lies inside an executed trade |
| `Backtest.MaxDrawdown` | app/domain/rsi_trend_backtest.py:306-314 | the one-pass drawdown is the largest drop of the equity curve over all ordered pairs of points |
| `Backtest.OutcomesPartition` | app/domain/rsi_trend_backtest.py:299-304 | wins, losses and scratches partition the trades and their sums |
| `Backtest.ProfitFactorMeaning` | app/domain/rsi_trend_backtest.py:299-330 | the profit factor is undefined, infinite or a ratio exactly as there are losses and wins; scaled by it the gross loss is the gross win, and it exceeds 1 iff the total R is positive |
| `Backtest.SummaryIsRight` | app/domain/rsi_trend_backtest.py:316-330 | every field of the result is the quantity it is named after |
| `Backtest.AveragesBetween` | app/domain/rsi_trend_backtest.py:316-330 | the averages of a report lie between any bounds on its trades, and are zero without trades |
| `Backtest.RunBacktest` | app/domain/rsi_trend_backtest.py:267-330 | the whole run reports the summary of the scheduled trades |
| `PipelineTheorems.StrategyBounds` | app/domain/rsi_trend_backtest.py:123-330 | detection and simulation together: every fill of a consistent history has R >= -1, at most the reward/risk ratio without partial exits, and every detected signal is executed or covered |
| `PipelineTheorems.PipelineIsCausal` | app/domain/rsi_trend_backtest.py:267-330 | a fill closed within a prefix of the candles is the same fill on the whole history |
| `PipelineTheorems.IndicatorsMirror` | app/domain/strategy_core.py:132-149 | reflected candles give reflected indicators |
| `PipelineTheorems.EntryMirror` | app/domain/strategy_core.py:249-331 | with `short_rsi_min` not above the overbought level a reflected bar gives the reflected entry |
| `DetectionSymmetry.DetectionSymmetryExact` | app/domain/strategy_core.py:221-331 | detection on every price history and on its reflection agree if and only if `short_rsi_min` is at most the zone's overbought level, or the stop multiple is at most -14, where nothing is ever detected |
| `DetectionSymmetry.OneSidedMarket` | app/domain/strategy_core.py:302-311 | otherwise a market of 201 positive candles on which exactly one signal is detected, a long, and on whose reflection none is, whatever the other settings |
| `PipelineTheorems.StrategyMirror` | app/domain/rsi_trend_backtest.py:267-330 | under that condition the whole strategy run on reflected candles is the reflected run with the same equity curve |
| `ZigZag.ComputeZigZag` | docs/harmonic_detector.py:92-145 | the three-state loop, the tail pivot and the de-duplication compute `ZigZagOf` |
| `ZigZag.ScanKeepsInvariant` | docs/harmonic_detector.py:108-140 | after every bar: pivots alternate, swings reach the threshold, pivots are extremes and the pending extreme is the extreme since the last pivot |
| `ZigZag.ZigZagStructure` | docs/harmonic_detector.py:104-145 | pivots alternate with increasing indices, each swing is at least pct, each pivot after the first is the extreme since the previous one; de-duplication is the identity |
| `ZigZagLegs.ZigZagExact` | docs/harmonic_detector.py:92-145 | the result is the only pivot list whose first pivot is the first lowest point before the first bar to leave it by pct, each further one the last extreme of its leg before the first bar to reverse the leg so far by pct, and the last one the extreme of the open leg; for every series and threshold |
| `ZigZagLegs.FirstPivotIsLowest` | docs/harmonic_detector.py:104-122 | the first pivot, low or high, is the lowest of the first close and the lows before the bar that leaves it |
| `ZigZag.NoRepaint` | docs/harmonic_detector.py:108-140 | confirmed pivots of a prefix are a prefix of the confirmed pivots of the longer series |
| `HarmonicPatterns.MatchWindow` | docs/harmonic_detector.py:280-286 | the inner loop over pattern names collects exactly the matches of one window |
| `HarmonicPatterns.ScanPatterns` | docs/harmonic_detector.py:262-287 | the scan returns the hits of all windows, or of the latest one |
| `HarmonicPatterns.OnlyRatiosDecide` | docs/harmonic_detector.py:179-216 | on a window of the ZigZag the zero-leg and direction checks never reject; a pattern matches iff its ratios fit |
| `HarmonicMatches.MatchedExactly` | docs/harmonic_detector.py:179-259 | a window matches a pattern if and only if it zigzags and its four legs, as prices, lie within their shares of one another give or take the tolerance; targets and stop distance of a match are fixed |
| `HarmonicMatches.WindowMatchedExactly` | docs/harmonic_detector.py:198-216 | on a window of the ZigZag the four leg lengths decide |
| `HarmonicMatches.CompletionInMeasures` | docs/harmonic_detector.py:217-226 | D of a match lies in both measures of the reversal zone widened by the tolerance, along XA for a tolerance up to a half |
| `HarmonicMatches.HitsExactly` | docs/harmonic_detector.py:278-287 | the hits are exactly the patterns asked for in the windows there are |
| `HarmonicMatches.PatternsDistinctExactly` | docs/harmonic_detector.py:152-166 | no window matches two patterns if and only if the tolerance is below 25/418 |
| `HarmonicPatterns.ZoneIsConfluence` | docs/harmonic_detector.py:217-240 | the reversal zone is the intersection of the two measures when they meet and their hull otherwise, and the stop of a match lies outside it |
| `HarmonicPatterns.TargetsTowardsA` | docs/harmonic_detector.py:233-241 | the targets of a match run from D towards A in order if and only if D does not reach A, which for every pattern and every tolerance up to a half it does not |
| `HarmonicPatterns.HitsDoNotRepaint` | docs/harmonic_detector.py:262-287 | hits on confirmed pivots are never taken back by later bars |
| `HarmonicPatterns.EntryGeometry` | docs/harmonic_detector.py:341-426 | the zone is the hull of the three projections and holds every order in ascending order; the stop lies outside it, and the targets lie beyond its centre on the profit side, the second further out |
| `HarmonicMatches.EntryRefusedExactly` | docs/harmonic_detector.py:363-378 | an entry is refused for B, then for a C more than five percent past A, then for C, and for nothing else |
| `HarmonicMatches.ProjectionsAre` | docs/harmonic_detector.py:380-384 | the projections: XA by the pattern's least ratio, BC by the middle of its range, AB = CD |
| `HarmonicMatches.EntryGrade` | docs/harmonic_detector.py:403-407 | grade A for a zone narrower than two percent of its centre, B below four, else C |
| `HarmonicMatches.EntryPrices` | docs/harmonic_detector.py:386-401 | centre, stop distance, targets and reward/risk of an accepted entry |
| `HarmonicMatches.EntryOrders` | docs/harmonic_detector.py:392-398 | one order at the centre, three at the quarters of the zone, or none |
| `MemoryCache.Cache.Get` | app/infra/memory_cache.py:32-44 | returns the unexpired value and moves the key to the newest end; an expired key is removed |
| `MemoryCache.Cache.Set` | app/infra/memory_cache.py:46-54 | writes at the newest end and evicts from the oldest while over capacity |
| `MemoryCache.Cache.Delete` | app/infra/memory_cache.py:56-61 | removes the key and reports whether it was there |
| `CacheTheorems.StepKeepsInclusion` | app/infra/memory_cache.py:32-61 | one operation keeps the inclusion between two capacities |
| `CacheTheorems.LruInclusion` | app/infra/memory_cache.py:32-61 | over every run the smaller cache is the larger one restricted to its keys, in the same order, and the sizes differ by at most the capacities |
| `CacheTheorems.CacheAgrees` | app/infra/memory_cache.py:32-54 | every entry of the cache is the latest set of an unbounded map |
| `CacheTheorems.HitsAreLatest` | app/infra/memory_cache.py:32-54 | a hit is the latest value set, not expired, and the size never exceeds the capacity |
| `CacheTheorems.LruSurvival` | app/infra/memory_cache.py:32-54 | a key just touched survives if and only if fewer than capacity other keys are touched before the next look (the only-if when nothing but eviction removes entries) |
| `KlineCache.Cache.Get` | app/infra/kline_cache.py:119-158 | in memory mode returns what the cache holds, or nothing when disabled |
| `KlineCache.Cache.Set` | app/infra/kline_cache.py:160-198 | writes the payload and records the key under its parameters |
| `KlineCache.Cache.Invalidate` | app/infra/kline_cache.py:211-261 | compiles the pattern, removes the keys recorded under params keys in which it is found from cache and index, and counts the recorded ones |
| `KlineCache.CountIsExact` | app/infra/kline_cache.py:229-261 | the returned count is the number of entries removed if and only if every matching recorded key is still held, and never less |
| `KlineCache.ExpiredIsCounted` | app/infra/kline_cache.py:229-261 | after a set and an expired read, `invalidate` counts one and removes none |
| `KlineCache.IndexCoversCache` | app/infra/kline_cache.py:160-198 | over every run each cached key is recorded in the index |
| `KlineFiling.FiledExactly` | app/infra/kline_cache.py:186-253 | over every run the index holds a key under exactly the params keys it was set under since it was last taken out |
| `KlineFiling.RecordedExactly` | app/infra/kline_cache.py:229-253 | an invalidation finds a key if and only if a set under a matching params key came since the last invalidation that took the key |
| `KlineFiling.SetThenInvalidated` | app/infra/kline_cache.py:186-253 | after a set, an invalidation whose pattern finds the params key leaves no value for the key, whatever other keys came between |
| `KlineFiling.SymbolIsInvalidated` | app/infra/kline_cache.py:211-241 | `*word*` drops every key set under a params key that contains the word |
| `KlineCache.GoneUntilSet` | app/infra/kline_cache.py:211-253 | a key that is gone stays gone until it is set again |
| `KlineCache.InvalidateIsExact` | app/infra/kline_cache.py:229-253 | after an invalidation no key recorded under a match is served until set again, and every other key keeps its entry |
| `Glob.GlobExactly` | app/infra/kline_cache.py:211-241 | for every pattern of literals, dots, `*` and `?`, the compiled regular expression, searched for, accepts exactly the keys of the glob if and only if the pattern has no dot and starts and ends with a star, up to question marks |
| `Glob.SearchIsMatchExactly` | app/infra/kline_cache.py:233-241 | searching for a pattern and matching it whole agree on every text if and only if both ends of the pattern are open |
| `Glob.GlobIsFound` | app/infra/kline_cache.py:233-241 | every key of the glob is found, so the search only ever takes more |
| `Glob.BareWordIsFound` | app/infra/kline_cache.py:233-241 | the pattern `b` is found in the key `ab`, which it does not match as a glob |
| `Glob.StarredWord` | app/infra/kline_cache.py:214-215 | `*word*` means the same either way if and only if the word has no dot |
| `Glob.StarredFinds` | app/infra/kline_cache.py:233-241 | a starred word is found in every text that contains it |
| `Pagination.RangeIsExact` | app/infra/marketdata.py:204-254 | the range query every pager is compared with holds exactly the rows within bounds, once, in order |
| `Pagination.FetchPaginated` | app/infra/marketdata.py:204-254 | the capped backward pager returns the newest rows of the range, at most the requested number, for every history and page size |
| `Pagination.FetchBack` | scripts/_binance_stdlib.py:53-137 | the backward walk to a start returns `WalkBack`, errors included |
| `Pagination.LoadForward` | scripts/run_backtest.py:97-127 | the forward walk returns `WalkForward` |
| `Pagination.WalksExact` | scripts/_binance_stdlib.py:72-124 | each walk equals the range query if and only if no page ends exactly one millisecond short of the bound with a row on it; a short walk misses exactly that row |
| `Pagination.AdjacentRowsAreLost` | scripts/run_backtest.py:104-124 | for every page size, on one row a millisecond over a page and a row, both walks lose a row of the range |
| `Pagination.PagersAgree` | app/infra/marketdata.py:220-254 | with open times more than a millisecond apart and a large enough cap all three pagers return the same range |
| `RateLimiter.SlidingWindowStore.IsAllowed` | app/api/rate_limit.py:64-77 | prunes, refuses at the limit, records the time otherwise |
| `RateLimiter.SlidingWindowStore.Remaining` | app/api/rate_limit.py:79-86 | prunes and reports what is left of the limit |
| `RateLimiter.SlidingWindowStore.Reset` | app/api/rate_limit.py:88-91 | forgets the key and no other |
| `RateLimiter.Limiter.Check` | app/api/rate_limit.py:118-143 | admission, remaining count and retry-after from the store at the three times the clock is read |
| `RateLimiter.KeyDeterminesLimit` | app/api/rate_limit.py:113-116 | two requests share a key iff user and endpoint agree, for endpoint names without a colon |
| `RateLimiter.LimitsPerMinute` | app/api/rate_limit.py:96-108 | the six limits per minute, and sixty for every other endpoint |
| `RateLimiter.AnonymousShare` | app/api/rate_limit.py:113-116 | callers without a name share one key per endpoint |
| `RateLimiter.ListIsHistory` | app/api/rate_limit.py:60-91 | over every interleaving the stored list is the full history of admissions cut at the last pruning |
| `RateLimiter.RefusedOnlyWhenFull` | app/api/rate_limit.py:64-77 | a request is admitted if and only if its window in the full history is not full |
| `RateLimiter.NeverExceeded` | app/api/rate_limit.py:64-77 | no window, ending anywhere, holds more admissions than the limit |
| `RateLimiter.RetryAfter` | app/api/rate_limit.py:118-143 | waiting the returned seconds with no further admissions guarantees acceptance |
| `RateLimiter.AdviceExactly` | app/api/rate_limit.py:131-143 | the advice is the first whole second after the oldest timestamp has left the window, at least one; without timestamps it is the window |
| `RateLimiter.RemainingIsRoom` | app/api/rate_limit.py:79-86 | the remaining count is the room the full history leaves in the window |
| `EventStore.VibeEventStore.Publish` | app/infra/vibe_event_store.py:118-168 | draws a number, then appends the stamped event to the cached log or drops it; until it expires the run has taken one step of the specification |
| `EventStore.VibeEventStore.NextSeq` | app/infra/vibe_event_store.py:98-116 | hands out consecutive numbers per run |
| `EventStore.VibeEventStore.GetEvents` | app/infra/vibe_event_store.py:170-209 | the three cursors in their priority, over the log the cache still holds |
| `EventStore.VibeEventStore.Clear` | app/infra/vibe_event_store.py:245-254 | the run starts afresh with an empty log and number zero |
| `EventStore.OthersKeptOrEvicted` | app/infra/vibe_event_store.py:46-52 | an append leaves every other run's log as it is, except the least recently used one when the cache of runs is full and the run is new to it, which is lost |
| `EventStream.SeqLaw` | app/infra/vibe_event_store.py:118-168 | without caller-chosen numbers, stored numbers ascend strictly, are at least the index, and each event is the one published at its number |
| `EventStream.NothingLost` | app/infra/vibe_event_store.py:128-168 | every well-formed event is stored under its position |
| `EventStream.StoredAs` | app/infra/vibe_event_store.py:118-168 | the stored event has the id and number its draft brings, and only for want of one those made for it; the counter moves in any case |
| `EventStream.GaplessExactly` | app/infra/vibe_event_store.py:128-143 | numbers equal list indices if and only if no event was stored after a dropped one |
| `EventStream.CursorExact` | app/infra/vibe_event_store.py:191-194 | the `after_seq` cursor returns the events numbered beyond it, for all cursors from -1 on and all limits, if and only if no event was stored after a dropped one |
| `EventStream.CursorAfterLoss` | app/infra/vibe_event_store.py:191-194 | once a run's log was lost while its counter went on, the cursor is right from -1 on if and only if nothing was stored since, or no number had been drawn and nothing was stored after a drop |
| `EventStream.NegativeCursorExact` | app/infra/vibe_event_store.py:191-194 | below -1 the slice counts from the end: the page is the first one, as it should be, if and only if the log or the limit is empty, or the cursor lies as many places below -1 as there are events and the limit is smaller, or it lies b places below, at least as many, and the limit is at least b more than the events |
| `EventStream.EveryCursorExact` | app/infra/vibe_event_store.py:191-194 | over all integers the cursor is right only for an empty log |
| `EventStream.NegativeCursorSkips` | app/infra/vibe_event_store.py:191-194 | three events and none dropped: beyond -2 the cursor gives the last event alone |
| `EventStream.DroppedEventHidesNext` | app/infra/vibe_event_store.py:191-194 | a dropped event followed by a good one, which the cursor then skips |
| `EventStream.IdCursorExact` | app/infra/vibe_event_store.py:196-206 | the `after_event_id` cursor returns the next page if and only if the rest fits one page; otherwise it jumps to the newest events |
| `EventStream.CursorPriority` | app/infra/vibe_event_store.py:188-209 | the sequence cursor comes before the id cursor, and that before the offset, which defaults to zero |
| `EventStream.OffsetExact` | app/infra/vibe_event_store.py:208-209 | an offset gives the events from it on, at most the limit |
| `EventPublishers.NumbersUniqueExactly` | app/infra/vibe_event_store.py:98-168 | with publishers interleaving the two steps of a draw and the three of an append in any way, the numbers drawn are all different if and only if no publisher wrote back a stale number; each has its own event, dropped, on its way or in a place of its own in some list |
| `EventPublishers.NoEventLostExactly` | app/infra/vibe_event_store.py:165-168 | over every interleaving each stored event is in the log if and only if no publisher put back a list while the cache held another one |
| `EventPublishers.MemoryLogLosesEvent` | app/infra/vibe_event_store.py:165-168 | two publishers load the log of a new run before either puts one back: the first event is stored and lost |
| `EventPublishers.TurnsAreReplay` | app/infra/vibe_event_store.py:118-168 | publishers that take whole turns leave exactly the log and counter of the sequential run |
| `EventPublishers.TurnsAreSafe` | app/infra/vibe_event_store.py:98-168 | when nobody reads the counter while another is about to write it, nor loads the log while another is to put it back, as in Redis or with a single publisher, no write is stale and no list displaced |
| `EventPublishers.MemoryCounterRepeats` | app/infra/vibe_event_store.py:114-116 | the in-memory counter: two reads before either write store two events under number 0 |
| `EventReader.Send` | app/api/vibe_routes.py:376-381 | the inner loop sends a batch up to its first terminal event |
| `EventReader.Generate` | app/api/vibe_routes.py:362-391 | the polling generator computes `PollAll` over what it is given |
| `EventReader.ReaderSeesSnapshots` | app/api/vibe_routes.py:372-391 | an interleaved run, in which batch and status are fetched apart, is for its reader the sequence of logs and replies it was given |
| `EventReader.ExactlyOnce` | app/api/vibe_routes.py:372-391 | at every moment of every interleaving of publishes, fetches and status checks the client has received a prefix of the log in order, ending at the first terminal event |
| `EventReader.EndsWithFinal` | app/api/vibe_routes.py:376-381 | at every moment the stream has ended exactly when the last event sent is a done or an error, which none before it is |
| `EventReader.SkipsAfterLoss` | app/api/vibe_routes.py:372-381 | after the log was lost under a reader that had sent n events, it delivers the new log exactly once and in order but for its first n events, over every interleaving; it delivers all of a new log that is not empty only for n = 0 |
| `EventReader.GivesUpExactly` | app/api/vibe_routes.py:372-391 | over every interleaving a reader gives up only on being told that the run is over, having sent the log as of its last fetch, and has sent the whole log if and only if it has not grown since |
| `EventReader.MissesExactly` | app/api/vibe_routes.py:372-391 | in the turn in which it gives up it misses something if and only if a well-formed event is published between the fetch and the status |
| `EventReader.DoneIsMissed` | app/api/vibe_routes.py:372-391 | the final event is published between the two, and the reader stops without it |
| `EventReader.GivesUpOnlyWhenDone` | app/api/vibe_routes.py:383-391 | of a single moment: a poll that ends without a terminal event has sent the whole log of a finished run |
| `EventReader.Drains` | app/api/vibe_routes.py:372-391 | enough polls of a log that has stopped growing deliver it up to its first terminal event |
| `WatchlistStore.Store.ListItems` | app/infra/watchlist_store.py:265-288 | returns the market's rows as either backend sorts them |
| `WatchlistStore.Store.CreateItem` | app/infra/watchlist_store.py:290-332 | refusals in their order, then a row with the next sort index in the chosen backend |
| `WatchlistStore.Store.UpdateRedis` | app/infra/watchlist_store.py:564-572 | the nested loop patches the first row with the id, wherever it is |
| `WatchlistStore.Store.DeleteRedis` | app/infra/watchlist_store.py:574-582 | the first market with the id loses it |
| `WatchlistStore.Store.UpdateItem` | app/infra/watchlist_store.py:352-379 | refuses empty and oversized updates, otherwise patches one row |
| `WatchlistStore.Store.DeleteItem` | app/infra/watchlist_store.py:401-410 | removes the row or fails |
| `WatchlistStore.Store.ReorderItems` | app/infra/watchlist_store.py:428-471 | checks the ids, renumbers one by one and returns the sorted rows |
| `WatchlistAgreement.StepAgrees` | app/infra/watchlist_store.py:545-663 | from related states both backends give the same reply, and stay related, if and only if the limit does not count differently |
| `WatchlistAgreement.BackendsAgree` | app/infra/watchlist_store.py:545-663 | over every run all replies and errors agree if and only if no creation met the differing limit |
| `WatchlistAgreement.OneMarketAgrees` | app/infra/watchlist_store.py:545-663 | a user of a single market cannot tell the backends apart |
| `WatchlistAgreement.FiftyThenAnotherMarket` | app/infra/watchlist_store.py:551-562 | fifty rows in one market, then a creation in another: the replies differ |
| `WatchlistAgreement.RunsAreSound` | app/infra/watchlist_store.py:615-663 | over every memory run ids are unique, symbols unique per market and there are at most fifty rows |
| `WatchlistAgreement.RedisRunsAreSound` | app/infra/watchlist_store.py:551-602 | over every Redis run each market has at most fifty rows of distinct symbols |
| `WatchlistAgreement.ReorderResult` | app/infra/watchlist_store.py:428-471 | the reply is the rows in the order of the ids with only index and update time changed, a listing repeats it, other markets do not change |
| `WatchlistAgreement.CreateAppends` | app/infra/watchlist_store.py:515-519 | in memory, a created row goes to the end of its market's listing and no other listing changes |
| `WatchlistAgreement.RedisCreateAppends` | app/infra/watchlist_store.py:551-562 | the same in Redis, from any state |
| `WatchlistAgreement.ListingIsOrdered` | app/infra/watchlist_store.py:605-613 | a listing is a permutation of the market's rows by index, then creation time |
| `WatchlistResults.ListingExactly` | app/infra/watchlist_store.py:605-613 | a listing holds exactly the market's rows, by index, then creation time |
| `WatchlistResults.UpdateExactly` | app/infra/watchlist_store.py:352-379 | an update is refused when it changes nothing or its note is longer than 280, and when no row has the id |
| `WatchlistResults.UpdateShows` | app/infra/watchlist_store.py:625-641 | otherwise reply and listing show the new note, index and time, and nothing else changes |
| `WatchlistResults.RedisUpdateShows` | app/infra/watchlist_store.py:564-572 | the same in Redis, in any state |
| `WatchlistResults.CreateExactly` | app/infra/watchlist_store.py:290-332 | the four refusals of a creation in their order |
| `WatchlistResults.CreatedRow` | app/infra/watchlist_store.py:306-327 | a new row has the fields given and the index just past the largest of its market |
| `WatchlistResults.DeleteExactly` | app/infra/watchlist_store.py:643-650 | a deletion removes the rows with the id and no other, or fails because there is none |
| `StrategyRepo.FtStrategyRepo.Refine` | app/ft_strategy/supabase_repo.py:304-321 | bumps the version of an existing strategy, otherwise fails |
| `StrategyRepo.FtStrategyRepo.PublishReport` | app/ft_strategy/supabase_repo.py:440-486 | refuses missing, final and unfinished reports, otherwise makes the draft final |
| `StrategyRepo.FtStrategyRepo.RecordEvent` | app/ft_strategy/supabase_repo.py:509-546 | appends the event and maintains the counter in three statements |
| `StrategyRepo.FtStrategyRepo.RecentStableCount` | app/ft_strategy/supabase_repo.py:548-564 | the loop counts the stable events since the last other event |
| `StrategyRepo.StagnationLaw` | app/ft_strategy/supabase_repo.py:509-546 | over every run the counter is the stable events since the last evolve, fork, kill or reset |
| `StrategyRepo.CountersOverRuns` | app/ft_strategy/supabase_repo.py:509-589 | the counter exceeds `recent_stable_count` iff a create or shadow event follows an uncleared stable one, and is below it iff a reset hides a stable one |
| `StrategyRepo.WithoutResets` | app/ft_strategy/supabase_repo.py:509-564 | without resets the counter is at least the recent count, with equality iff nothing interposes |
| `StrategyRepo.ResetIsNotSeen` | app/ft_strategy/supabase_repo.py:584-589 | a stable event and a reset leave the two counts apart, from any state |
| `StrategyRepo.VersionLaw` | app/ft_strategy/supabase_repo.py:249-321 | the version is one plus the accepted refinements |
| `StrategyRepo.StrategyRowExactly` | app/ft_strategy/supabase_repo.py:249-335 | what creation, refinement, status and reset change in a strategy's row, and that they touch nothing else |
| `StrategyRepo.RecordedExactly` | app/ft_strategy/supabase_repo.py:509-546 | an event is recorded if and only if its kind is one of seven and its strategy exists |
| `StrategyRepo.DraftExactly` | app/ft_strategy/supabase_repo.py:403-438 | a draft is created for a known strategy under a new id with what it was given, and otherwise refused |
| `StrategyRepo.RunsAreAudited` | app/ft_strategy/supabase_repo.py:403-486 | every final report has an acceptable finding and a publish time, every draft none; reports and events belong to known strategies |
| `StrategyRepo.ReportsAreSticky` | app/ft_strategy/supabase_repo.py:440-486 | reports never disappear or change subject, and a final report never changes again |
| `StrategyRepo.FinalIsLocked` | app/ft_strategy/supabase_repo.py:455-461 | publishing a final report again is refused in every later state and changes nothing |
| `StrategyRepo.PublishedExactly` | app/ft_strategy/supabase_repo.py:440-486 | a report is published if and only if it exists, is a draft, and the text says something and is no TODO; then it carries text and time and nothing else changes |
| `StrategyRepo.PublishedForGood` | app/ft_strategy/supabase_repo.py:440-486 | a published report keeps text and time in every later state |
| `StrategyRepo.LayersDiffer` | app/ft_strategy/report_validator.py:34-111 | the code's check is the Postgres check minus blank findings, and differs from the SQLite trigger exactly on blank findings and on other letter case |
| `StrategyRepo.SpacesAre` | app/ft_strategy/report_validator.py:34-60 | the ASCII characters that count as blank |
| `StrategyRepo.TodoInAnyCase` | app/ft_strategy/report_validator.py:34-111 | the SQLite trigger reads the mark in any letter case |
| `SignalGeometry.StopNearInvalidation` | app/domain/signals.py:295-366 | the stop is at most two ATR beyond the invalidation point, and beyond it iff the base buffer is positive |
| `SignalGeometry.GeometryExact` | app/domain/signals.py:250-422 | for an entry in the zone, stop and targets satisfy the direction invariant, for every level, family, swing, regime, grade and override, if and only if A is not the entry and the buffer exceeds minus the room to the anchor; for a base that is not negative, iff also it is positive or the anchor is not the entry |
| `SignalGeometry.ZeroBufferFails` | app/domain/signals.py:304-311 | a concrete candidate with a zero override whose stop is the entry, against the direction invariant |
| `SignalGeometry.FactorsMatter` | app/domain/signals.py:304-317 | trap, regime and grade scale every base, an override included: the capped buffer is unaffected if and only if their product is one, the base is zero, or the cap applies already |
| `SignalGeometry.OverrideIsScaled` | app/domain/signals.py:304-317 | an override of 0.5 in a high-quant regime gives 0.75 |
| `SignalGeometry.WideningNeverTightens` | app/domain/signals.py:311-316 | larger trap, regime or grade factors never bring the stop closer nor move the invalidation point |
| `SignalGeometry.SwingTightens` | app/domain/signals.py:333-341 | a swing anchor only brings the stop closer and stays short of the entry it was checked against |
| `SignalGeometry.LevelsExactly` | app/domain/signals.py:304-366 | each level's anchor and ATR multiple: the edge of the zone, X, or for the standard level either as the pattern is an extension or not |
| `SignalGeometry.LevelsOrdered` | app/domain/signals.py:304-366 | with ordered multiples the conservative stop of an extension, and the standard one of a retracement, is the farther of the two on the same anchor |
| `SignalGeometry.FartherStopLowerRr` | app/domain/signals.py:443-468 | of two stops both have a net ratio or neither, and of a paying target the farther one, and no other, has the lower |
| `SignalGeometry.GradeFollowsRr` | app/domain/signals.py:486-523 | lower ratios never earn a better grade |
| `SignalGeometry.BelowGate` | app/domain/signals.py:443-468 | a ratio is below a gate if and only if the reward is below the gate times the net risk |
| `SignalGeometry.SecondStopExact` | app/domain/signals.py:304-317 | the second stop, with factors and override, is at least as far as the plain one if and only if its multiple is at least as large; without an override it always is |
| `SignalGeometry.SecondPassExact` | app/domain/signals.py:250-523 | the reported ratio is at most the graded one if and only if the second stop is at least as far or on the entry; then it deserves no better grade than the one given, and otherwise no worse one |
| `SignalGeometry.SecondGradeExact` | app/domain/signals.py:443-523 | a nearer stop deserves no worse a grade; the grades of two stops differ exactly when both targets pay and the better ratios pass the gates or reach two where that counts |
| `SignalGeometry.ReportedBelowGate` | app/domain/signals.py:486-523 | a high-quant signal graded A whose reported second ratio is below 2 and deserves a B |
| `SignalGeometry.OverrideDeservesBetter` | app/domain/signals.py:250-523 | a signal graded B whose overridden stop is nearer and deserves an A |
| `SignalGeometry.InZoneNotViolated` | app/domain/validation.py:63-102 | a price inside the zone is never rejected as past the stop, nor at its middle as past the second target |
| `SignalGeometry.MissingPointsExactly` | app/domain/validation.py:69-102 | a candidate without the points its targets need is dropped, as stale, degenerate or past the stop, or raises; it is never kept |
| `SignalGeometry.FilterCandidates` | app/domain/validation.py:105-120 | the loop splits the candidates in order and raises at the first that raises |
| `SignalGeometry.RaisesExactly` | app/domain/validation.py:105-120 | the filter raises if and only if some candidate does |
| `SignalGeometry.FilterPartitions` | app/domain/validation.py:105-120 | valid and rejected candidates together are exactly the candidates |
| `SignalGeometry.FilterJudges` | app/domain/validation.py:105-120 | each candidate is on the side its own verdict puts it, with its own reason |
| `SignalGeometry.FilterTwice` | app/domain/validation.py:105-120 | filtering the valid candidates again keeps them all |
| `MarketScores.QuantTrapRisk` | app/domain/validation.py:141-222 | the reasons are exactly the rates over their thresholds, the veto is that of the reasons, and the score is fifty less their penalties but at least ten |
| `ScoreTheorems.ReasonsExactly` | app/domain/validation.py:160-215 | each reason against a window as a share of the bars that break falsely, hunt stops, climax or fail the zone |
| `ScoreTheorems.RiskExactly` | app/domain/validation.py:160-222 | the score is fifty less what each named reason costs, at least ten, and the veto is that of two of them |
| `MarketScores.MultiplierRises` | app/domain/validation.py:231-260 | the multiplier is monotone |
| `MarketScores.MultiplierStep` | app/domain/validation.py:231-260 | one more point adds between nothing and 0.04, so the knee has no jump |
| `MarketScores.MultiplierRange` | app/domain/validation.py:231-260 | the multiplier lies in [1, 2], exceeds 1 exactly above 60 and is 2 exactly from 90 |
| `MarketScores.TrapNeverWidens` | app/domain/validation.py:141-260 | no score of `quant_trap_risk` widens a stop; outside the high-quant regime an A or B signal keeps the stop it was graded with, or with an override exactly that multiple up to the cap |
| `MarketScores.AutocorrelationBound` | app/domain/validation.py:287-290 | the lag-1 autocorrelation of any series lies in [-1, 1] |
| `MarketScores.UnclampedRange` | app/domain/validation.py:287-297 | the weighted score lies in [0, 100] before the clamp of the total and that of the autocorrelation part (the spike part keeps its own clamp at zero), and so does its rounding |
| `MarketScores.VolumeAuthenticity` | app/domain/validation.py:266-297 | the score is the rounded unclamped score; the clamp of the total and that of the autocorrelation part never apply |
| `ScoreTheorems.ScoreParts` | app/domain/validation.py:272-296 | what agreement of price and volume, volume spikes and autocorrelation are each worth |
| `ScoreTheorems.ScoreAnchors` | app/domain/validation.py:292-296 | without spikes and autocorrelation the score is 90 at perfect agreement and 50 at none |

## Left out

- HTTP routes, authentication, SSE formatting, configuration loading, the Node bridge and the frontend.
- Supabase, Redis, SQLite, files and subprocesses as such: stores are sequences and maps. The Supabase path of the
  watchlist and its mirroring are not modelled; the two fallback backends are.
- Floating point: rounding to eight or four decimals, `isclose`-style noise and NaN propagation inside pandas.
- `macro_bias`, `scan_forming` and the ATR of the harmonic detector: straight-line formulas over the modelled parts.
- `quant_regime` and `per_bar_sharpe`: they need a standard deviation, that is a square root.
- `signal_engine`, `pyharmonics` and the tuning mutation loop; the order in which the engine calls the modelled
  functions is stated as a precondition (`TwoPasses`).
- Retries, backoff and fallback hosts of the pagers, and the parquet file of `_load_history`.
- The event store's switch between Redis and memory in mid-run, and a `seq` field present but null.
- EventStore.VibeEventStore.Publish: one publisher at a time, a cached log being a value here; overlapping publishers and the sharing of lists between them are the subject of `EventPublishers`.
- The quota reservation flow: the SQL functions it calls are not part of this model.
- Whitespace beyond ASCII in the blank test of a finding, and letter case beyond ASCII in names.
- Created-at times are integers; the code compares ISO texts, which agree except for the omitted zero fraction.
- Uuids are assumed fresh for the watchlist (`FreshIds`); for strategies and reports a clash fails like the database.
- EventReader.ExactlyOnce: the log only grows while the reader runs; what it does after a clear, an expiry or an eviction is `EventReader.SkipsAfterLoss`.
- EventPublishers.NoEventLostExactly: the cache keeps the run's log while its publishers overlap; evictions are the subject of `EventStore.OthersKeptOrEvicted`.
- EventReader.Drains: speaks of a log that has stopped growing.
- EventStream.NegativeCursorExact: the slice of the memory path; Redis LRANGE takes a range that would end just before index zero as running to the end of the list.
- KlineCache.Cache.Invalidate: a pattern with other characters that mean something to a regular expression has its compiled test, or failure to compile, as a parameter; keys are free of line breaks, which a dot does not match.
- RateLimiter.NeverExceeded: operations take effect in clock order; the code reads the clock just before it takes the lock, so two threads can swap places, which is not modelled.
- StrategyTheorems.EntryIsWellPosed: assumes a positive reward/risk ratio, which the configuration supplies.
- HarmonicPatterns.HitsDoNotRepaint: speaks of windows of confirmed pivots; the pending last pivot may still move.
- SignalGeometry.GeometryExact: the positivity of the stop is a runtime check of the code, modelled as a failure, not proved.
