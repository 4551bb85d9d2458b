# Verification model of the stock research platform

A Dafny 4.11 model of the parts of the platform whose correctness spans a loop, a run or a whole database,
with proofs. `dafny verify dfyconfig.toml` checks everything.

| modules | what they model |
|---|---|
| Ledger, Drawdown, Reporting | the money side the three backtest engines share: orders, trade log, statistics, one-pass drawdown |
| ToolkitEngine, FirstScriptEngine, TrailingEngine | the three engines, as loops over local variables |
| TradeTiming, ToolkitTiming, TrailingTiming | the logs against the signals: when the engines trade, and how much they buy |
| Indicators, Strategies, SignalMeaning | indicators, signal builders, voting composites, filters; and what every signal means in terms of the prices |
| UnitFreeRuns, UnitFreeTrailing | whole backtests do not depend on the currency unit |
| JobQueue, JobWorker | the backtest job queue: a transition system over all interleavings, and the queue methods and worker loop as imperative code that takes only its steps |
| Reconcile, Normalize3NF, SectorBackfill | rewrites of the database that must not lose data |
| Billing, RateLimit, Devices | exactly-once webhooks, the sliding-window login limiter, the device cap |
| Purifier, Csv | the text transformations |
| Watchlist, Journal, Allocation | the client's one-shot migration, the batched group listing, the allocation upsert |
| Options, Reals, Names | shared vocabulary |

Code that updates variables step by step is a method or a class whose contract ties the new state to a
specification function of the old one; the lemmas are about that function. Pure code is functions. What a function
computes is also stated without it, in terms of prices, rows or entries: which way a signal points (SignalMeaning),
how many shares a BUY takes (BuysFillBudget), when a stop sells (ThresholdSells, StopSells), what a report's figures
are (ReportMeans), how a job ends (PollOnce), which stocks are switched off (Reconcile).

## Assumptions

- Python floats are `real`, dates are day indices, and the reported figures are unrounded. `math.sqrt` is not used:
  a comparison with a multiple of the deviation is decided from the variance, and BandTestsAgree and WidthTestAgrees
  show that this is the code's comparison for every non-negative root.
- A signal is an arbitrary function of the closes so far. A run in which an order divides by zero (a BUY of shares
  that cost nothing, a drop from a peak of zero) is `None` from that day on, as the exception leaves the function;
  the accounting, alternation, timing and no-look-ahead results hold for every other run, whatever its prices.
- A database statement sees the table as it was before the statement. The queue runs under READ COMMITTED with `FOR
  UPDATE SKIP LOCKED`. Webhooks, logins and migrations are handled one delivery at a time.
- Uniqueness and nullability are those of the ORM models and migrations (the unique index of allocation rules is
  created in backend/alembic/versions/af683002958e_add_journal_tables.py:222-227). A table's rows come back in a
  fixed scan order. The session flushes before each query, as SQLAlchemy does by default.

## Where the code and its description differ

- backend/app/middleware/compliance_purifier.py:26 says the order of the table does not matter. Of its 24 orders,
  twelve give the same text as the table on every input and the other twelve exactly on the texts without 建議買入點
  (OrderMattersIff, SwappedTableDiffers). That no phrase survives, and that purifying twice changes nothing, holds
  in every order.
- A cancelled job can have been executed (CancelledJobMayHaveBeenExecuted): it was, if and only if a worker's
  transaction on it was rolled back (CancelledNeverRanIff). In any case it has no committed effect.
- Committed job rows never say "running" and a pending one never shows progress (RunsAreInvisibleUntilCommitted), so
  the queue status endpoint always counts zero running jobs and progress is not observable from another session.
  Records saved before an engine raises are committed together with the failure.
- backend/scripts/reconcile_orphan_stocks.py promises to move every non-colliding row. Rows are lost if and only if
  they wait on an orphan whose canonical twin is an orphan itself (NoKeyLostIffNoChain, ChainLosesKeys), which a map
  that keeps the stock numbers rules out; the UPDATE fails if and only if two orphans clash (TwoOrphansClash).
- The 3NF downgrade gives a price row its stock's market, not the one the row had, and leaves the industry text of
  valuations and revenues empty (LosslessIff, OtherMarketIsLost). The upgrade fails on duplicate revenue rows, which
  the old schema allowed (DuplicateRevenuesBlockUpgrade).
- Events without an id are not deduplicated (EventsWithoutIdRepeat); a subscription id held by two users makes the
  deletion event raise on every retry (SharedSubscriptionNeverEnds).
- The login limiter forgets what it prunes. Its decision differs from the full history's exactly if pruned
  acceptances are back in the window and would make up the limit (DecidesByFullHistoryIff), its bound fails exactly
  if a request comes while fewer than the limit are counted but these and the stored ones fill an interval
  (BoundBrokenIff), and both need a clock that goes back between requests of one address
  (ClockGoingBackBreaksBound).
- The header line of an exported CSV is not quoted. A whole document can be read back if and only if there is a
  column and no header contains a comma, a quote or a line break (DocumentDecodesIffPlainHeaders,
  HeaderWithCommaIsSplit); the data rows alone if and only if there is a column.
- The first script's engine does not log its forced close, so its log explains the equity if and only if that close
  brought nothing in (LogExplainsEquityIffFlat, OpenPositionIsUnexplained).

## Model

| member | source | states |
|---|---|---|
| ToolkitEngine.LogExplainsEquity | scripts/backtest_toolkit.py:190-252 | For every price series, signal and threshold setting whose run does not divide by zero: after the forced close nothing is held, the log alternates with one sale per buy, and final equity is capital plus the sum over round trips of shares x (sell net of fee and tax - buy plus fee); it is also capital + total profit - total loss - every fee and tax, with wins + losses = sales = buys |
| ToolkitEngine.DaysConsistent | scripts/backtest_toolkit.py:169-208 | On every day reached, whatever the prices: cash is the capital plus what the log moved, shares are those the log leaves open, the entry price is that of the last BUY, the log strictly alternates and each sale sells what the buy before it bought, and one equity value per day is recorded, the last at today's close |
| ToolkitEngine.DaysSolvent | scripts/backtest_toolkit.py:169-208 | With positive prices, position size in [0,1] and fee + tax < 1: nothing divides by zero, cash is never negative and every recorded equity is positive |
| ToolkitEngine.FinishedSolvent | scripts/backtest_toolkit.py:210-217 | The same after the forced close, which overwrites the last equity value; one value per trading day |
| ToolkitEngine.FinishedCurveIsWorth | scripts/backtest_toolkit.py:207-217 | The equity curve of a finished run holds, for every day before the last, that day's cash plus its shares at that day's close, and for the last day the final cash |
| ToolkitEngine.CarriedPositionsAreInsideTheBands | scripts/backtest_toolkit.py:181-208 | For non-zero thresholds, every position carried past a day is strictly inside both: (price - entry) x 100 lies between -\|stop_loss\| x entry and \|take_profit\| x entry; on positive prices without exception, on other prices if it was bought at a positive price, which is what the override tests |
| ToolkitEngine.NoLookAhead | scripts/backtest_toolkit.py:175-208 | Two series that agree on their first closes give the same trades, cash, shares and equity, or the same ZeroDivisionError, on those days |
| ToolkitEngine.Override | scripts/backtest_toolkit.py:181-188 | The stop-loss and take-profit tests, in order, on the loop's variables: for every book with these shares and entry price the outcome is that book's decision, which the band, timing and scaling lemmas are about |
| ToolkitEngine.TradeDay | scripts/backtest_toolkit.py:175-208 | The loop body on local variables takes any book to the book of the next day, to which all day lemmas apply, and raises exactly when an order divides by zero |
| ToolkitEngine.TradeSeries | scripts/backtest_toolkit.py:169-217 | The loop and the forced close, on local variables, end in the finished book of the accounting, solvency and timing lemmas, or with the exception of the first day that raises |
| ToolkitEngine.RunSingleBacktest | scripts/backtest_toolkit.py:156-285 | On positive prices with sane rates the whole function divides by zero nowhere, and its report describes the finished book, whose log BuysFillBudget, LogFollowsSignals and LogExplainsEquity are about and whose figures ReportMeans writes out: total return, all-pairs drawdown, win rate, profit factor, one trading day per close after the first |
| ToolkitTiming.LogFollowsSignals | scripts/backtest_toolkit.py:175-217 | Every logged trade was made at its day's close, in day order, and was asked for: a BUY by the signal, a SELL by the signal or by a threshold measured from the BUY before it, a SELL_FORCE only as the last entry on the last day |
| ToolkitTiming.DaysFollowSignals | scripts/backtest_toolkit.py:175-205 | The same on every day of the run, with at most one trade a day and no forced sale among them |
| ToolkitTiming.TradesExactlyWhenAsked | scripts/backtest_toolkit.py:181-205 | The other direction, for any prices and rates: a day that raises nothing logs a trade if and only if the book is flat, the signal says buy and cash x position size reaches price x (1 + fee), or shares are held and the signal or a threshold asks to sell |
| ToolkitTiming.ThresholdSells | scripts/backtest_toolkit.py:181-205 | A day on which a held position is down by at least \|stop_loss\| or up by at least \|take_profit\| percent of its entry price, whatever the signal says, adds exactly one SELL of all shares at that day's close |
| ToolkitTiming.BuysFillBudget | scripts/backtest_toolkit.py:190-217 | Every BUY k of every run's log, with c the capital plus the cash the earlier entries moved: shares x price x (1 + fee) <= c x position size < (shares + 1) x price x (1 + fee), for every price and rate (both signs turn round for a negative price) |
| TradeTiming.LotFillsBudget | scripts/backtest_toolkit.py:190-196 | At a positive price, with sane rates and no debt, `int(invest / (price * (1 + fee)))` is the n with n x price x (1 + fee) <= cash x position size < (n + 1) x price x (1 + fee), zero included |
| TradeTiming.LotIfAny | scripts/backtest_toolkit.py:190-193 | For any prices and rates the lot is positive, so that a BUY is made, if and only if cash x position size reaches price x (1 + fee), or for a negative price falls to it |
| Ledger.Order | scripts/backtest_toolkit.py:190-205 | The BUY and SELL branches, on local variables, take any book to its executed book, and raise exactly on a BUY of shares that cost nothing |
| Ledger.CloseOut | scripts/backtest_toolkit.py:210-217 | The forced close on local variables, logged or not, takes any book to its closed book |
| Ledger.ExecuteKeepsConsistent | scripts/backtest_toolkit.py:190-205 | One decision, whatever it is, keeps log, cash, shares and entry price in agreement |
| Ledger.ExecuteKeepsSolvent | scripts/backtest_toolkit.py:190-205 | One decision keeps cash non-negative and the book worth something |
| Ledger.ClosedLogExplainsMoney | scripts/backtest_toolkit.py:235-252 | For every alternating closed log: the cash it moved is the sum of the round trips and also profit - loss - charges of the scoring loop, which scores each sale once against the buy in the same position |
| Ledger.PairsLineUp | scripts/backtest_toolkit.py:235-248 | Pairing the j-th sale with the j-th buy by position, as the code does, pairs each sale with the buy it closes |
| Ledger.WinLoss | scripts/backtest_toolkit.py:235-252 | The two comprehensions and the scoring loop compute the tally of the pairing that ClosedLogExplainsMoney relates to the cash |
| Drawdown.MaxDrawdown | scripts/backtest_toolkit.py:225-233 | The one-pass running-peak loop returns the minimum over all pairs i <= j of (equity[j] - equity[i]) / equity[i] x 100, which lies in (-100, 0], and it divides by zero nowhere on a positive curve |
| Reporting.Summarize | scripts/backtest_toolkit.py:219-285 | The reported drawdown is the all-pairs minimum of the curve, and return, win rate and profit factor are those of the book's log |
| Reporting.ReportMeans | scripts/backtest_toolkit.py:219-285 | The report in terms of the log's own prices and shares: wins count the round trips sold above their buying price and losses the others, profit and loss add up price movement x shares of these, win rate x trips = 100 x wins, profit factor x loss = profit (capped at 999, 999 without losses, 0 without either), total return x capital = (final equity - capital) x 100 |
| Reporting.TallyMeans | scripts/backtest_toolkit.py:235-252 | The tally of the scoring loop counts and sums over the round trips (entries 2j and 2j + 1), for logs with an open last buy too |
| Reporting.DrawdownMeans | scripts/backtest_toolkit.py:225-233 | The drawdown dd satisfies (later - earlier) x 100 >= dd x earlier for all pairs of days, with equality for one pair |
| FirstScriptEngine.LogMissesForcedClose | scripts/backtest_00631L.py:101-130 | Buys minus sells is 1 if a position was open at the end and 0 otherwise, and final equity is what the log says plus the proceeds of the forced close that is not logged |
| FirstScriptEngine.LogExplainsEquityIffFlat | scripts/backtest_00631L.py:101-130 | In the first script the log explains the final equity if and only if the forced close brought nothing in, for any prices; with positive prices and sane rates, if and only if nothing was held at the end |
| FirstScriptEngine.BuyingLastIsUnexplained | scripts/backtest_00631L.py:101-130 | The failing side is reached: two positive closes, a signal that always buys and capital for a share leave an equity the log does not explain |
| FirstScriptEngine.OpenPositionIsUnexplained | scripts/backtest_00631L.py:101-130 | A concrete such run: capital 100, two closes of 1, no charges |
| FirstScriptEngine.FinishedSolvent | scripts/backtest_00631L.py:101-130 | With positive prices and sane rates nothing divides by zero and every recorded equity value of the first script is positive |
| FirstScriptEngine.BuysFillBudget | scripts/backtest_00631L.py:101-130 | Every BUY of the first script's log takes as many whole shares as cash x position size pays for, fee included |
| FirstScriptEngine.FinishedCurveIsWorth | scripts/backtest_00631L.py:101-130 | Its curve holds each day's cash plus its shares at that day's close, and the final cash on the last day |
| FirstScriptEngine.TradeSeries | scripts/backtest_00631L.py:101-130 | The loop and the unlogged close end in the book these lemmas are about, or with the exception |
| FirstScriptEngine.RunBacktest | scripts/backtest_00631L.py:85-188 | The whole function on positive prices: its report describes that book, with the all-pairs drawdown |
| TrailingEngine.PeakSinceEntry | scripts/backtest_00631L_extended.py:203-237 | For every price series: while a position is held the tracked peak is the maximum close since its entry day, at which it was bought; a position carried past a later day (or the entry day itself, for a positive trail) satisfies (peak - close) x 100 < trail_pct x peak on a positive peak, and the reverse on a negative one |
| TrailingEngine.NoLookAhead | scripts/backtest_00631L_extended.py:203-237 | Two series that agree on their first closes give the same state, peak included, or the same exception on those days |
| TrailingTiming.LogFollowsSignals | scripts/backtest_00631L_extended.py:203-246 | Every logged trade of the trailing engine was made at its day's close, in day order, and was asked for: a SELL by the signal or by (peak - close) x 100 >= trail_pct x peak for the highest close since the BUY before it, a SELL_FORCE only at the end |
| TrailingTiming.TradesExactlyWhenAsked | scripts/backtest_00631L_extended.py:208-234 | For any prices and rates, a day that raises nothing logs a trade if and only if the book is flat, the signal says buy and cash x position size reaches price x (1 + fee), or shares are held and the signal or that comparison with the peak asks to sell |
| TrailingTiming.StopSells | scripts/backtest_00631L_extended.py:208-234 | A day on which a held position has (peak - close) x 100 >= trail_pct x peak, with peak the highest close since its entry, adds exactly one SELL of all shares at that day's close |
| TrailingTiming.BuysFillBudget | scripts/backtest_00631L_extended.py:217-246 | Every BUY of the trailing engine's log takes as many whole shares as cash x position size pays for, fee included |
| TrailingEngine.FinishedCurveIsWorth | scripts/backtest_00631L_extended.py:236-246 | Its curve holds each day's cash plus its shares at that day's close, and the final cash on the last day |
| TrailingEngine.LogExplainsEquity | scripts/backtest_00631L_extended.py:203-283 | Both accounting identities and the one-to-one match of buys and sales for the trailing-stop engine |
| TrailingEngine.DaysConsistent | scripts/backtest_00631L_extended.py:203-237 | Log, cash, shares and entry price agree on every day reached of the trailing-stop engine |
| TrailingEngine.FinishedSolvent | scripts/backtest_00631L_extended.py:203-246 | With positive prices and sane rates nothing divides by zero and every recorded equity value of the trailing-stop engine is positive |
| TrailingEngine.TradeDay | scripts/backtest_00631L_extended.py:203-237 | The loop body with peak update and trailing override, on local variables, takes any state to that of the next day, and raises exactly on a peak of zero or an order that divides by zero |
| TrailingEngine.TradeSeries | scripts/backtest_00631L_extended.py:195-246 | The trailing loop and forced close end in the book these lemmas are about, or with the exception |
| TrailingEngine.RunTrailingStopBacktest | scripts/backtest_00631L_extended.py:180-315 | The whole function on positive prices divides by zero nowhere and its report describes that book, whose stops StopSells and PeakSinceEntry write out and whose figures ReportMeans does |
| SignalMeaning.RsiMeans | scripts/backtest_toolkit.py:296-307 | With U and D the summed rises and falls of the last `period` changes: BUY if and only if 100 x U < buy x (U + D), otherwise SELL if and only if 100 x U > sell x (U + D), with an RSI of 100 when D is 0; HOLD with too few closes |
| SignalMeaning.RsiIsRead | scripts/backtest_toolkit.py:44-56 | The computed RSI v satisfies v x (U + D) = 100 x U, and is 100 when nothing fell |
| SignalMeaning.AsymmetricMeans | scripts/backtest_00631L_extended.py:60-76 | BUY if the RSI over the buying period is below its level, otherwise SELL if the one over the selling period is above its level, and HOLD while either has too few closes |
| SignalMeaning.RecoveryMeans | scripts/backtest_00631L_extended.py:100-131 | With the RSIs of the last six days: BUY if one was oversold and today's is at least delta above one of them, otherwise SELL if today's is above the selling level |
| SignalMeaning.BiasFromPrices | scripts/backtest_toolkit.py:309-320 | With S the sum of the last n closes: BUY if and only if (close x n - S) x 100 <= buy x S, otherwise SELL if and only if it is >= sell x S, for a positive S |
| SignalMeaning.BiasOfZeroMean | scripts/backtest_toolkit.py:59-63 | A mean of zero raises ZeroDivisionError |
| SignalMeaning.MultiTimeframeMeans | scripts/backtest_00631L_extended.py:42-57 | BUY on the fast mean, otherwise SELL on the slow one, HOLD while either has too few closes |
| SignalMeaning.MultiTimeframeRaisesIff | scripts/backtest_00631L_extended.py:47-57 | It raises if and only if one of the two means is zero |
| SignalMeaning.MomentumMeans | scripts/backtest_00631L_extended.py:133-152 | BUY if the BIAS was below the cross level yesterday and is not today, otherwise SELL if today's reaches the selling level |
| SignalMeaning.MomentumRaisesIff | scripts/backtest_00631L_extended.py:138-152 | It raises if and only if yesterday's or today's mean is zero |
| SignalMeaning.BollingerMeans | scripts/backtest_toolkit.py:322-334 | With the mean and the standard deviation of the last closes: BUY if and only if close <= mean - std x deviation, otherwise SELL if and only if close >= mean + std x deviation |
| SignalMeaning.WidthGateMeans | scripts/backtest_00631L_extended.py:78-97 | A BUY of the inner signal passes if and only if (upper - lower) / mean x 100 reaches the threshold, and becomes HOLD otherwise; every other answer passes |
| SignalMeaning.CrossoverMeans | scripts/backtest_toolkit.py:366-380 | With the gap g between the short and the long mean, as sums over day indices: BUY if and only if g <= 0 yesterday and g > 0 today, SELL if and only if g >= 0 yesterday and g < 0 today |
| SignalMeaning.MacdMeans | scripts/backtest_toolkit.py:337-349 | BUY if the gap of the fast over the slow mean is positive and above that of nine days ago, SELL if it is negative and below it |
| SignalMeaning.KdMeans | scripts/backtest_toolkit.py:351-364 | With the highest and lowest close of the window: BUY if the close stands below buy percent of the range and in its lower half, SELL if above sell percent and in its upper half; HOLD on an empty range |
| SignalMeaning.CompositeMeans | scripts/backtest_toolkit.py:382-414 | A composite raises if a sub-signal does; otherwise it says BUY if all, one, or more than half of the set of its sub-signals do, else SELL on the same condition, else HOLD |
| Strategies.SignalsIgnoreScale | scripts/backtest_toolkit.py:44-112 | Multiplying every close by the same positive constant leaves the answer, or the ZeroDivisionError, of RSI, BIAS, Bollinger, MACD, KD, MA-crossover, the extended script's filters and every nested composite in the three voting modes unchanged |
| Strategies.VotesIgnoreScale | scripts/backtest_toolkit.py:382-414 | The induction step for composites: every sub-signal's vote, or its exception, and the composite's verdict are the same in every unit |
| Strategies.PositivePricesNeverCrash | scripts/backtest_toolkit.py:296-414 | On positive prices no strategy, however nested, divides by zero |
| Indicators.RsiIsDefined | scripts/backtest_toolkit.py:44-56 | The RSI never divides by zero on any prices and lies between 0 and 100 |
| Indicators.ScaleBollinger | scripts/backtest_toolkit.py:66-73 | Under a change of unit a band's centre scales linearly and its variance quadratically |
| Indicators.KdIgnoresScale | scripts/backtest_toolkit.py:76-89 | K and D are the same in every unit, the flat-range fallback included |
| Strategies.BandTestsAgree | scripts/backtest_toolkit.py:322-334 | For every non-negative root of the variance, the model's root-free tests are the comparisons with the lower and upper band |
| Strategies.WidthTestAgrees | scripts/backtest_00631L_extended.py:78-97 | For every non-negative root of the variance, the model's root-free width test is the comparison of (upper - lower) / middle x 100 with the threshold |
| Strategies.ConsecutiveDaysFilter.Signal | scripts/backtest_00631L_extended.py:155-173 | The closure with its counter cell, asked day after day, answers as the pure tree of SignalsIgnoreScale and remembers the length of today's streak |
| Strategies.ConsecutiveBuysNeedARun | scripts/backtest_00631L_extended.py:155-173 | The filter says BUY if and only if the inner signal has said BUY on each of the last n days |
| UnitFreeRuns.RunsIgnoreScale | scripts/backtest_toolkit.py:175-208 | With prices and capital in another unit, every day's book is the same book in that unit: same days, sides and share counts in the log, and the same exceptions |
| UnitFreeRuns.BacktestsIgnoreScale | scripts/backtest_toolkit.py:156-285 | A whole backtest of any strategy is independent of the currency unit: the trades and money amounts of the report are the same in that unit, and total return, maximum drawdown, win rate, profit factor and the counts are equal |
| UnitFreeRuns.StatisticsIgnoreScale | scripts/backtest_toolkit.py:235-252 | Scoring the log in another unit gives the same wins, losses, win rate and profit factor |
| UnitFreeTrailing.RunsIgnoreScale | scripts/backtest_00631L_extended.py:203-237 | With prices and capital in another unit and the same trailing percentage, every day's book and peak of the trailing-stop engine are the same in that unit, and so are the exceptions |
| UnitFreeTrailing.BacktestsIgnoreScale | scripts/backtest_00631L_extended.py:180-315 | A whole trailing-stop backtest of any strategy is independent of the currency unit: same trades in that unit, equal percentages, ratios and counts |
| JobQueue.StepKeepsInv | backend/app/services/job_queue.py:19-125 | Every enqueue, claim, progress, save, complete, fail, cancel, commit and rollback of any transaction keeps the invariant that ties private writes and row locks to the committed rows |
| JobQueue.RunKeepsInv | backend/app/services/job_queue.py:19-125 | The invariant holds after every interleaving |
| JobQueue.EffectsCommitOnce | backend/app/services/job_queue.py:41-104 | Over every interleaving from the empty queue, the number of committed runs of a job is 1 if its committed status is completed or failed, and 0 otherwise |
| JobQueue.RunAdvances | backend/app/services/job_queue.py:73-125 | Between any two moments of a run no row disappears, a finished row never changes, a pending row stays as it is or becomes finished, and result records only accumulate |
| JobQueue.CancelledHasNoEffect | backend/app/services/job_queue.py:106-125 | A cancelled or pending job has no committed run and no result record |
| JobQueue.EveryClaimEnds | backend/app/services/job_worker.py:73-85 | Over every interleaving, the claims of a job are its committed runs, its rolled-back runs and the one still open |
| JobQueue.ClaimsByStatus | backend/app/services/job_queue.py:41-125 | How often a job has run: its rollbacks, plus one if it is completed, failed or running now |
| JobQueue.CancelledNeverRanIff | backend/app/services/job_queue.py:106-125 | A cancelled job was never claimed if and only if no worker's transaction on it was rolled back |
| JobQueue.CancelledJobMayHaveBeenExecuted | backend/app/services/job_worker.py:73-85 | The case the condition of CancelledNeverRanIff excludes: a concrete interleaving in which a cancelled job was claimed and executed by a transaction that was rolled back: a successful cancel rules out effects, not execution |
| JobQueue.EveryJobIsAccountedFor | backend/app/services/job_queue.py:41-63 | No job is lost: every committed job is finished, claimable now, or held by exactly one open transaction |
| JobQueue.SomeJobIsNext | backend/app/services/job_queue.py:47-55 | Whenever some job is claimable, a claim finds a job that no claimable one precedes by priority and age |
| JobQueue.NextMeans | backend/app/services/job_queue.py:47-55 | A claim can return a job if and only if it is pending and unlocked, no other such job has a higher priority, and none of the same priority is older |
| JobQueue.RolledBackJobIsClaimable | backend/app/services/job_worker.py:73-85 | Rolling a claim back at any point of the execution leaves table and records as they were and the job claimable |
| JobQueue.OneHolderPerJob | backend/app/services/job_queue.py:47-63 | No two open transactions hold the same job |
| JobQueue.RunsAreInvisibleUntilCommitted | backend/app/services/job_queue.py:59-61 | Committed rows never say running, a pending row shows no progress, a completed one shows 100 and a result, a failed one an error of at most 1000 characters |
| JobWorker.Store.Insert | backend/app/services/job_queue.py:19-39 | `enqueue` takes exactly the enqueue step and returns the new row's id |
| JobWorker.Store.FindNext | backend/app/services/job_queue.py:47-55 | The scan returns a claimable row of highest priority, oldest among those, or none exactly when every pending row is locked |
| JobWorker.Store.ClaimNext | backend/app/services/job_queue.py:41-63 | `claim_next` takes the claim step for such a row, or changes nothing because none is waiting |
| JobWorker.Store.UpdateProgress | backend/app/services/job_queue.py:65-71 | `update_progress` takes exactly the progress step, capped at 100, invisible to other sessions |
| JobWorker.Store.SaveRecord | backend/app/services/job_worker.py:172-209 | Adding a result record takes exactly the save step of the worker's transaction |
| JobWorker.Store.MarkCompleted | backend/app/services/job_queue.py:73-88 | `complete` takes exactly the complete step |
| JobWorker.Store.MarkFailed | backend/app/services/job_queue.py:90-104 | `fail` takes exactly the fail step, with the message cut to 1000 characters |
| JobWorker.Store.CancelJob | backend/app/api/v1/backtest_jobs.py:172-183 | Once no other transaction holds the row, cancelling succeeds exactly for a pending job and then changes only that row's status |
| JobWorker.Store.ExecuteJob | backend/app/services/job_worker.py:97-136 | Whatever the engine does, the worker's actions are a run of the transition system by its own transaction; it ends with the finished row and the records kept by a known engine (none for an unknown kind), and the exception escapes only if the database fails under one of the four engines |
| JobWorker.Store.PollOnce | backend/app/services/job_worker.py:73-136 | One poll: a next job is claimed and its row and records become visible together, or nothing changes because the database failed or nothing waits. The committed row is completed (progress 100, result done) if and only if the kind is one of the four and the engine returns, and failed if and only if the kind is unknown or the engine raises, with the first 1000 characters of the message; kind, priority and creation time stay |
| JobWorker.Store.PollLoop | backend/app/services/job_worker.py:70-95 | If the database never fails, as many polls as there are waiting jobs leave no pending job unlocked, with no transaction left open |
| Reconcile.ReconcileLosesNothing | backend/scripts/reconcile_orphan_stocks.py:54-100 | If canonical symbols keep their stock numbers and no two orphans clash, every table keeps exactly the image of its (stock, key) pairs, stays unique, and moved + dropped is the number of orphan rows |
| Reconcile.NoKeyLostIffNoChain | backend/scripts/reconcile_orphan_stocks.py:77-93 | For every table and mapping: no (canonical stock, key) is lost or invented if and only if no orphan row points at a stock whose canonical twin is itself an orphan |
| Reconcile.ChainLosesKeys | backend/scripts/reconcile_orphan_stocks.py:58-93 | A concrete database and canonical map on which the only row is lost |
| Reconcile.NumbersKeptMeansNoChain | backend/scripts/reconcile_orphan_stocks.py:58-64 | If every canonical symbol keeps the number it is listed under, no canonical stock is an orphan |
| Reconcile.UpdateViolatesIffClash | backend/scripts/reconcile_orphan_stocks.py:81-89 | The UPDATE breaks the unique key if and only if two orphans of one canonical stock share a key that stock lacks |
| Reconcile.TwoOrphansClash | backend/scripts/reconcile_orphan_stocks.py:54-89 | A concrete database on which it does: two orphans of one canonical stock with one key that stock lacks |
| Reconcile.RowsAfterRepoint | backend/scripts/reconcile_orphan_stocks.py:77-93 | Rows not on an orphan are left as they were, moved rows change only their stock, no row is left on an orphan |
| Reconcile.MovedPlusDropped | backend/scripts/reconcile_orphan_stocks.py:81-93 | For every table and mapping: moved + dropped is the number of orphan rows plus those moved onto another orphan, and so equals it if and only if there are none of these |
| Reconcile.MappingIsExact | backend/scripts/reconcile_orphan_stocks.py:54-64 | The dictionary lookups find exactly the active orphans with an existing twin, each with that twin's id |
| Reconcile.SwitchedOffOrphans | backend/scripts/reconcile_orphan_stocks.py:95-99 | Row for row, the soft delete makes exactly the stocks that have a twin inactive, and changes nothing else about any stock |
| Reconcile.NumberEndsAtDot | backend/scripts/reconcile_orphan_stocks.py:59 | A stock's number is its symbol up to the first dot |
| Reconcile.MovesAreRows | backend/scripts/reconcile_orphan_stocks.py:81-93 | The moved count of a table is the number of its rows on an orphan whose canonical stock lacks their key |
| Reconcile.OrphanedAreRows | backend/scripts/reconcile_orphan_stocks.py:90-93 | The dropped count is the number of rows still on an orphan |
| Reconcile.SecondRunFindsNothing | backend/scripts/reconcile_orphan_stocks.py:58-69 | After the soft delete the mapping is empty, so a second run does nothing |
| Reconcile.Database.BuildMapping | backend/scripts/reconcile_orphan_stocks.py:54-64 | The two loops build the mapping that MappingIsExact describes |
| Reconcile.Database.Reconcile | backend/scripts/reconcile_orphan_stocks.py:47-105 | The transaction fails exactly when some table has a clash, reports nothing to do exactly when no orphan exists, reports the moved and dropped count per table, and changes the database only on a real successful run: to the repointed tables, and to the same stocks in the same order with exactly those that have a twin made inactive and nothing else changed |
| Normalize3NF.RoundTrip | backend/alembic/versions/b3a1c9d2e4f5_normalize_schema_3nf.py:137-382 | Downgrade after upgrade gives every stock its industry text back, NULL as '', and of every child table exactly the rows with a matching stock, symbols restored |
| Normalize3NF.LosslessIff | backend/alembic/versions/b3a1c9d2e4f5_normalize_schema_3nf.py:137-382 | Upgrade then downgrade changes nothing if and only if no industry is NULL, every child row has a stock, price rows carry their stock's market, and the dropped industry columns are empty |
| Normalize3NF.OtherMarketIsLost | backend/alembic/versions/b3a1c9d2e4f5_normalize_schema_3nf.py:192-209 | A concrete valid database without orphans or duplicates that does not survive the round trip: a price row names another market than its stock |
| Normalize3NF.TableRoundTrip | backend/alembic/versions/b3a1c9d2e4f5_normalize_schema_3nf.py:171-209 | Any child table, both directions: the surviving rows in order, symbol, key and payload intact |
| Normalize3NF.UpgradeKeepsMatching | backend/alembic/versions/b3a1c9d2e4f5_normalize_schema_3nf.py:180-188 | The UPDATE and DELETE keep exactly the rows whose symbol belongs to a stock, in order |
| Normalize3NF.UniquenessCarriesOver | backend/alembic/versions/b3a1c9d2e4f5_normalize_schema_3nf.py:192-209 | (stock_id, key) is unique after the upgrade if and only if (symbol, key) was unique on the surviving rows |
| Normalize3NF.DowngradeRestoresUniqueness | backend/alembic/versions/b3a1c9d2e4f5_normalize_schema_3nf.py:592-617 | (symbol, key) is unique again after the round trip |
| Normalize3NF.StockRoundTrip | backend/alembic/versions/b3a1c9d2e4f5_normalize_schema_3nf.py:622-640 | A stock's industry text survives linking and unlinking, NULL becoming '' |
| Normalize3NF.IndustriesAreUsedNames | backend/alembic/versions/b3a1c9d2e4f5_normalize_schema_3nf.py:90-108 | The industries table lists each name once, and exactly the non-empty names that a stock, a valuation or a revenue uses |
| Normalize3NF.UpgradeTable | backend/alembic/versions/b3a1c9d2e4f5_normalize_schema_3nf.py:171-209 | The statement sequence for one child table, row by row, computes the rows of UpgradeKeepsMatching |
| Normalize3NF.Upgrade | backend/alembic/versions/b3a1c9d2e4f5_normalize_schema_3nf.py:90-382 | The upgrade fails exactly on a market outside the enum or on surviving revenue rows with one stock and period (the new UNIQUE); otherwise all four unique constraints hold |
| Normalize3NF.DuplicateRevenuesBlockUpgrade | backend/alembic/versions/b3a1c9d2e4f5_normalize_schema_3nf.py:375-378 | A concrete valid database the upgrade rejects: two revenue rows of one stock and period |
| Normalize3NF.DowngradeTable | backend/alembic/versions/b3a1c9d2e4f5_normalize_schema_3nf.py:592-617 | The reverse statements for one child table compute the rows of TableRoundTrip |
| Normalize3NF.Downgrade | backend/alembic/versions/b3a1c9d2e4f5_normalize_schema_3nf.py:512-640 | The reverse statement order computes the database of RoundTrip |
| Purifier.NoPhraseSurvives | backend/app/middleware/compliance_purifier.py:27-38 | For every text and every order of the table, after the four passes none of the five phrases occurs anywhere, the seams of replacements included |
| Purifier.PurifyIsIdempotent | backend/app/middleware/compliance_purifier.py:35-38 | In every order of the table, purifying twice is purifying once, and a text is unchanged if and only if it contains no phrase |
| Purifier.PassFrees | backend/app/middleware/compliance_purifier.py:35-38 | One pass removes its own phrases and brings back none that were gone, for every rule whose replacement the phrase cannot overlap |
| Purifier.OrderMattersIff | backend/app/middleware/compliance_purifier.py:26-38 | The comment says order does not matter. Of the 24 orders of the table, those with 建議買入 before 買入點 give the table's text on every input, and each of the others gives it exactly on the texts that do not contain 建議買入點 |
| Purifier.SwappedTableDiffers | backend/app/middleware/compliance_purifier.py:26-38 | An order and a text on which it does: the two first rules swapped, on 建議買入點 |
| Purifier.SwapMattersIffOverlap | backend/app/middleware/compliance_purifier.py:27-38 | The two overlapping rules alone: the passes in either order agree exactly on the texts without 建議買入點 |
| Purifier.PassesCommute | backend/app/middleware/compliance_purifier.py:35-38 | Two rules whose patterns and replacements share no character can be applied in either order |
| Purifier.Purify | backend/app/middleware/compliance_purifier.py:35-38 | The loop that rebinds the text computes the composition of passes of the lemmas above |
| Csv.TableIsRead | frontend/src/lib/csv-export.ts:4-15 | For arbitrary cell strings, a reader following rules 5 to 7 of section 2 of RFC 4180 recovers exactly the rows and cells written, as long as every row has a cell |
| Csv.DataRowsDecodeIffColumns | frontend/src/lib/csv-export.ts:4-15 | For the tables the writer is given, the data rows are recovered if and only if there is at least one column |
| Csv.CellsAreValues | frontend/src/lib/csv-export.ts:6-13 | A decoded cell is its row's value under its header, and empty if that is null or missing |
| Csv.LineIsRead | frontend/src/lib/csv-export.ts:7-13 | One written line, followed by nothing or by further lines, is read back cell by cell |
| Csv.DocumentLayout | frontend/src/lib/csv-export.ts:3-15 | A document is the byte-order mark, the header line without quoting, and on the following lines the data rows of TableIsRead |
| Csv.DocumentDecodesIffPlainHeaders | frontend/src/lib/csv-export.ts:3-15 | A whole document, header line included, is read back if and only if there is a column and no header contains a comma, a quote or a line break |
| Csv.WritingIsShortest | frontend/src/lib/csv-export.ts:4-13 | No text that reads as a given table is shorter than the writer's text for it |
| Csv.HeaderWithCommaIsSplit | frontend/src/lib/csv-export.ts:3-15 | The failing case: a column named `a,b` is read back as two columns |
| Csv.ImportRecoversFirstColumn | frontend/src/lib/csv-import.ts:1-9 | Importing an exported document gives the non-empty first-column cells in order, when they are free of commas, quotes and outer spaces, no cell has a line break and the header is a non-blank single line |
| Csv.SymbolRecoveredIff | frontend/src/lib/csv-import.ts:4-7 | For a symbol without comma and line break, export then import gives it back if and only if it has no quote and no outer spaces |
| Csv.TrimEndKeepsSymbols | frontend/src/lib/csv-import.ts:2-3 | Trimming the end of the text loses no symbol when no line starts with a space |
| Csv.ParseCSV | frontend/src/lib/csv-import.ts:1-9 | The pushing loop computes the symbols of ImportRecoversFirstColumn for every text |
| Csv.TrimMeans | frontend/src/lib/csv-import.ts:2-6 | Trimming cuts only white space off both ends and leaves none there |
| Csv.LinesMean | frontend/src/lib/csv-import.ts:2 | Splitting gives lines without line breaks that joined with line breaks are the text |
| Csv.BeforeMeans | frontend/src/lib/csv-import.ts:5-6 | The first column is the text before the first comma |
| Csv.WithoutQuotesMeans | frontend/src/lib/csv-import.ts:6 | Removing quotes drops every quote and keeps every other character in order |
| Csv.QuotedSymbolIsUnquoted | frontend/src/lib/csv-import.ts:4-6 | A symbol in quotes is read without them |
| Billing.ExactlyOnce | backend/app/api/v1/billing.py:91-182 | Whatever duplicates, crashes before the commit and retries a run contains, users, processed ids and audit rows are those of applying each event id's first surviving delivery once, in order |
| Billing.CountedIdsAreDistinct | backend/app/api/v1/billing.py:91-103 | Those deliveries have pairwise distinct event ids |
| Billing.RedeliveryIsHarmless | backend/app/api/v1/billing.py:91-103 | Delivering a committed event again changes nothing |
| Billing.TrailReconstructsTiers | backend/app/api/v1/billing.py:105-168 | Over every run, each audit row's before-tier is what the earlier rows say and replaying the trail gives every user's current tier |
| Billing.OnlyDeletionDowngrades | backend/app/api/v1/billing.py:140-207 | Over every run: a user on a paid tier at one moment and on the free tier at a later one was taken off it in between by a surviving customer.subscription.deleted event for the subscription the user then held; nothing else does it, cancelling included |
| Billing.SharedSubscriptionNeverEnds | backend/app/api/v1/billing.py:140-143 | Two checkouts can give two users one subscription id; its deletion then raises, and any number of retries changes nothing |
| Billing.EventsWithoutIdRepeat | backend/app/api/v1/billing.py:91-103 | An event without an id is not deduplicated: delivered twice, it leaves two audit rows |
| Billing.Store.StripeWebhook | backend/app/api/v1/billing.py:75-182 | A delivery is a duplicate exactly when its id is processed, raises exactly on a crash or an ambiguous subscription, leaves the database untouched unless applied, and then has the effect the run lemmas are about |
| Billing.CheckoutMeans | backend/app/api/v1/billing.py:105-138 | An applied checkout gives its user basic or pro as named and the old tier for any other name, the event's customer and subscription and one audit row, and changes nobody else |
| Billing.DeletionMeans | backend/app/api/v1/billing.py:140-168 | An applied deletion takes the one holder of the subscription, if any, to the free tier without a subscription, keeps the customer, adds one audit row, and changes nobody else |
| Billing.AmbiguousIffShared | backend/app/api/v1/billing.py:140-143 | The lookup raises exactly when two users hold the subscription |
| Billing.Store.CancelSubscription | backend/app/api/v1/billing.py:186-207 | Cancelling only adds an audit row, and only for a user with a subscription; tier, subscription and processed ids stay |
| RateLimit.FullHistoryIsKeptAndForgotten | backend/app/api/v1/auth.py:44-53 | For every clock: the full history's acceptances in the window are those the limiter counts plus the pruned ones that are back in the window |
| RateLimit.DecidesByFullHistoryIff | backend/app/api/v1/auth.py:46-53 | For every clock: the limiter counts the full history if and only if no pruned acceptance is back in the window; its decision differs exactly if these would make up the limit, and then it accepts |
| RateLimit.DecidesByFullHistory | backend/app/api/v1/auth.py:39-53 | A request no earlier than those of its own address is accepted if and only if the full, unpruned history holds fewer than the limit of acceptances of its address in the preceding window |
| RateLimit.BoundBrokenIff | backend/app/api/v1/auth.py:44-53 | For every clock: an interval of the window's length holds more than the limit of acceptances if and only if some request arrived in it while the limiter counted fewer than the limit but stored and pruned acceptances already filled the interval |
| RateLimit.OverfillingNeedsForgotten | backend/app/api/v1/auth.py:44-53 | Such a request needs a pruned acceptance that is back in its window |
| RateLimit.AtMostLimitPerWindow | backend/app/api/v1/auth.py:39-53 | If the clock does not go back between requests of one address, no interval of the window's length holds more than the limit of acceptances of it |
| RateLimit.ClockGoingBackBreaksBound | backend/app/api/v1/auth.py:46-53 | A concrete run with a clock going back in which three acceptances fall into one window of limit two |
| RateLimit.AddressesAreIndependent | backend/app/api/v1/auth.py:34-53 | What an address gets, and what is stored for it, depends on its own requests alone, whatever the clock does |
| RateLimit.Limiter.Check | backend/app/api/v1/auth.py:39-53 | Prune, compare, append on the store: the answer and the new store are those of the history lemmas; a limit of zero or less switches it off |
| Devices.Store.Register | backend/app/api/v1/auth.py:138-195 | A blocked device is refused, a known one refreshed, a new one refused exactly at three active devices; after every login, in serial runs, no user has more than three |
| Devices.Store.Block | backend/app/services/device.py:70-110 | Blocking changes one device and keeps the limit |
| Devices.AddingOne | backend/app/api/v1/auth.py:163-195 | One more active device for its user, none for anyone else, so the limit is kept |
| SectorBackfill.Database.RunBackfill | backend/scripts/backfill_us_sector_taxonomy.py:112-164 | Dry and real runs return the same statistics on the same database; a dry run writes nothing, a real one adds exactly the missing sectors and links exactly the stocks with a known sector |
| SectorBackfill.StatsAddUp | backend/scripts/backfill_us_sector_taxonomy.py:105-160 | Updated + already set + no taxonomy is the number of stocks scanned, and created is the number of sector rows added |
| SectorBackfill.StatsCountStocks | backend/scripts/backfill_us_sector_taxonomy.py:117-160 | Updated, already set and no taxonomy are the numbers of stocks with a known sector they were not linked to, with one they were linked to, and without one |
| SectorBackfill.EveryKnownStockIsLinked | backend/scripts/backfill_us_sector_taxonomy.py:135-160 | After a real run every stock with a known sector links to the industry of that name, and no other stock has changed |
| SectorBackfill.RerunChangesNothing | backend/scripts/backfill_us_sector_taxonomy.py:14-16 | A rerun updates and creates nothing |
| SectorBackfill.Database.Resolve | backend/scripts/backfill_us_sector_taxonomy.py:122-143 | Get-or-create: a row is created, or planned on a dry run, exactly for a sector that is neither cached nor in the table |
| Watchlist.Browser.Migrate | frontend/src/lib/watchlist-migration.ts:140-210 | On every path migrated + skipped + failed is the number of legacy entries; entries not yet listed are tried in order until a tier-cap reply, after which none is; the server's list grows by exactly the inserted, distinct, new symbols, as many as counted plus those whose reply was lost; failures and skips are what the replies say; the key survives exactly when the listing fails (or removal does) |
| Watchlist.AddAll | frontend/src/lib/watchlist-migration.ts:177-200 | The loop of adds keeps all of that as it goes, and with honest replies every symbol ends listed or reported |
| Watchlist.PreSkip | frontend/src/lib/watchlist-migration.ts:168-175 | Listed entries count as skipped, the others keep their order |
| Watchlist.UsableSymbolsMean | frontend/src/lib/watchlist-migration.ts:74-92 | Reading drops malformed entries and blank symbols, keeps every other symbol as it is, in order |
| Watchlist.IncludesMeans | frontend/src/lib/watchlist-migration.ts:115-117 | A message includes a text if and only if it is something, the text, and something |
| Watchlist.InsertedIsAnsweredOrLost | frontend/src/lib/watchlist-migration.ts:184-185 | The rows inserted are those counted as migrated and those whose reply was lost, and none of the latter if every inserted row was answered |
| Watchlist.ExtensionIsNewAndDistinct | frontend/src/lib/watchlist-migration.ts:161-175 | What a duplicate-free list was extended with is new and pairwise distinct |
| Watchlist.Server.Add | backend/app/api/v1/watchlist.py:243-294 | The endpoint's checks in order (unknown symbol, cap, duplicate), seen through a network that may refuse the call or lose the reply |
| Journal.ListGroups | backend/app/api/v1/journal.py:221-292 | For all table contents the three batched queries and the dictionaries give, group by group, what the per-group builder gives: empty groups stay, members without an account are dropped |
| Journal.BuildGroupResponse | backend/app/api/v1/journal.py:303-352 | The per-group builder returns the group with exactly the members of ShownIff, in table order |
| Journal.ShownIff | backend/app/api/v1/journal.py:325-345 | A member is shown if and only if a member row of that group and its account exist, with that row's weight and that account |
| Journal.NothingShownTwice | backend/app/api/v1/journal.py:264-291 | With distinct group ids, the members shown over all groups are as many as the member rows with a listed group and an existing account |
| Journal.GroupRows | backend/app/api/v1/journal.py:250-252 | The bucket loop puts each member row into its group's list, in order, and no key is missing |
| Journal.ByIdDict | backend/app/api/v1/journal.py:255-264 | The account dictionary answers every id as the table does |
| Allocation.RuleTable.SetAccountAllocation | backend/app/api/v1/journal.py:360-406 | An unknown account changes nothing; otherwise each symbol ends with the last request's terms on its old row, or on a new row if it had none, symbols without a request and other owners' rows are untouched, the unique index holds, and the answer lists the account's rows |
| Allocation.RuleTable.Upsert | backend/app/api/v1/journal.py:370-399 | One upsert settles its symbol and no other, and keeps the index and the one-owner check |
| Allocation.RowUpdate | backend/app/api/v1/journal.py:379-384 | Updating a row in place changes what its own (account, symbol) holds and nothing else |
| Allocation.SettledTwice | backend/app/api/v1/journal.py:360-406 | Sending the same requests again leaves every row of the account as it was |
| Allocation.RulesOfIff | backend/app/api/v1/journal.py:401-406 | The answer holds exactly the table's rows of that account |

## Left out

- Sharpe ratio, annualised return, buy-and-hold comparison, rounding, trade reasons and dates, CSV and leaderboard output of the backtest scripts.
- Floating-point rounding in indicators and engines: `real` arithmetic throughout.
- Periods of zero or negative length in the indicators; the model's periods are at least one day.
- A consecutive-days closure reused across two runs, whose counter persists: the model uses a fresh closure per run.
- RateLimit.Limiter.Check: one process only; a store shared by several processes is not modelled.
- Devices.Store.Register: serial logins only; two logins racing on the count, audit rows and the fingerprint computation are not modelled.
- Billing.Store.StripeWebhook: signature checking, payload parsing, metrics and two different events handled at the same time are not modelled; a crash is one before the first commit.
- JobQueue.EffectsCommitOnce: job configuration, timestamps other than the creation time, and the grid search's detached progress callbacks are not modelled.
- JobWorker.Store.PollOnce: in the message for an unknown kind, Python's escapes for quotes and control characters in the kind are not modelled; the kind stands between single quotes.
- JobWorker.Store.PollLoop: one worker without interference; all interleavings are covered by JobQueue.
- Normalize3NF.Upgrade: the users and notification phases (3, 9, 10), numeric type changes, index creation and enum types are not modelled.
- Reconcile.Database.Reconcile: the canonical map is given; the temporary table and printed text are not modelled.
- SectorBackfill.Database.RunBackfill: enrichment is a fixed lookup; the query's market and symbol filter, dropped sessions and output are not modelled.
- Purifier.Purify: the middleware around it (content types, decoding, streaming, headers) is not modelled.
- Csv.ParseCSV: file reading and the browser download are not modelled; rows written by the exporter with LF only.
- Watchlist.Browser.Migrate: JSON parsing of the stored value, audit rows, and other clients changing the list during the migration are not modelled.
- Journal.ListGroups: group creation and the other journal endpoints (FIFO lots, position sync, snapshots, alerts) are not modelled.
- Allocation.RuleTable.SetAccountAllocation: the database sequence is a counter, and Decimal precision is not modelled.
- The screener, the FIFO lot engine, rebalancing, React components, caching, schedulers, other migrations and small classifiers.
