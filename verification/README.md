# SkopaqTrader: orders, money and time, proved

SkopaqTrader trades Indian equities by itself: it scans, analyses, buys, watches, sells and keeps the
books. This project models the parts of it that must not go wrong and proves what they promise, for
every input, every run and every interleaving:

- **what can still be sold** (`OrderStatus`, `OrderFills`, `BookSnapshot`, `SellProtocol`): how a broker
  status is spelt and read, why the order book is read before the positions, and that no interleaving of
  fills, cancels, reads and SELLs ever leaves the account short;
- **whether an order exists** (`BrokerClient`): which failures allow a second send, and what may be read
  as an empty order book;
- **the backtest** (`BacktestEngine`): no look-ahead, conservation of money, bounded loss, disjoint trades;
- **the paper ledger** (`PaperEngine`): cash, averaged cost and profit over any run of fills;
- **late fills** (`LateFills`): shares confirmed after an order was reported, over rows that close and split;
- **request limits** (`RateLimiter`): bounds over every window of every run;
- **the session** (`DaemonSession`, `DaemonClosing`) and **the kill switch** (`KillSwitch`): state machines
  with failures, deadlines, cancellations and shared files;
- **simulations** (`MonteCarlo`, `WalkForward`, `Sweep`): permutations, windows and resumption.

`Wrappers`, `Lists` and `Rounding` hold what several modules share. Money, prices and quantities are exact
numbers; the roundings the code writes out are kept. Whatever the code cannot control (the broker, clocks,
sleeps, random draws, other processes, the analysis graph) is a parameter or an event of the model.
`dafny verify dfyconfig.toml` checks everything.

## Where the code does not do what it says

Each of these is proved, with the exact condition under which the code does meet the promise:

- a configured target (the default) makes the backtest's trailing stop and SELL-signal exit unreachable
  (`BacktestEngine.TargetDisablesLaterExits`, `TrailingStopClosesExactlyWhen`, `SellSignalClosesExactlyWhen`);
  reported P&L leaves out exactly the entry commissions (`FinalEquityIsBooked`);
- a non-empty list without an object reads as an empty order book, and nothing else odd does
  (`BrokerClient.EmptyBookMeansNoOrdersExactlyWhen`);
- a filled order whose row carries no traded quantity still reports all of it as remaining
  (`OrderStatus.FillAndRemainderSplitRequest`), and a report without it can take a known fill back
  (`KnownFillFallsExactlyWhen`); dash variants are only recognised for the partial final statuses, so
  `O - PENDING` is not (`DocumentedExactlyFrom`);
- selling on paper more than is held invents exactly the carrying cost of the excess
  (`PaperEngine.SellConservesExactlyWhenHeld`, `InventedMoneyIsOversold`);
- a late fill whose delta price is not positive is over-valued (`LateFills.NonPositiveDeltaOvervalues`); one
  of an order whose row joins several ids is booked on top of what was reported (`BookingAccountsExactlyWhen`,
  `JoinedIdsBookTwice`);
- a token bucket smaller than one call goes into debt (`RateLimiter.SmallBucketGoesNegative`), and a full one
  serves twice its size in one period (`BucketServesTwiceItsSize`);
- a cancelled task skips the CLOSING safety net (`DaemonSession.ExposedSessionsClose`);
- the kill switch's five seconds are counted from the end of a look, not its start: they hold exactly when a
  look takes no time (`KillSwitch.FiveSecondsAreEnoughExactlyWhen`);
- from a start on day 29, 30 or 31 out-of-sample windows can overlap (`WalkForward.SafeDaysAreTheFirst28`).

## Model

| member | source | states |
|---|---|---|
| OrderStatus.NormaliseIsIdempotent | skopaq/broker/order_status.py:78-92 | normalising a status a second time changes nothing, on every string and for non-strings, under any upper-casing that agrees with ASCII |
| OrderStatus.TidiedAlikeExactlyWhen | skopaq/broker/order_status.py:86 | two raw statuses are tidied alike exactly when, upper-cased with underscores as spaces, they are the same words in any spacing |
| OrderStatus.NormaliseIgnoresCaseAndBlanks | skopaq/broker/order_status.py:86 | the same words are normalised alike, whatever their case, underscores and blanks, also before the first and after the last |
| OrderStatus.PartialFinalVariants | skopaq/broker/order_status.py:81-92 | a partial final status under either verb, with any blanks and at most one dash before its last word, reaches the one spelling of the tables |
| OrderStatus.DocumentedExactlyFrom | skopaq/broker/order_status.py:52-92 | for every documented status, exactly which tidied spellings reach it: either verb, six separators or a short code for the partial ones, RJ for REJECTED, and only its own words for every other |
| OrderStatus.SpacedDashIsUnrecognised | skopaq/broker/order_status.py:52-55 | `o - pending` is not the documented O-PENDING: it ends up unrecognised, which still counts as open |
| OrderStatus.OpenExactlyWhen | skopaq/broker/order_status.py:95-122 | an order counts as open exactly when no table or operator extra calls its status final and it has not all traded |
| OrderStatus.KnownFillFallsExactlyWhen | skopaq/broker/order_status.py:168-189 | over any history whose traded quantity does not fall, a known fill falls back exactly when one of two reports leaves the traded quantity out |
| OrderStatus.ReportedFillsStay | skopaq/broker/order_status.py:104-189 | with the traded quantity reported, the remainder never grows, and after a fill no report says that nothing filled or that the fill is unknown |
| OrderStatus.FilledByQuantityStays | skopaq/broker/order_status.py:112-113 | once all of an order has traded, no later report with a traded quantity that does not fall takes it out of FILLED |
| OrderStatus.FillAndRemainderSplitRequest | skopaq/broker/order_status.py:158-189 | a known fill lies in [0, requested] and with the remainder adds up to requested, except exactly for a filled row without a traded quantity |
| OrderFills.ParseFills | skopaq/broker/order_status.py:370-393 | count and quantity of the fills; a price only if there are fills and all are priced, and then value over quantity |
| OrderFills.CountingIsTheFills | skopaq/broker/order_status.py:370-393 | the fills that are summed are exactly the rows that report shares, each once and in order |
| OrderFills.VwapWithinFillPrices | skopaq/broker/order_status.py:362-393 | the volume-weighted price lies within any range that holds the fill prices |
| BookSnapshot.ParseOrderBook | skopaq/broker/order_status.py:331-350 | the loop leaves the parsed book of the rows |
| BookSnapshot.BookKeepsEveryRow | skopaq/broker/order_status.py:334-349 | the parsed book is exactly the rows with an order id, each parsed once, in book order, with the index of each |
| BookSnapshot.ReadBrokerSnapshot | skopaq/broker/book_snapshot.py:36-89 | the calls made and their order (book, one retry after a pause, positions, holdings), and how each failure is reported or escapes |
| SellProtocol.StepEffect | skopaq/broker/book_snapshot.py:46-48 | what every broker step does to open SELLs, positions and what is truly sellable: only a new SELL lowers it |
| SellProtocol.BookHoldsBack | skopaq/execution/sellable.py:254-268 | the parsed book holds back at least the open SELL remainder, and exactly it when dead orders are reported final |
| SellProtocol.BookFirstNeverOverstates | skopaq/broker/book_snapshot.py:43-70 | for every run of broker steps between the reads without a new SELL, the snapshot never overstates what can be sold, and falls short by exactly the open SELLs filled or cancelled in between |
| SellProtocol.ReadSellable | skopaq/broker/book_snapshot.py:36-89 | the whole read, with its retry, against a broker that moves on between the calls: a snapshot without an error never overstates what can be sold |
| SellProtocol.PositionsFirstOverstates | skopaq/broker/book_snapshot.py:46-48 | read the other way round, the same sum is off by exactly the net quantity sold in between: it overstates exactly when more was sold than bought |
| SellProtocol.UnreadBookOverstates | skopaq/broker/book_snapshot.py:49-50 | the empty orders of a failed book read overstate by exactly the open SELLs, so an error must be obeyed |
| SellProtocol.StepKeepsCovered | skopaq/execution/sell_lock.py:1-11 | every step of a whole session (broker, reads, SELLs of several symbols) keeps every seller's belief below the truth and nothing oversold |
| SellProtocol.NeverShort | skopaq/execution/sellable.py:1-21 | over any session of one seller per symbol that sells at most its snapshot's quantity, holdings plus net position never go negative |
| SellProtocol.PositionsFirstGoesShort | skopaq/broker/book_snapshot.py:46-48 | a run in which a positions-first seller ends ten shares short |
| BrokerClient.RefusedExactlyWhenNothingExists | skopaq/broker/client.py:624-653 | placing reports a plain refusal exactly for the outcomes after which no order can exist |
| BrokerClient.AtMostOnceExactlyWhen | skopaq/broker/client.py:94-98 | a caller can never create two orders for one request exactly when it sends again only after a refusal |
| BrokerClient.PlacedExactlyWhen | skopaq/broker/client.py:594-664 | accepted with an id exactly when the answer delivers it, refused exactly for a request that never left or a 4xx, else uncertain with its cause |
| BrokerClient.DeliversExactlyWhen | skopaq/broker/client.py:312-377 | over all answers, what the envelope lets through: a list, or an object without any failure mark and, for its data, a success mark or no mark at all |
| BrokerClient.FailureKinds | skopaq/broker/client.py:312-377 | over all answers, the kind of every failure, each in both directions |
| BrokerClient.FailuresAreNeverABook | skopaq/broker/client.py:312-377 | failure bodies, lost connections, scalars and unmarked nulls are never read as an order book |
| BrokerClient.EmptyBookExactlyWhen | skopaq/broker/client.py:711-736 | an answer that offers a list reads as an empty book exactly when its envelope is accepted and the list holds no object |
| BrokerClient.BookHasEveryRow | skopaq/broker/client.py:157-158 | an accepted answer's book is every object its list holds, each once and in order |
| BrokerClient.RowsExactlyWhen | skopaq/broker/client.py:711-736 | over all answers and keys: rows exactly for an accepted list, and then all of its objects, or for a null marked a success, and then none |
| BrokerClient.EmptyBookMeansNoOrdersExactlyWhen | skopaq/broker/client.py:151-158 | over all answers: an empty book means that the broker said so, except exactly for an accepted, non-empty list without an object |
| BrokerClient.OddRowsReadAsEmptyBook | skopaq/broker/client.py:157-158 | a list holding one string reads as an empty order book |
| BrokerClient.GetPositions | skopaq/broker/client.py:801-846 | every object of the CNC answer and then of the intraday one, in order and tagged with their query; a refused CNC query is survived exactly when both were refused and the plain query answers; which failure escapes otherwise |
| BacktestEngine.RunBacktest | skopaq/backtest/engine.py:129-289 | the loop leaves the trades, equity curve and capital of the step-by-step account; an empty frame raises |
| BacktestEngine.EveryBarMeans | skopaq/backtest/engine.py:138-254 | every bar of every run, in bars and configuration only: a flat account enters exactly on an affordable BUY signal, with size and price; a held one leaves exactly on a reached stop, target, armed trailing stop or SELL signal; what the equity then is |
| BacktestEngine.EveryTradeIsExplained | skopaq/backtest/engine.py:138-269 | every reported trade was bought on a BUY bar with the right size, held over bars that gave no reason to leave, and sold on the first that did, for exactly that reason and price, or at the end of the data as the last trade |
| BacktestEngine.SkippedExactlyWhen | skopaq/backtest/engine.py:140-149 | a bar is skipped exactly when its close is further from the previous positive close than the circuit limit |
| BacktestEngine.NoLookAhead | skopaq/backtest/engine.py:138-254 | histories that agree on their first k bars reach the same account after them |
| BacktestEngine.PrefixOfBarsGivesPrefixOfResult | skopaq/backtest/engine.py:138-269 | backtesting a prefix gives that prefix of the equity curve and the same closed trades, plus at most its own end-of-data trade |
| BacktestEngine.ConservedAt | skopaq/backtest/engine.py:158-252 | after every bar, capital plus position at cost is initial capital plus trade P&L less entry commissions |
| BacktestEngine.FinalEquityIsBooked | skopaq/backtest/engine.py:254-269 | the last equity value is the final capital and equals initial capital plus P&L less entry commissions |
| BacktestEngine.NeverInDebt | skopaq/backtest/engine.py:246-254 | with non-negative prices and percentages in range, capital and every equity value stay non-negative |
| BacktestEngine.SizeIsLargestWithinRisk | skopaq/backtest/engine.py:239-244 | the quantity is the largest whose stop-out stays in the risk budget, or one |
| BacktestEngine.EveryLossIsBounded | skopaq/backtest/engine.py:151-252 | every trade closed by a rule left at or above its stop less slippage, lost a bounded fraction of its entry value, and with more than one share a bounded part of the cash it was entered with |
| BacktestEngine.TradesNeverOverlap | skopaq/backtest/engine.py:163-269 | over all trades of a backtest, the end-of-data one included, none starts before the previous one ended, and a rule exits on a later day than its entry, with its holding days |
| BacktestEngine.HighWaterIsHighest | skopaq/backtest/engine.py:153 | while holding, the high-water mark is the highest of the entry price and every later high the loop looked at; bars skipped by the circuit breaker do not count |
| BacktestEngine.TargetDisablesLaterExits | skopaq/backtest/engine.py:175-197 | with a target configured, no run ever exits by trailing stop or SELL signal |
| BacktestEngine.SellSignalClosesExactlyWhen | skopaq/backtest/engine.py:218-234 | a SELL signal closes a position exactly when neither stop nor target nor armed trailing stop stands before it |
| BacktestEngine.TrailingStopClosesExactlyWhen | skopaq/backtest/engine.py:197-217 | a trailing stop that is reached closes a position exactly when the stop is not, no target is configured and the mark is above the entry price |
| PaperEngine.LimitIsRespected | skopaq/broker/paper_engine.py:190-198 | a LIMIT order's base price is never worse than its limit |
| PaperEngine.SlippageIsAgainstTheOrder | skopaq/broker/paper_engine.py:120-126 | up to rounding and the one-paisa floor, a BUY pays at least the base price and a SELL gets at most it, for every jitter |
| PaperEngine.Engine.constructor | skopaq/broker/paper_engine.py:51-77 | the initial books: all cash, no positions, no profit |
| PaperEngine.Engine.UpdateQuote | skopaq/broker/paper_engine.py:81-83 | replaces one quote and nothing else |
| PaperEngine.Engine.ExecuteOrder | skopaq/broker/paper_engine.py:91-180 | in order and quote fields: rejected for conditions exactly when a limit or trigger is missing or not reached; the price of each order type and, for a MARKET order, which side of the spread it pays; a rejected order changes nothing, an executed one changes the books by exactly its fill and is recorded; a BUY never overdraws |
| PaperEngine.Engine.ApplyFill | skopaq/broker/paper_engine.py:212-285 | the new cash, positions and day P&L of one fill |
| PaperEngine.FillMoves | skopaq/broker/paper_engine.py:212-285 | field by field what a fill moves: cash by value and fee, the day's profit by what a held SELL realised, its own position by its shares, and nothing else |
| PaperEngine.Engine.TotalValue | skopaq/broker/paper_engine.py:326-341 | cash plus every position at its latest quote, else its last price |
| PaperEngine.WorthCountsEachPosition | skopaq/broker/paper_engine.py:326-341 | each position counts exactly once, at its quote's last price, else at the price it last filled at |
| PaperEngine.Engine.ResetDay | skopaq/broker/paper_engine.py:349-353 | clears the day's counters and keeps cash and positions, and the books still follow from all fills |
| PaperEngine.FillDrift | skopaq/broker/paper_engine.py:212-285 | exactly how much each fill adds to cash plus cost beyond capital, profit and fees |
| PaperEngine.SellConservesExactlyWhenHeld | skopaq/broker/paper_engine.py:259-270 | a SELL adds nothing exactly when every share it sells is held |
| PaperEngine.FillKeepsConsistent | skopaq/broker/paper_engine.py:230-285 | every stored position stays positive and equals buys less sells, with an average price of at least a paisa |
| PaperEngine.LedgerConserves | skopaq/broker/paper_engine.py:212-285 | over any run that sells only what is held, cash plus cost is initial capital plus realised P&L less fees, to half a paisa per share of each averaging BUY |
| PaperEngine.InventedMoneyIsOversold | skopaq/broker/paper_engine.py:259-270 | over any run at all, the excess is to the same rounding the cost of the oversold shares, and zero exactly when none were |
| PaperEngine.TotalValueIsProfit | skopaq/broker/paper_engine.py:326-341 | total value is initial capital plus realised and unrealised profit less fees, plus that drift |
| PaperEngine.Engine.BooksBalance | skopaq/broker/paper_engine.py:91-353 | a running engine, whatever its orders and day resets: cash plus cost is capital plus all realised profit less fees, plus the cost of what was oversold, to the same rounding |
| Rounding.RoundPaise | skopaq/broker/paper_engine.py:125 | rounding to paise moves a price by at most half a paisa |
| Rounding.RoundFour | skopaq/cli/main.py:1221 | quantising to four decimals moves a price by at most half a unit |
| LateFills.DeltaTelescopes | skopaq/cli/main.py:1211-1221 | the new shares at the delta price account for the change in average times quantity, to half a ten-thousandth per share |
| LateFills.NonPositiveDeltaOvervalues | skopaq/cli/main.py:1220-1221 | that holds exactly when the raw delta is positive |
| LateFills.TradeBook.RecordLateFill | skopaq/cli/main.py:1224-1353 | only shares beyond those reported are booked; how rows and exits change by case, and when the answer is that nothing is left to book |
| LateFills.TradeBook.Persist | skopaq/execution/position_monitor.py:425-449 | the reported total moves exactly when the booking was handled |
| LateFills.BookingOpensOnly | skopaq/cli/main.py:1324-1346 | a booking closes and reopens no row, changes at most the order's own open one, and adds at most one, open, row of the order |
| LateFills.BookingOpensNewShares | skopaq/cli/main.py:1324-1346 | after it the order has exactly the newly confirmed shares more to sell, or all of them when it had no row |
| LateFills.OpenSharesFollow | skopaq/cli/main.py:1224-1353 | over any run of confirmations, failed writes, exits and other bookings, the order's open shares are its booked shares less those its own exits closed |
| LateFills.BookingPrices | skopaq/cli/main.py:1298-1346 | which price a booking writes in every case (average, earlier price, delta price, limit or reference) and when it charges the fee |
| LateFills.BookingAccounts | skopaq/cli/main.py:1324-1346 | after an accepted booking the order's rows hold exactly the confirmed shares, whether its row was open, closed or missing |
| LateFills.BookingAccountsExactlyWhen | skopaq/cli/main.py:1324-1346 | on any table, that holds exactly when the order had no shares on rows besides those the booking finds; the rest is booked too much |
| LateFills.JoinedIdsBookTwice | skopaq/cli/main.py:1465-1467 | an order whose row joins several ids is not found: all it had reported is booked a second time |
| LateFills.BookingValues | skopaq/cli/main.py:1324-1346 | and cost the average times the quantity, to the rounding |
| LateFills.BookingIsLocal | skopaq/cli/main.py:1325-1346 | a booking leaves every other order's rows alone |
| LateFills.ExitsKeepSums | skopaq/memory/lifecycle.py:351-398 | closing a row, or splitting it by a partial exit, keeps each order's shares, cost and fees |
| LateFills.RowsHoldTheFill | skopaq/cli/main.py:1224-1353 | over any run of confirmations, failed writes, exits and other bookings, an order with rows has exactly its reported shares in them |
| LateFills.RowsCostTheAverage | skopaq/cli/main.py:1224-1353 | over any such run with known averages and positive deltas, its rows cost average times filled to 0.00005 per share |
| LateFills.FlatFeeBookedAtMostOnce | skopaq/cli/main.py:1252-1253 | the flat fee is booked at most once, and never by a late fill when something had been reported |
| LateFills.LateExitsTelescope | skopaq/cli/main.py:1255-1294 | a stuck exit filling in pieces: its late exits add up to the new shares, their proceeds to the change in value, the fee once |
| RateLimiter.TokenBucket.Acquire | skopaq/broker/rate_limiter.py:25-39 | the bucket after one acquire and how long it slept |
| RateLimiter.TokensStayInRange | skopaq/broker/rate_limiter.py:25-39 | with room for a call and sleeps not cut short, an acquire leaves between none and all but one of the tokens |
| RateLimiter.SmallBucketGoesNegative | skopaq/broker/rate_limiter.py:29-33 | a full bucket stays out of debt after its first acquire exactly when it holds at least one call |
| RateLimiter.BucketBoundsEveryInterval | skopaq/broker/rate_limiter.py:11-39 | over any run, an interval of length T sees at most max_calls + T * max_calls / period calls |
| RateLimiter.BucketServesTwiceItsSize | skopaq/broker/rate_limiter.py:45-47 | that bound is reached: twice the size within one period |
| RateLimiter.SlidingWindow.TryAcquire | skopaq/broker/rate_limiter.py:65-74 | one turn of the loop: what is pruned, whether the call is admitted, or how long to wait |
| RateLimiter.DequeDecidesLikeHistory | skopaq/broker/rate_limiter.py:67-73 | for any interleaving of callers, each attempt is admitted exactly when the full history shows fewer than max_calls admissions in the last period |
| RateLimiter.AdmissionsAreSpaced | skopaq/broker/rate_limiter.py:42-49 | the admission max_calls places later is at least a period later |
| RateLimiter.WindowBound | skopaq/broker/rate_limiter.py:42-49 | no window a period long holds more than max_calls admissions |
| RateLimiter.WaiterGetsIn | skopaq/broker/rate_limiter.py:65-74 | a caller that slept as told finds a slot freed, and is admitted if fewer calls were admitted meanwhile than slots came free, whatever attempts came in between |
| RateLimiter.WaitIsNeeded | skopaq/broker/rate_limiter.py:65-74 | the wait is not longer than needed: before it is over the full history would refuse every attempt |
| DaemonSession.TradingDaemon.AnalyzeAndTrade | skopaq/execution/daemon.py:474-619 | the report's counters and the way the analysis loop ends, for every script of stops, halts, failures and outcomes |
| DaemonSession.CountersCount | skopaq/execution/daemon.py:494-619 | after the loop every counter is the number of candidates of its kind among those analysed, and the ending is what stood at the next candidate, or a cancellation |
| DaemonSession.TradingDaemon.SessionBody | skopaq/execution/daemon.py:221-287 | the phases entered and the ending of the session's `try` block |
| DaemonSession.TradingDaemon.RunSession | skopaq/execution/daemon.py:204-332 | every phase entered, the counters, and whether the session or PRE_OPEN failed |
| DaemonSession.PhasesExactlyWhen | skopaq/execution/daemon.py:204-305 | which phases a session enters, each in both directions, from its script and what trading came to |
| DaemonSession.ExposedSessionsClose | skopaq/execution/daemon.py:286-305 | a session that bought or may have bought enters CLOSING exactly when its task was not cancelled during trading or monitoring |
| DaemonSession.PhasesMoveForward | skopaq/execution/daemon.py:71-82 | phases only move forward and every session ends with REPORTING and SHUTDOWN |
| DaemonSession.SlotsAreBounded | skopaq/execution/daemon.py:494-619 | confirmed plus unconfirmed-only BUYs never exceed max_trades, and the counters account for every candidate analysed |
| DaemonSession.AnalysedExactlyWhen | skopaq/execution/daemon.py:494-619 | over the whole run, a candidate is analysed exactly when no stop or halt came at it or before, nothing was cancelled before, and the BUYs before it leave a slot |
| DaemonClosing.CloseLive | skopaq/execution/daemon.py:848-909 | in pass fields, times and deadline only: when there must be another pass and after which pause, in both directions, and what each ending says of the last pass; a step that raises ends the loop |
| DaemonClosing.HistoryMeans | skopaq/execution/daemon.py:848-909 | over a whole log: a pass is followed by another exactly when work is left, it was the first or had an own block or a rate wait, and one more attempt still fits; the exact pause; and the ending otherwise |
| DaemonClosing.EndingsAreHonest | skopaq/execution/daemon.py:884-903 | all sold or nothing left is reported exactly when nothing is unsold, unshown or blocked; a second-pass ending only after two passes; no time only when an attempt does not fit |
| DaemonClosing.LaterPassesNeedAReason | skopaq/execution/daemon.py:829-833 | there is a third pass only while an own open SELL covers a position or the rate rule refused an exit |
| DaemonClosing.AtMostTwoPasses | skopaq/execution/daemon.py:893-894 | without either there are at most two passes |
| DaemonClosing.LaterPassesFit | skopaq/execution/daemon.py:898-908 | a later pass is decided on only while one more attempt fits after the wait, and starts with one still fitting if the sleep is exact and the deadline unmoved |
| DaemonClosing.PauseCoversRateWait | skopaq/execution/daemon.py:890-908 | an exit the rate rule refused is not retried before the rule's wait is over |
| DaemonClosing.PassesAreBounded | skopaq/execution/daemon.py:852-908 | passes start at distinct times, so the deadline bounds their number |
| DaemonClosing.PhaseMonitor | skopaq/execution/daemon.py:621-683 | at most four monitor runs, each after a run that left positions at a clear moment, and all of them merged |
| DaemonClosing.MergedIsAssociative | skopaq/execution/daemon.py:1154-1169 | how consecutive runs are grouped does not matter |
| DaemonClosing.MergingConserves | skopaq/execution/daemon.py:1154-1169 | merging loses no sale, failure, profit, cycle, late fill, reason or blocked exit, reports the most positions, and keeps the last run's leftovers |
| KillSwitch.Process.Status | skopaq/execution/kill_switch.py:98-117 | an answer younger than five seconds is served again; else a halt is answered exactly when a source says so, under the first that does, newly stamped |
| KillSwitch.Process.Halt | skopaq/execution/kill_switch.py:120-152 | the file is there if it could be written, the cache is dropped, and it fails exactly when nothing was written |
| KillSwitch.Process.Resume | skopaq/execution/kill_switch.py:155-180 | the file is gone and the cache dropped, or the file could not be removed and nothing changed |
| KillSwitch.LookCachesVerdict | skopaq/execution/kill_switch.py:98-117 | among many processes, a look caches the verdict on the sources it saw, stamped when it is done |
| KillSwitch.HaltReachesEveryone | skopaq/execution/kill_switch.py:98-117 | for any interleaving of processes, "active" is served after a halt only from a look begun before it, and by nobody once five seconds plus the longest look have passed |
| KillSwitch.OwnHaltHoldsUntilResume | skopaq/execution/kill_switch.py:120-152 | a process whose own halt wrote the file never serves "active" until somebody resumes |
| KillSwitch.OwnCallForgetsOldLooks | skopaq/execution/kill_switch.py:120-180 | a process that has halted or resumed never again answers from a look begun before that call was over |
| KillSwitch.HaltReachesEveryoneExactlyAfter | skopaq/execution/kill_switch.py:98-117 | a halt has reached every process after a delay, in every run, exactly when the delay is at least five seconds plus the longest look |
| KillSwitch.FiveSecondsAreEnoughExactlyWhen | skopaq/execution/kill_switch.py:29-30 | five seconds are enough exactly when a look takes no time |
| KillSwitch.SlowLookOutlivesTheCache | skopaq/execution/kill_switch.py:116 | for looks of every length, a run that serves "active" to the last millisecond |
| MonteCarlo.Simulate | skopaq/backtest/monte_carlo.py:96-122 | the running peak and drawdown loop over the equity array computes the path's figures |
| MonteCarlo.RunMonteCarlo | skopaq/backtest/monte_carlo.py:78-146 | the returns, drawdowns and counts over all shuffles, and the two cases without a report |
| MonteCarlo.SumOfPermutation | skopaq/backtest/monte_carlo.py:94 | a permutation has the same sum |
| MonteCarlo.LossIsAllOrNothing | skopaq/backtest/monte_carlo.py:102-122 | every shuffle ends at initial plus the trades' sum, so the loss count is all simulations or none |
| MonteCarlo.ReturnIsTheGain | skopaq/backtest/monte_carlo.py:96-122 | a path's return is the trades' sum in percent of the capital, and it loses exactly when that sum is negative |
| MonteCarlo.RuinedExactlyWhen | skopaq/backtest/monte_carlo.py:112-120 | a path is ruined exactly when its equity is somewhere below half of the capital |
| MonteCarlo.RuinsAreCounted | skopaq/backtest/monte_carlo.py:112-146 | the ruin count is the number of ruined simulations |
| MonteCarlo.WorstDrawdownIsDeepestFall | skopaq/backtest/monte_carlo.py:107-110 | the loop finds the deepest fall between two points in time order: reached by some pair, and exceeded by none that starts above zero and does not end below it |
| MonteCarlo.RuinAndLossShowInDrawdown | skopaq/backtest/monte_carlo.py:102-120 | a ruined path has a drawdown below -50%, and drawdown is at most the final return of a path ending at or above zero |
| WalkForward.WalkForwardTest | skopaq/backtest/walk_forward.py:104-163 | the loop ends for every positive step and returns the numbered periods of exactly the windows that fit |
| WalkForward.PeriodsAreTheFullWindows | skopaq/backtest/walk_forward.py:111-163 | the periods reported are exactly the windows with enough bars, numbered without the skipped ones, each with all bars of its two slices in order |
| WalkForward.OutOfSampleIsLater | skopaq/backtest/walk_forward.py:113-127 | every out-of-sample bar is later than every in-sample bar of its period |
| WalkForward.OutOfSampleWindowsAreDisjoint | skopaq/backtest/walk_forward.py:111-163 | from day 28 or earlier, out-of-sample windows are pairwise disjoint for a step at least their length, and join when equal |
| WalkForward.SafeDaysAreTheFirst28 | skopaq/backtest/walk_forward.py:113-116 | neighbouring windows are disjoint for every month and length exactly when the day of the month is at most 28 |
| WalkForward.DefaultsCanTestABarTwice | skopaq/backtest/walk_forward.py:76-78 | with the default lengths, data starting on 31 December tests 29 August in two windows |
| Lists.Unique | skopaq/execution/daemon.py:1167 | the same items without repeats, in the order of their first occurrences |
| Sweep.IterGrid | tradingagents/backtest.py:34-51 | the grid's dates and its two errors |
| Sweep.GridIsExact | tradingagents/backtest.py:46-51 | a step date is in the grid exactly when it is not past the end or today |
| Sweep.CellsHave | tradingagents/backtest.py:159-160 | the cells are every ticker on every date |
| Sweep.CellsAreInOrder | tradingagents/backtest.py:159-160 | ticker by ticker and for each of them date by date |
| Sweep.TodoIsInOrder | tradingagents/backtest.py:162-171 | what is left to do keeps the order of the cells |
| Sweep.MemoryLog.RunBacktest | tradingagents/backtest.py:154-181 | the log and the report after one run |
| Sweep.NoCellIsLoggedTwice | tradingagents/backtest.py:156-171 | over any sequence of runs, whatever fails, no cell is logged twice |
| Sweep.RunAccountsForItsCells | tradingagents/backtest.py:158-171 | skipped, run and failed cells add up to the distinct cells; a run is failure-free exactly when it leaves all of them logged, and repeating it then does nothing |

## Left out

- Floating-point error: prices, returns and times are exact numbers.
- Row keys and value parsing (`_first`, `_text`, `to_decimal`, timestamps), `classify_rejection` and the once-only warnings: single lookups.
- The other terms of the sellable quantity (fills not shown yet, uncertain and unlisted SELLs of ours): each only lowers it, so leaving them out makes the safety claim harder, not easier.
- SellProtocol.NeverShort: assumes the per-symbol SELL lock, truthful rows with ids and known quantities, positions that do not lag behind fills, and no SELL placed by someone else.
- SellProtocol.BookHoldsBack: a row is matched by its symbol; security ids, ISINs and products are left out.
- BrokerClient.GetPositions: rows stay raw objects; their field parsing is left out. Market data, historical candles and `get_trades` are left out.
- BacktestEngine.RunBacktest: bars are already aligned with signals; `pnl_pct`, the metrics, tearsheets and the unused `max_positions` are left out.
- PaperEngine.Engine.ExecuteOrder: order ids, timestamps, exchange and product labels and each position's own P&L and traded values are left out.
- LateFills.TradeBook.RecordLateFill: alerts, order locks, claims and the journal are left out; a failed write changes nothing, and a SELL's matching to BUY rows is its own booking.
- LateFills.RowsHoldTheFill: assumes that a row of the order carries the order's own single id; for rows that join several ids LateFills.BookingAccountsExactlyWhen says what a booking does.
- LateFills.ExitsKeepSums: a partial exit whose split could not be saved (kept as pending on the open row) is left out.
- RateLimiter.TokenBucket.Acquire: the lock that makes acquires take turns is taken as given; the sliding window's `acquire` is modelled one loop turn at a time.
- DaemonSession.TradingDaemon.RunSession: the work of the final steps (settling, draining, notifying) is taken to complete; the TRADING phase is never entered by the code.
- DaemonClosing.CloseLive: what sells, resumes and alerts in a pass is the pass's outcome; the position monitor and the live order worker are not part of this model.
- KillSwitch.Process.Status: loading the environment and the file check are one moment, reading the flag row is another; the descriptions of a halt are left out.
- MonteCarlo.Simulate: a non-positive initial capital, for which the drawdown's divisor can be zero, is not modelled.
- MonteCarlo.RunMonteCarlo: percentiles, Sharpe ratios and the random generator are left out; a non-positive initial capital is not modelled.
- WalkForward.WalkForwardTest: what the backtests of the two slices return, and their averages, are left out.
- Sweep.MemoryLog.RunBacktest: settling pending cells and scoring are left out; each successful analysis logs exactly one entry.
- HTTP, WebSocket, Supabase, Telegram, Redis, LLM agents, scanners, the command line and the frontend: only their possible outcomes appear.
