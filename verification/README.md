# Moving-average crossover backtest, modelled in Dafny

`stock.py` is a Streamlit dashboard. It downloads a daily price history and runs a
moving-average crossover strategy over it. An optional RSI filter can veto entries, and
the dashboard shows the outcome against buy-and-hold. This project models the
dashboard's engine: the columns the script derives from the close prices (lines 71-87),
the RSI helper `calculate_rsi` (lines 36-41) and the figures shown above the charts
(lines 93-101 and 139).

The model uses the pandas semantics the script relies on, over exact reals:

- NaN is `None` of an `Option`.
- `rolling(w).mean()` is NaN in its first `w - 1` cells (`min_periods = w`).
- `diff`, `pct_change` and `shift(1)` are NaN in their first cell.
- `fillna(0)` comes before `cumprod`.
- `cummax` is a running maximum.
- `min` and `sum` are taken over the whole column.

Modules follow the script's stages:

- `Optional`: NaN-aware arithmetic and comparisons.
- `Series`: the pandas column operations.
- `Indicators`: RSI.
- `Signals`: crossover signal, RSI filter and trade column.
- `Returns`: market and strategy returns, compounded accounts, running peak and drawdown.
- `Backtest`: the whole engine `Run` and the `Report` figures.
- `Scenarios`: the engine's outcome on a flat and on a steadily rising price.

## Model

| member | source | states |
|---|---|---|
| Series.RollingMean | stock.py:71-72 | a trailing moving average is missing exactly on the first `w - 1` days and present on every later day |
| Series.RollingMeanOnePass | stock.py:71-72 | computing the moving average in one pass, with a running window sum that gains the new day and drops the oldest one, gives exactly the windowed mean of every trailing window |
| Series.RollingMeanOfConstant | stock.py:71-72 | the moving average of a price that never moves equals that price wherever it is defined |
| Series.RollingMeanNonNegative | stock.py:38-39 | averages of non-negative columns, such as the RSI's gains and losses, are never negative |
| Series.Diff | stock.py:37 | the first day has no difference; on every later day yesterday's price plus the day's difference is today's price |
| Series.PctChange | stock.py:81 | the first day has no market return and every later day has one |
| Series.PctChangeRestores | stock.py:81 | yesterday's price grown by the day's market return is today's price; only the first day has no return |
| Series.Lag | stock.py:82 | the shifted position is missing on the first day and on every later day holds the previous day's position as a number |
| Series.FillNa | stock.py:83-84 | a present value is kept and a missing one becomes the fill value |
| Series.CumProd | stock.py:83-84 | each cell of the running product, built by multiplying the previous cell by the next factor, is the product of all factors up to that day |
| Series.CumMax | stock.py:86 | each cell of the running maximum, built by comparing the previous cell with the next value, is the largest value of the prefix ending there |
| Series.CumMaxIsPrefixMax | stock.py:86 | each cell of the running maximum is at least every earlier value and equal to one of them |
| Series.Min | stock.py:95 | the column minimum is below or equal to every cell and is attained by some cell |
| Indicators.Gains | stock.py:37-38 | every gain is non-negative, and a gain is positive exactly on a day whose price rose from the day before |
| Indicators.Losses | stock.py:37-39 | every loss is non-negative, and a loss is positive exactly on a day whose price fell from the day before |
| Indicators.GainsAndLossesSplitMoves | stock.py:37-39 | each day's gain less its loss is the day's price move, and at most one of them is non-zero; the first day has neither |
| Indicators.RsiOf | stock.py:40-41 | `100 - 100 / (1 + rs)` lies in [0, 100), equals `100 * gain / (gain + loss + 1e-9)`, and is 0 exactly when there was no gain |
| Indicators.Rsi | stock.py:36-41 | the RSI is missing exactly on the first 13 days of a 14-day window, because the leading NaN difference counts as a zero move, and otherwise lies in [0, 100) |
| Indicators.RsiWithoutGainsIsZero | stock.py:36-41 | a window with no rising day has an RSI of exactly 0 |
| Signals.CrossoverSignal | stock.py:76 | the signal is 0/1 and is long exactly on the days both averages exist and the short one is strictly above the long one |
| Signals.FilteredSignal | stock.py:77 | with the filter on, a day is long exactly when the crossover is long and the RSI exists and is below the limit; with it off the crossover passes unchanged; the filter never creates a long |
| Signals.Move | stock.py:78 | the absolute change between two 0/1 positions is 1 exactly when they differ and 0 exactly when they agree |
| Signals.Trades | stock.py:78 | the trade column is aligned with the signal, is 0 on the first day and is never negative; that it marks exactly the position changes is stated by TradesMarkChanges |
| Signals.TradesMarkChanges | stock.py:78 | on a 0/1 signal the trade column is 0/1 and marks exactly the days whose position differs from the day before |
| Signals.TradeCountIsChangeCount | stock.py:78 | the sum of the trade column is the number of position changes, at most one less than the number of days |
| Signals.EntryIsOneTrade | stock.py:78 | entering on day `k` and holding gives a single trade, on day `k` |
| Signals.StepChangesOnce | stock.py:78 | a position that is flat, then long for good, changes exactly once |
| Returns.StrategyReturns | stock.py:82 | the first day has no strategy return; every later day has one exactly when the market return exists, and it is yesterday's position times the market return less today's trade times the cost |
| Returns.NoLookAhead | stock.py:82 | two signals that agree up to yesterday earn the same return today, once today's trade charge is added back |
| Returns.NoLookAheadWithoutCost | stock.py:82 | without cost, today's position has no effect on today's return |
| Returns.ZeroCostReturn | stock.py:82 | with zero cost the strategy return is yesterday's position times the market return |
| Returns.IdleStrategyEarnsNothing | stock.py:82 | a strategy that is never long and never trades has a zero return every day |
| Returns.ConstantPriceHasNoReturn | stock.py:81 | a price that never moves has no market return on any day |
| Returns.GrowthFactors | stock.py:83-84 | a day's growth factor is one plus its return, and a day without a return has a factor of 1 |
| Returns.Account | stock.py:83-84 | the account on day `i` is the capital times the product of all growth factors up to day `i`, a missing return counting as no change |
| Returns.AccountRecurrence | stock.py:83-84 | each day's account is the previous day's grown by that day's return, a missing return counting as zero |
| Returns.AccountOpens | stock.py:83-84 | an account whose first return is missing opens at exactly the capital |
| Returns.AccountFlat | stock.py:83-84 | an account with no non-zero return over its first days stays at the capital over those days |
| Returns.CostLowersAccount | stock.py:82-83 | a higher cost never raises the final strategy account, and lowers it strictly once the strategy trades at all, provided every growth factor under the higher cost stays positive |
| Returns.MarketAccountTracksPrice | stock.py:81-84 | the buy-and-hold account on day `i` is the capital scaled by the ratio of that day's price to the first day's |
| Returns.AccountFollowsPrice | stock.py:81-83 | over days on which the account earns the market's move, its ratio to the price stays fixed |
| Returns.EntryStrategy | stock.py:78-83 | a position entered on day `k` and held keeps the capital before `k`, loses the cost on day `k`, and afterwards moves in proportion to the price |
| Returns.Drawdown | stock.py:87 | the drawdown is never positive where the account is at or below its peak, and is zero exactly where the account is at its peak |
| Returns.PeakBounds | stock.py:86 | the running peak is at least the opening value and the current value |
| Returns.PeakNonDecreasing | stock.py:86 | the running peak never decreases |
| Returns.AtPeakIffRunningHigh | stock.py:86 | the account equals its running peak exactly on the days no earlier day was higher |
| Returns.PeakAndDrawdown | stock.py:86-87 | for a positive opening value the peak is positive, bounds the account and never falls, and the drawdown is never positive; it is zero exactly on days of a running high |
| Backtest.PositionStage | stock.py:71-78 | the signal columns are all 0/1 and aligned with the prices; the filtered signal is never long where the crossover is flat; the trade count is the number of position changes |
| Backtest.AccountStage | stock.py:81-87 | both accounts open at the capital, and the peak bounds the strategy account and the capital from above, so no drawdown is positive |
| Backtest.Run | stock.py:71-87 | the frame the engine builds has every column aligned with the prices; its signals are 0/1; its accounts open at the capital; its peak bounds the account; its drawdown is never positive; its trades mark position changes |
| Backtest.MarketColumnTracksPrice | stock.py:81-84 | the frame's buy-and-hold column is the capital scaled by the price ratio to the first day |
| Backtest.Report | stock.py:93-139 | an empty history has no report (the script skips an empty frame); otherwise the report describes the frame: the figures of the metric cards, and the status line of line 139, which says "holding" exactly when the last signal is long and shows the last RSI |
| Backtest.SummaryDescribesRun | stock.py:93-101 | the reported final value is the last strategy account, and the return is its percentage gain on the capital; the buy-and-hold return shown beside it is the percentage price change over the period; the drawdown figure is at most every day's drawdown, is attained on some day and is never positive; the trade count is the number of position changes |
| Backtest.Summarize | stock.py:93-101 | the figures read off a frame exist exactly for a non-empty frame, and the drawdown figure is a lower bound on every day's drawdown (in percent) that some day attains |
| Backtest.MarketReturnIsPriceChange | stock.py:84 | the last buy-and-hold value divided by the capital is the last price divided by the first |
| Scenarios.FlatPricesStayFlat | stock.py:71-101 | on a price that never moves there is no position and no trade; both accounts stay at the capital; there is no drawdown; the report shows the capital, 0% returns, 0% drawdown, no trades and a flat position |
| Scenarios.ConstantNeverCrosses | stock.py:76 | two moving averages of a constant price never cross |
| Scenarios.ShortAboveLong | stock.py:71-72 | on a strictly rising price the shorter trailing mean is strictly above the longer one |
| Scenarios.RisingSignal | stock.py:71-77 | with the filter off and short window < long window, a strictly rising price is flat before the long average exists and long from that day on |
| Scenarios.RisingTrades | stock.py:76-78 | on a strictly rising price the only trade is the entry on the first day of the long average, so the trade count is 1, or 0 if the history is too short |
| Scenarios.RisingAccount | stock.py:82-83 | on a strictly rising price the strategy account keeps the capital until the entry day, loses the cost on it, and then grows in proportion to the price |

## Left out

- The page layout and styling (lines 1-25) and every chart (lines 103-137) are not modelled. They are presentation only.
- `get_stock_data` (lines 28-34) downloads prices over the network and caches them. The model takes the close-price column as its input.
- The sidebar (lines 44-65) is not modelled. This covers ticker parsing, the strategy preset menu and the widget bounds. `Params` stands for its outputs: the two windows, `cost` as a fraction (the slider's percentage divided by 100), the filter switch and its limit, and the capital.
- The date index is not modelled. Positions in a sequence stand for dates.
- IEEE floating point is not modelled. The model uses exact reals, so rounding in `cumprod`, in the RSI's `1e-9` guard and in the percentages is absent.
- Number formatting in the metrics (`:,.0f`, `:.2f`, `int(...)`) is not modelled.
- The difference `roi - market ROI` printed on line 99 is not modelled as a separate figure. `Report` carries both returns.
- Backtest.Valid: requires a positive capital, although the input box on line 51 accepts any number. With a capital of 0 the drawdown on line 87 divides 0 by 0, which is NaN, and exact reals have no NaN. A negative capital runs without NaN, but then the account and its running peak are negative, and the drawdown on line 87 comes out non-negative. For example, a capital of -100 and one held day of +10% give an account of -110, a peak of -100 and a drawdown of +0.1. So the promises that no drawdown is positive and that the reported drawdown is at most 0 (in Run, AccountStage, PeakAndDrawdown and Report) hold only for a positive capital, and the model does not cover a negative one.
- Backtest.Valid: requires window lengths of at least 1, because no caller in the script passes a smaller one. The presets are 5/20 and 20/60, the custom inputs have minimums of 1 and 2 (lines 61-62), and the RSI uses 14.
- Backtest.Run: requires every close price to be positive, which the script does not check. A zero price makes `pct_change` divide by zero, which gives inf or NaN in pandas and has no counterpart in exact reals.
- Returns.NoLookAhead: states independence from today's position only up to today's trade charge. The script's strategy return on day `i` does depend on the signal of day `i`, through the trade column. Only the exposure is lagged.
- Indicators.Rsi: the engine always calls it with the default window of 14 (`RsiWindow`). The helper's `window` argument is modelled, but no other caller exists.
- Series.Min: an empty frame never reaches the summary, because the script checks `df.empty` on line 70. So `Min` requires a non-empty column, and `Report` returns nothing for an empty history.
- Returns.CostLowersAccount: assumes every daily growth factor under the higher cost is positive. With a zero or negative factor, the account is zero or changes sign, and a higher cost need not lower it.
- Error handling is not modelled. The script raises no errors of its own: an empty download is skipped, and everything else is left to pandas and Streamlit.
