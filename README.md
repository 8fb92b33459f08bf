# Fading-breakout backtest: a Dafny model

This project models the core of `mean_reversion_fx.py`, a backtest of a
mean-reversion ("fade the breakout") strategy on FX price series:

* **Channel** — the rolling 50-bar maximum and minimum of the `CLOSE`
  column (`RollingHigh`, `RollingLow`, over `Extrema.Max`/`Extrema.Min`).
* **Strategy** — the bar-by-bar scan of `backtest_reversion_strategy`. The
  scan starts at bar 51 and carries a position: 0 (flat), 1 (long) or -1
  (short). At each bar it compares the close with the channel stored at the
  previous bar, so the tested bar is never part of its own channel. From
  flat, a close above the high goes short and a close below the low goes
  long. When long, only a close above the high acts, and it flips the
  position to short. When short, only a close below the low acts, and it
  flips to long. The specification function `TransitionAt` states this, one `Step`
  per bar. The method `Backtest` is the scan itself: it writes the
  `signal` and `position` columns into arrays, and it is proved equal to
  `SignalAt`/`PositionAt`, column by column. The trade count is the number of non-zero
  signals (`TradeCount`).
* **Returns** — the strategy-return column: the previous bar's position
  times the price return (`StrategyReturns`). Price returns are an input
  column. A cell that pandas would hold as NaN is `NaN` in the `Cell` type.
* **Drawdown** — `(cummax(c) - c).max()` over an abstract cumulative-return
  curve `c` of exact reals (`RunningMax`, `MaxDrawdown`).
* **Timeframes** — the label sliced out of a file name such as
  `EURUSD_M15.csv`. This follows Python's `str.find` and slice semantics,
  including the negative stop that a missing `.` produces. Also the
  bars-per-year table `get_annual_multiplier`, which raises on an unknown
  label (`Err(UnsupportedTimeframe(..))`).

Prices are `real`: the scan only compares them. The per-day periods of W1
(1/7) and MN (1/30) are exact rationals here, where the source uses
floating point.

Three behaviours a reader might expect are not in the code, and the model
follows the code:
- One might expect an error for a series of fewer than 51 bars. The scan
  raises nothing: the loop does not run, and both columns stay all zero.
- One might expect the window to be a parameter. The code fixes it at 50 and
  starts the scan at 51 (`Window`, `FirstTestedBar`).
- One might expect a dedicated configuration error for an unknown label. The
  code raises a plain `ValueError`.

## Model

| member | source | states |
|---|---|---|
| `Timeframes.SliceBound` | mean_reversion_fx.py:20 | Python's slice-bound normalisation (negative counts from the end, then clipped); no contract of its own, its effect is stated by `TimeframeOfStandardName` and `TimeframeOfNameWithoutDot` |
| `Timeframes.Slice` | mean_reversion_fx.py:20 | Python's `s[start:stop]`; no contract of its own, stated through `TimeframeOfStandardName` and `TimeframeOfNameWithoutDot` |
| `Timeframes.TimeframeOf` | mean_reversion_fx.py:20 | the slice expression of line 20; no contract of its own, its properties are `TimeframeOfStandardName`, `TimeframeOfNameWithoutDot` and the two file examples |
| `Timeframes.Find` | mean_reversion_fx.py:20 | `str.find`: -1 exactly when the character is absent; otherwise an index that holds it, with no earlier occurrence |
| `Timeframes.TimeframeOfStandardName` | mean_reversion_fx.py:20 | for any `PAIR_TF.csv` where PAIR has no `_` or `.` and TF has no `.`, the slice yields exactly TF |
| `Timeframes.TimeframeOfH4File` | mean_reversion_fx.py:12-20 | `AUDNZD_H4.csv` yields `H4` |
| `Timeframes.TimeframeOfM15File` | mean_reversion_fx.py:13-20 | `EURUSD_M15.csv` yields `M15` |
| `Timeframes.TimeframeOfNameWithoutDot` | mean_reversion_fx.py:20 | with no `.` in the name, `find` gives -1, which Python reads as one before the end, so the label loses its last character |
| `Timeframes.AnnualMultiplier` | mean_reversion_fx.py:23-39 | succeeds exactly for the nine labels M1, M5, M15, M30, H1, H4, D1, W1, MN; any other label is an `UnsupportedTimeframe` error carrying that label; a success is positive |
| `Timeframes.AnnualMultiplierIsBarsPerYear` | mean_reversion_fx.py:24-39 | for every supported label the multiplier is 252 × 1440 / (bar length in minutes), with the bar length read off the label independently of the table (unit letter × count; MN a 30-day month) |
| `Timeframes.AnnualMultiplierExamples` | mean_reversion_fx.py:27-39 | H1 gives 6048, H4 gives 1512, M15 gives 24192, and M2 is rejected |
| `Timeframes.AnnualMultiplierDecreasing` | mean_reversion_fx.py:24-39 | the multiplier strictly decreases along M1, M5, …, W1, MN |
| `Extrema.MaxIsGreatest` | mean_reversion_fx.py:47 | the maximum is an element of the window and no element exceeds it |
| `Extrema.MinIsLeast` | mean_reversion_fx.py:48 | the minimum is an element of the window and no element is below it |
| `Extrema.Max` | mean_reversion_fx.py:47 | the maximum that `rolling(...).max()` takes over a window; no contract of its own, stated by `MaxIsGreatest` |
| `Extrema.Min` | mean_reversion_fx.py:48 | the minimum that `rolling(...).min()` takes over a window; no contract of its own, stated by `MinIsLeast` |
| `Channel.RollingHighIsWindowMax` | mean_reversion_fx.py:47 | the rolling high at bar k is the largest close of bars k-49..k and is attained by one of them |
| `Channel.RollingLowIsWindowMin` | mean_reversion_fx.py:48 | the rolling low at bar k is the smallest close of bars k-49..k and is attained by one of them |
| `Channel.ChannelOrdered` | mean_reversion_fx.py:47-48 | low ≤ high at every bar where the channel exists |
| `Channel.BreakAboveIsNewHigh` | mean_reversion_fx.py:59-64 | a close exceeds the channel stored at the previous bar exactly when it is strictly above each of the 50 preceding closes (the tested bar is not in its own channel) |
| `Channel.BreakBelowIsNewLow` | mean_reversion_fx.py:59-67 | a close is under the previous bar's low exactly when it is strictly below each of the 50 preceding closes |
| `Channel.RollingHigh` | mean_reversion_fx.py:47 | the `50_day_high` column at bar k ≥ 49; no contract of its own, stated by `RollingHighIsWindowMax`, `ChannelOrdered` and `BreakAboveIsNewHigh` |
| `Channel.RollingLow` | mean_reversion_fx.py:48 | the `50_day_low` column at bar k ≥ 49; no contract of its own, stated by `RollingLowIsWindowMin`, `ChannelOrdered` and `BreakBelowIsNewLow` |
| `Strategy.Backtest` | mean_reversion_fx.py:51-89 | the scan's signal and position arrays equal `SignalAt`/`PositionAt` at every bar (zero below bar 51, also for series too short to scan); the trade count is the number of non-zero signals and equals the number of position changes |
| `Strategy.TradeCount` | mean_reversion_fx.py:89 | at most the number of bars, and zero exactly when every signal is zero |
| `Strategy.WarmUp` | mean_reversion_fx.py:51-58 | bars 0..50 keep signal 0 and position 0; bar 50 is not tested although its channel exists |
| `Strategy.FromFlat` | mean_reversion_fx.py:63-69 | from flat: signal -1 iff close > previous high, signal +1 iff close < previous low, signal 0 iff low ≤ close ≤ high; the new position equals the signal |
| `Strategy.FromLong` | mean_reversion_fx.py:71-74 | from long: never a +1 signal; -1 exactly on a close above the previous high, which flips to short; otherwise stays long |
| `Strategy.FromShort` | mean_reversion_fx.py:76-79 | from short: never a -1 signal; +1 exactly on a close below the previous low, which flips to long; otherwise stays short |
| `Strategy.TouchingBoundDoesNothing` | mean_reversion_fx.py:63-79 | comparisons are strict: a close equal to either bound gives no signal and keeps the position, in every state |
| `Strategy.StepInRange` | mean_reversion_fx.py:63-79 | a step from a position in {-1, 0, 1} stays in that range and signals -1, 0 or 1 |
| `Strategy.PositionInRange` | mean_reversion_fx.py:55-81 | every position and every signal of the scan is -1, 0 or 1 |
| `Strategy.SignalMarksChange` | mean_reversion_fx.py:63-81 | from bar 1 on, a signal is non-zero exactly when the position differs from the previous bar's, and a non-zero signal equals the new position |
| `Strategy.NeverFlatAgain` | mean_reversion_fx.py:63-81 | once the position is non-zero it never returns to 0 |
| `Strategy.QuietBarsKeepPosition` | mean_reversion_fx.py:63-81 | across bars with no signal the position does not change |
| `Strategy.SignalsAlternate` | mean_reversion_fx.py:63-81 | two consecutive non-zero signals have opposite signs |
| `Strategy.TradeCountIsPositionChanges` | mean_reversion_fx.py:63-89 | the number of non-zero signals equals the number of bars whose position differs from the previous bar's |
| `Strategy.ConstantSeriesNeverTrades` | mean_reversion_fx.py:47-81 | a constant close series never signals and stays flat |
| `Strategy.Step` | mean_reversion_fx.py:63-79 | one bar of the state machine; no contract of its own, stated by `FromFlat`, `FromLong`, `FromShort`, `TouchingBoundDoesNothing` and `StepInRange` |
| `Strategy.TransitionAt` | mean_reversion_fx.py:55-81 | the signal and position the scan leaves at bar i; no contract of its own, stated by `WarmUp`, `PositionInRange`, `SignalMarksChange`, `NeverFlatAgain` and `SignalsAlternate`, and `Backtest` is proved equal to it |
| `Strategy.SignalAt` | mean_reversion_fx.py:63-79 | the `signal` column at bar i; no contract of its own, see `TransitionAt` |
| `Strategy.PositionAt` | mean_reversion_fx.py:81 | the `position` column at bar i; no contract of its own, see `TransitionAt` |
| `Strategy.PositionChanges` | mean_reversion_fx.py:81-89 | the number of bars whose position differs from the previous bar's; no contract of its own, related to the trade count by `TradeCountIsPositionChanges` |
| `Returns.StrategyReturns` | mean_reversion_fx.py:85 | the column has one cell per bar; bar 0 is NaN; from bar 1 on a cell is a number exactly when the price return is |
| `Returns.ReturnDependsOnPreviousPosition` | mean_reversion_fx.py:85 | two position columns that agree at bar i-1 give the same return at bar i: the return is lagged by one bar |
| `Returns.ReturnIgnoresSameBarPosition` | mean_reversion_fx.py:85 | changing the position at bar i leaves the return at bar i unchanged (one-bar lag, no same-bar information) |
| `Returns.ReturnFollowsPosition` | mean_reversion_fx.py:85 | held long the bar earns the price return, short its negation, flat zero |
| `Returns.WarmUpEarnsNothing` | mean_reversion_fx.py:51-85 | over the scan's position column, bars 1..51 earn exactly 0 wherever a price return exists |
| `Drawdown.Drawdowns` | mean_reversion_fx.py:96 | the column `cummax(c) - c`; no contract of its own, its maximum is characterised by `MaxDrawdownIsLargestFall` |
| `Drawdown.RunningMax` | mean_reversion_fx.py:96 | `cummax`: entry i bounds every earlier point and is attained by one of them |
| `Drawdown.MaxDrawdown` | mean_reversion_fx.py:96 | a number exactly when the curve is non-empty (NaN otherwise) |
| `Drawdown.MaxDrawdownIsLargestFall` | mean_reversion_fx.py:96 | the maximum drawdown is the largest fall c[j] - c[i] over j ≤ i: it bounds every such fall and equals one |
| `Drawdown.MaxDrawdownNonNegative` | mean_reversion_fx.py:96 | the maximum drawdown is ≥ 0 |
| `Drawdown.MaxDrawdownZeroIffNonDecreasing` | mean_reversion_fx.py:96 | the maximum drawdown is 0 exactly when the curve is non-decreasing |

## Left out

- Reading the tab-separated files and stripping `<`/`>` from the column headers (`create_df`, mean_reversion_fx.py:4-10): file I/O.
- The driver loops over the file list and the printing (mean_reversion_fx.py:17-21, apart from the slice, and 110-118), and the sample output kept in the closing docstring: orchestration and console output.
- Annualised return (`calculate_annual_return`, mean_reversion_fx.py:41-43, 91): real exponentiation has no counterpart in Dafny.
- Sharpe ratio (mean_reversion_fx.py:92-95): floating-point mean, standard deviation and square root.
- Price returns (`pct_change`, mean_reversion_fx.py:84): division in floating point. The model takes the price-return column as an input (`priceReturns`).
- Cumulative returns and total return (`cumprod`, mean_reversion_fx.py:86, 90): the curve handed to `MaxDrawdown` is any sequence of reals. The NaN in its first cell, which `cummax` and `max` skip, is dropped before the call.
- Formatting of the results as percentage strings (mean_reversion_fx.py:98-105) and the unused plotting import (line 2).
- NaN closes and floating-point rounding: prices are exact reals. The W1 and MN multipliers are the exact values 36 and 8.4, not their float approximations.
- The rolling columns are NaN below bar 49; `RollingHigh`/`RollingLow` are not defined there. The scan never reads those cells, because it reads bar i-1 ≥ 50.
- Backtest: takes no timeframe and computes no metrics, so it does not raise. The source function raises `IndexError` on an empty series at mean_reversion_fx.py:90 (`iloc[-1]` of an empty column), and `ValueError` for an unsupported label at line 91, through `calculate_annual_return`, whose call to `get_annual_multiplier` is at line 42; line 94 is then never reached. Both raises come from the metric lines left out above; the label error itself is modelled by `AnnualMultiplier`.
- Backtest: the columns are fresh arrays returned by the method, not new columns added to the caller's DataFrame; the method does not model that the DataFrame passed in is mutated.
