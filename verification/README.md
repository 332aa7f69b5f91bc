# pyqnt core, modelled in Dafny

pyqnt builds long-only portfolios from Tehran Stock Exchange (TSETMC) price
histories. This project models the three pieces of pure logic at its core:

- **Price continuity back-adjustment** (`history` in `src/pyqnt/data.py`).
  For each downloaded ticker it keeps only the close column, renamed after the
  ticker. It computes `ratio[t] = yesterday[t+1] / adjClose[t]`, with a missing
  value filled with 1.0. The multiplier of bar t is the reverse cumulative
  product of the ratios from t to the newest bar. The close is scaled by that
  multiplier and the helper columns are dropped. The per-ticker blocks are then
  concatenated row-wise.
- **Portfolio pre- and post-processing around the solver** (`portfolio` and
  `annual_rets` in `src/pyqnt/quant.py`). This covers the annualised return, the
  equal-weight starting point, the `[0, 1]` bounds, the sum-to-one constraint,
  and the choice of objective by method name. It also covers the rounding to
  two decimals, the filter on positive weights, and the budget amounts.
- **Symbols-document validation** in the `optimize` command
  (`src/cli/main.py`). Four checks run in a fixed order and the first failure
  wins. An accepted document goes into the request payload unchanged.

Modules (one file each):

| file | module | models |
|---|---|---|
| results.dfy | `Results` | `Option` (a missing cell) and `Result` (a raised error) |
| values.dfy | `Values` | loaded YAML/JSON values, Python truthiness, the keys `tsetmc` and `crypto` |
| cli.dfy | `Cli` | the structure checks and payload of `optimize` |
| continuity.dfy | `Continuity` | ratio column, reverse cumulative product, adjusted close |
| history.dfy | `History` | per-ticker block, row-wise concatenation, the `history` function |
| quant.dfy | `Quant` | `annual_rets`, starting point, bounds, objective choice, solver problem |
| allocation.dfy | `Allocation` | rounding to hundredths, filter, amounts, the result table |
| pipeline.dfy | `Pipeline` | how the client's document and method name reach `history` and `portfolio` |

Representation choices:

- Prices are `real`, so all arithmetic is exact.
- A missing pandas cell is `Option.None`.
- Rounded weights are whole hundredths (`int`), so the filter and the amounts are exact.
- `np.round(x, 2)` is modelled as round-half-to-even of `100·x`.
- The stacked data frame is a list of `Row(date, column, price)`. Each row has a
  value in its own ticker's column and NaN in every other column.
- The downloader's answer, the return statistics, the volatility and the SLSQP
  solver are parameters of the model.

Behaviour of the code that the model keeps as it is:

- Tickers are stacked row-wise by `pd.concat` (src/pyqnt/data.py:66), not
  joined on the date, so blocks sit one below another and dates can repeat.
- Only the close is selected and adjusted (src/pyqnt/data.py:59); open, high,
  low and volume never reach the frame.
- No check rejects malformed or non-monotonic series.
- `result.success` is never read, so whatever the solver returns is reported.

## Model

| member | source | states |
|---|---|---|
| Values.Truthy | src/cli/main.py:28 | the falsy values are exactly null, false, zero and the empty string, list and mapping; a mapping is truthy iff it has a key (the same test guards src/pyqnt/data.py:55) |
| Cli.Validate | src/cli/main.py:28-43 | accepts exactly the non-empty mappings that name 'tsetmc' or 'crypto' and map every named one to a list, and returns the document unchanged; each of the four errors is returned iff its own condition holds and every earlier check passed |
| Cli.BuildRequest | src/cli/main.py:50-55 | a payload exists iff the document is acceptable; it carries the document unchanged, the chosen method's own name ('gmv' or 'msr'), and the given rate and budget; otherwise the validator's error is reported |
| Cli.TsetmcCheckedFirst | src/cli/main.py:38-43 | when both 'tsetmc' and 'crypto' are present but not lists, the 'tsetmc' error is the one reported |
| Cli.ExtraKeysNotInspected | src/cli/main.py:33-43 | adding or changing a key other than 'tsetmc'/'crypto' in a non-empty mapping never changes acceptance or the error reported |
| Cli.ListContentsNotInspected | src/cli/main.py:38-43 | replacing the items of a known key's list never changes acceptance |
| Continuity.Ratio | src/pyqnt/data.py:62 | the newest bar's ratio is 1.0; a missing next previous-close or adjusted close gives 1.0, and so does a zero adjusted close (0/0 is NaN, filled with 1.0); otherwise ratio times adjusted close equals the next bar's previous close |
| Continuity.CumProdFromAt | src/pyqnt/data.py:63 | entry i of a cumulative product is the product of the first i+1 factors |
| Continuity.ReverseCumProdAt | src/pyqnt/data.py:63 | entry t of reverse, cumulative product, reverse is the product of entry t and every later entry |
| Continuity.Multipliers | src/pyqnt/data.py:63 | one multiplier per bar; multiplier t is the product of the ratios of bar t and every newer bar |
| Continuity.MultiplierRecurrence | src/pyqnt/data.py:63 | each multiplier is its bar's ratio times the next newer bar's multiplier |
| Continuity.MultiplierChain | src/pyqnt/data.py:63 | multiplier i is the product of ratios i..j-1 times multiplier j |
| Continuity.Adjust | src/pyqnt/data.py:61-64 | the adjusted series has the input's length and the input's dates in the input's order |
| Continuity.AdjustedClose | src/pyqnt/data.py:64 | adjusted close t is the raw close t times the product of the ratios from t to the newest bar |
| Continuity.NewestBarAnchors | src/pyqnt/data.py:62-64 | the newest bar's multiplier is 1 and its close is unchanged |
| Continuity.MissingYesterdayAddsNothing | src/pyqnt/data.py:62 | a missing previous close on bar t+1 gives bar t ratio 1, so its multiplier equals bar t+1's |
| Continuity.UnadjustedSeriesIsFixed | src/pyqnt/data.py:62-64 | if every previous close equals the prior bar's adjusted close, all multipliers are 1 and the adjusted series equals the raw dates and closes |
| Continuity.AdjustedStepMatchesReportedMove | src/pyqnt/data.py:62-64 | when bar t's adjusted close is its close, the adjusted series moves from t to t+1 exactly as close[t+1] moves against bar t+1's recorded previous close |
| History.AdjustTicker | src/pyqnt/data.py:59-65 | a ticker's block has a single value column named after the ticker, one point per bar, and the bars' dates |
| History.History | src/pyqnt/data.py:53-66 | fails with the missing-key error iff 'tsetmc' is absent; a falsy 'tsetmc' value gives an empty frame |
| History.Concat | src/pyqnt/data.py:66 | the frame's rows stay in front unchanged and the block's rows follow in order under the block's column; the columns are unchanged when the block's column is already there, and otherwise gain it at the end |
| History.Stack | src/pyqnt/data.py:53-66 | starting from an empty frame and concatenating block after block keeps every row: the frame has as many rows as all blocks together |
| History.StackRowAt | src/pyqnt/data.py:66 | block k's points appear unchanged and in order right after the rows of blocks 0..k-1, under block k's column |
| History.StackColumns | src/pyqnt/data.py:60-66 | the frame's columns are exactly the blocks' column names, each once |
| History.HistoryRowCount | src/pyqnt/data.py:55-66 | with a truthy 'tsetmc' value, the frame has one row per downloaded bar |
| History.HistoryRowAt | src/pyqnt/data.py:57-66 | bar t of downloaded ticker i is the row at offset (bars of earlier tickers) + t, with its date, the ticker's column and its adjusted close |
| History.HistoryColumns | src/pyqnt/data.py:57-66 | the frame's columns are exactly the downloaded tickers, each once |
| Quant.AnnualRetsBetween | src/pyqnt/quant.py:6-10 | a long-only weight vector summing to one earns between 252 times the lowest and 252 times the highest mean return |
| Quant.AnnualRetsLinear | src/pyqnt/quant.py:6-10 | the annual return 252·Σ wᵢμᵢ is linear in the weights |
| Quant.InitialGuess | src/pyqnt/quant.py:46-50 | no assets is a ZeroDivisionError; otherwise n entries each equal to 1/n, within the [0,1] bounds and summing to 1 |
| Quant.InitialGuessReturn | src/pyqnt/quant.py:10 | the starting point's annual return is 252 times the average mean return |
| Quant.LongOnlyFeasible | src/pyqnt/quant.py:48-50 | the bounds (0, 1) together with the sum-to-one constraint admit every non-negative weight vector summing to one |
| Quant.ObjectiveValue | src/pyqnt/quant.py:52-55 | for 'msr' the value times the volatility is the risk-free rate minus the annual return, so it is negative iff the return beats the rate (positive volatility); otherwise the value is the volatility, which `minimize(annual_vols, …)` at line 73 uses |
| Quant.NegativeSharpeRanksByReturn | src/pyqnt/quant.py:52-55 | at equal positive volatility, a lower negative-Sharpe value means a higher annual return, and conversely |
| Quant.SelectObjective | src/pyqnt/quant.py:44-65 | the Sharpe objective is chosen iff the method is exactly 'msr', with the given means and rate; every other string selects minimum volatility |
| Quant.Setup | src/pyqnt/quant.py:41-71 | fails iff there are no assets; otherwise the starting point is the equal-weight vector (each entry times the asset count is 1) and is feasible, the bounds are (0, 1) each, and the objective is Sharpe iff the method is 'msr', built on the given mean returns and risk-free rate |
| Allocation.RoundHundredths | src/pyqnt/quant.py:80 | the result is within half a hundredth of the weight, and even on an exact tie |
| Allocation.RoundingIsUnique | src/pyqnt/quant.py:80 | any integer meeting that description is the rounded value |
| Allocation.RoundingIsMonotone | src/pyqnt/quant.py:80 | rounding never reverses the order of two weights |
| Allocation.RoundingKeepsUnitInterval | src/pyqnt/quant.py:80 | a weight in [0, 1] rounds to between 0 and 100 hundredths |
| Allocation.TabulateAppend | src/pyqnt/quant.py:82-83 | tabulating two ticker lists in turn gives the two tables in turn, so rows follow column order |
| Allocation.TabulatedWeightsInUnitInterval | src/pyqnt/quant.py:80-83 | a solver answer within the bounds is tabulated with weights between 0 and 100 hundredths |
| Allocation.KeepPositive | src/pyqnt/quant.py:84 | every kept row is an input row with weight at least one hundredth, and every positive input row is kept |
| Allocation.KeepPositiveAppend | src/pyqnt/quant.py:84 | filtering distributes over concatenation, so kept rows keep their relative order |
| Allocation.KeepPositiveIdempotent | src/pyqnt/quant.py:84 | filtering twice is filtering once |
| Allocation.KeepPositiveTotal | src/pyqnt/quant.py:84 | dropping non-positive rows never lowers the total weight |
| Allocation.AttachAmounts | src/pyqnt/quant.py:86-87 | tickers and weights are unchanged; a zero budget leaves the table as it is; any other budget gives each row weight/100 times the budget |
| Allocation.AmountsFollowWeights | src/pyqnt/quant.py:86-87 | the amounts add up to the budget times the rows' total weight, with no renormalisation |
| Allocation.Report | src/pyqnt/quant.py:80-87 | there are at most as many rows as tickers; every row has weight at least 1 and the budget's amount and comes from some ticker i with its rounded weight; every ticker whose weight rounds above zero has its row |
| Allocation.ReportAppend | src/pyqnt/quant.py:80-87 | the report of concatenated inputs is the concatenation of the reports, so rows follow column order |
| Allocation.ThirdsReportBelowOne | src/pyqnt/quant.py:80-84 | three weights of one third are reported as 0.33 each, 0.99 in total |
| Allocation.FortyPercentOfThousand | src/pyqnt/quant.py:86-87 | weight 0.40 with budget 1000 is reported with amount exactly 400 |
| Allocation.SingleAssetGetsEverything | src/pyqnt/quant.py:80-87 | with one asset, every answer the solver may give within the bounds and the sum-to-one constraint is reported as a single row at weight 1.00 |
| Allocation.Portfolio | src/pyqnt/quant.py:37-88 | fails iff there are no assets; otherwise the result is the report of the solver's answer to the problem `Setup` builds: every row names one of the tickers, has weight at least 1 and carries the budget's amount, and every ticker whose answer rounds above zero has its row |
| Pipeline.CryptoOnlyDocumentFailsHistory | src/pyqnt/data.py:55 | a document the client accepts without a 'tsetmc' key has a 'crypto' list, and `history` fails on it with the missing-key error |
| Pipeline.ClientMethodSelectsObjective | src/pyqnt/quant.py:44 | of the client's two method names, 'msr' and only 'msr' selects the Sharpe objective |

## Left out

- The download (`tse.download`, src/pyqnt/data.py:56) is network I/O. The downloaded tickers and bars are a parameter (`fetched`) of `History.History`.
- The SLSQP solver (`scipy.optimize.minimize`) is a foreign numerical routine. It is a parameter `solve` of `Allocation.Portfolio`. The model assumes only that its answer has one entry per asset, as scipy guarantees. Whether it converged is never checked by the source, so it is not modelled either.
- Return statistics and volatility (`pct_change`, `mean`, `cov`, `annual_vols`) are floating-point statistics with a square root. The mean returns are an input. `Quant.ObjectiveValue` takes the volatility as a number.
- Quant.ObjectiveValue: requires a non-zero volatility for the Sharpe objective, because the source then divides by zero and gets an IEEE infinity or NaN.
- Continuity.Ratio: requires that no non-zero previous close is divided by a zero adjusted close, because pandas then yields an infinity that `fillna` leaves in place and a real cannot hold. A 0/0 ratio (NaN) is modelled and filled with 1.0.
- Floating-point rounding is not modelled: all arithmetic is exact on reals. In particular `np.round` works on binary doubles, so a weight that is not exactly representable may round differently from the exact rule. For example 0.545 times 100 is 54.50000000000001 in doubles, so `np.round` gives 0.55 where the exact rule gives 54 hundredths; for 0.575 the two give 57 and 58.
- Missing closes are not modelled: the close is always present. In the source a NaN close stays NaN after scaling.
- pandas index alignment is not modelled. The multiplier column is assigned by position, which matches the source when a ticker's dates are distinct.
- File reading, the HTTP POST and the printing of results (src/cli/main.py:23-25, 45-47, 57-71) are I/O. So is click's option parsing; the method is a two-valued `Cli.Method` as `click.Choice` ensures.
- YAML values are limited to null, booleans, numbers, strings, lists and mappings with string keys. Dates, NaN and non-string keys are not modelled.
- The web services (src/api/main.py, src/api/api.py), the older downloader (quant/data.py), packaging (setup.py) and the reflective `__all__` (src/pyqnt/__init__.py) are not part of this model. The `MarketDataFetcher` class imported by src/api/main.py is not part of this model either.
