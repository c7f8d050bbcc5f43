# Fund engine core, modelled in Dafny

This project models the calculation core of a small fund-management engine.
The engine keeps four SQLite tables:

- `Products`: a product id and its category.
- `Returns`: one return per product and date.
- `Portfolios`: an append-only log of weight snapshots, one per risk profile and creation date.
- `Deals`: the trade recorded per rebalancing date and per profile.

The model covers five parts of the engine:

- **Strategies** (`strategies.py`). There are three allocation rules:
  - `low_risk` searches for the weights whose annualised volatility is closest to `target_volatility`: it minimises the squared gap between the two. It uses products with a full year (252) of observations, and at least 60% of the weight must be in bonds.
  - `linear_strategy` turns a pre-trained regressor's predictions into sign-preserving weights. It invests only when the mean absolute prediction is above 0.0025.
  - `high_yield` maximises the mean return over the last `days` days of each equity.

  The data selection around each rule is modelled exactly. The SLSQP optimiser and the regressor are oracles passed in as function parameters.
- **Training** (`model.py`). From the Returns rows of a period, it builds sliding windows of `w` consecutive returns, labelled with the return that follows. Windows that contain NaN are skipped, and only finite rows are kept. It refuses (None in the source) when no window is found, or when no finite row is left.
- **Ledger** (`base_update.py`). `update_portfolio` appends a snapshot. `update_deals` computes the trade new − old against the latest snapshot of the profile, then updates or inserts that profile's cell in the Deals row of the date.
- **Metrics** (`metrics.py`). `PortfolioMetrics` replays each snapshot of a profile against the Returns table for its seven-day week:
  - weights whose sum is not close to 1 are renormalised;
  - each day's return is the sum of value × weight over that day's rows;
  - days with no row are dropped.

  The result is the daily series, sorted by date. From it come the mean, the compounded total return, the maximum drawdown and the plotted curves.
- **Common**: shared definitions.
  - Numeric cells are `Value = Num(real) | NaN | PosInf | NegInf`.
  - Weight frames are sequences of `Holding(product, weight)`.
  - Dates are day numbers.
  - There is a stable sort by date, the group-by over product ids (groups visited in increasing id order), and ASCII lower-casing and substring search.

Where the code and its documentation disagree, the model follows the code:

- `np.isclose(s, 1.0, atol=1e-5)` also applies numpy's default relative tolerance 1e-5. A weight sum is therefore kept as is when `|s − 1| ≤ 2e-5`.
- The maximum drawdown of an empty series is NaN, because pandas' `min` of an empty series is NaN.
- `update_deals` takes the profile's latest snapshot over the whole table, not only the snapshots created before the deal date.

## Model

| member | source | states |
|---|---|---|
| Common.SortBy | metrics.py:113 | the date sort returns a permutation of its input, ordered by the key |
| Common.GroupKeys | strategies.py:33 | groups are visited in strictly increasing product id order |
| Common.GroupKeysExact | strategies.py:33 | a product has a group exactly when some row of the table carries it |
| Common.RowsOfExact | strategies.py:33 | a product's group holds exactly the table's rows of that product |
| Common.Chronological | strategies.py:39 | a group sorted by date is a permutation of the group, in date order |
| Common.FindSub | strategies.py:73 | the substring scan answers true exactly when the pattern occurs at some position |
| Common.LowerIsLowerCase | strategies.py:73 | a lower-cased category holds no upper-case letter, and lower-casing it again changes nothing |
| Common.ZipWeights | strategies.py:93 | a frame built from ids and optimiser weights has exactly those weights, with the same sum |
| Metrics.EffectiveWeights | metrics.py:44-53 | weights are kept when their sum is close to 1, rescaled to sum 1 when the sum is positive, and the snapshot is skipped otherwise; product order is kept |
| Metrics.ScaleSum | metrics.py:50 | dividing every weight by s divides their sum by s |
| Metrics.DayTermsConcat | metrics.py:85-100 | a day's weighted terms over two row blocks are the terms of each block, concatenated |
| Metrics.DayDroppedIffNoRow | metrics.py:99-104 | a day is dropped exactly when no row of the window has a finite value for a held product on that day |
| Metrics.DuplicateRowCountsTwice | metrics.py:96-100 | the inner merge keeps duplicate rows, so a duplicated row counts twice in the day's return |
| Metrics.SnapshotSeriesWithinWeek | metrics.py:37-38 | a snapshot contributes at most seven days, all within [creation, creation + 6], in strictly increasing order |
| Metrics.ReplayConcat | metrics.py:105-107 | the replay concatenates each snapshot's days; overlapping weeks are not deduplicated |
| Metrics.UnusableSnapshotsYieldNothing | metrics.py:49-53 | snapshots whose weights sum to at most 0 contribute nothing |
| Metrics.WindowRowsKeepDays | metrics.py:61-74 | restricting the table to the window's rows does not change any day of the week |
| Metrics.WindowSeriesAgrees | metrics.py:61-107 | the week computed from the queried rows equals the week computed from the whole table |
| Metrics.NoRowsNoSeries | metrics.py:76-77 | a window without any queried row contributes no day |
| Metrics.QueryWindow | metrics.py:61-74 | the query returns the held products' rows dated within the window whose values are finite |
| Metrics.SumDay | metrics.py:85-101 | a day is found exactly when some row merges with a weight, and its total is the sum of value × weight |
| Metrics.AddDay | metrics.py:99-101 | filling one more calendar day extends the week's series by that day when it is found |
| Metrics.SnapshotReturns | metrics.py:82-107 | the loop over calendar days computes exactly the snapshot's week |
| Metrics.RowReturns | metrics.py:36-107 | one Portfolios row yields its week: nothing when `produits` is NULL or its weights cannot be normalised |
| Metrics.PortfolioMetrics.constructor | metrics.py:16-19 | the stored series is sorted by date and is a permutation of the replay of the profile's snapshots |
| Metrics.PortfolioMetrics.LoadReturns | metrics.py:21-117 | the stored series is sorted by date and is a permutation of the concatenated per-snapshot weeks |
| Metrics.PortfolioMetrics.Mean | metrics.py:123-124 | the metric object's mean is undefined exactly when its series is empty, and otherwise mean × count equals the sum of the returns |
| Metrics.PortfolioMetrics.Total | metrics.py:126-127 | the metric object's total return is 0 on an empty series |
| Metrics.PortfolioMetrics.Drawdown | metrics.py:137-141 | the metric object's maximum drawdown is NaN on an empty series |
| Metrics.MeanReturn | metrics.py:123-124 | the mean is undefined on an empty series; otherwise mean × count equals the sum |
| Metrics.MeanWithinBounds | metrics.py:123-124 | the mean lies between any lower and upper bound of the returns |
| Metrics.TotalReturnCompounds | metrics.py:126-127 | the total returns of two consecutive periods compound: 1 + T(a+b) = (1 + T(a))(1 + T(b)) |
| Metrics.TotalReturnAboveMinusOne | metrics.py:126-127 | with every return above −100%, the total return is above −100% |
| Metrics.RunningMax | metrics.py:139 | each running maximum bounds every earlier value, starting at the first value |
| Metrics.RunningMaxAttained | metrics.py:139 | each running maximum is one of the values seen so far |
| Metrics.RelativeGapsBounds | metrics.py:138-140 | where each cumulative value is positive and at most its running maximum, every drawdown term is a finite loss in (−1, 0] |
| Metrics.MinOfFinite | metrics.py:141 | the minimum of finite cells is finite, bounds every cell and is one of them |
| Metrics.MaxDrawdown | metrics.py:137-141 | the maximum drawdown of an empty series is NaN |
| Metrics.MaxDrawdownNonPositive | metrics.py:137-141 | with every return above −100%, the maximum drawdown is finite and within (−1, 0] |
| Metrics.MaxDrawdownZeroWithoutLosses | metrics.py:137-141 | a series without negative returns has maximum drawdown 0 |
| Metrics.FilterRangeExact | metrics.py:145-149 | the date filter keeps exactly the rows within the optional bounds |
| Metrics.PlotRowsWithinBounds | metrics.py:145-151 | a plot shows exactly the series' days within the bounds, sorted by date |
| Metrics.CurveEndsAtTotalReturn | metrics.py:157 | the cumulative-return curve ends at the total return |
| Metrics.DrawdownCurveAgrees | metrics.py:164-168 | with every return above −100%, the plotted drawdown c / m − 1 equals the drawdown (c − m) / m of the metric |
| Ledger.NewSideLookup | base_update.py:72 | for a product of the new frame, the trade is new − old, the old weight counting 0 when missing |
| Ledger.OldOnlyLookup | base_update.py:72 | a product only the old frame holds is traded at minus its old weight |
| Ledger.DiffLookup | base_update.py:72 | the trade lists a product exactly when either frame holds it, with weight new − old (missing = 0) |
| Ledger.DiffProducts | base_update.py:72 | subtract aligns on the union of both indexes: a row of the trade carries a product exactly when a row of the new or the old frame does |
| Ledger.DiffRoundTrip | base_update.py:72 | the old weights plus the trade give the new weights, product by product |
| Ledger.DiffAntisymmetric | base_update.py:72 | trading from a to b is the opposite of trading from b to a |
| Ledger.DiffOfSameIsZero | base_update.py:72 | re-submitting the latest weights trades nothing |
| Ledger.DiffFromNothing | base_update.py:54-55 | without a previous snapshot the trade is the new weights |
| Ledger.WithCell | base_update.py:79-82 | overwriting one profile's cell keeps the date and every other profile's cell |
| Ledger.UpsertRecords | base_update.py:76-83 | after recording, the date has a row, and every row of that date holds the trade in the profile's column |
| Ledger.UpsertKeepsOthers | base_update.py:76-83 | recording adds a row only when the date had none; it changes no other date's rows and no other profile's column, and a new row's other cells are NULL |
| Ledger.UpsertIdempotent | base_update.py:76-83 | recording the same trade twice is the same as recording it once |
| Ledger.DealCell | base_update.py:64-73 | the cell is NULL exactly when no new weights are given; otherwise old + cell = new for every product |
| Ledger.EmptyTrade | base_update.py:65-73 | the stored trade is the empty object exactly when neither the new nor the old frame holds a product, and a trade is never the NULL no-trade marker |
| Ledger.Ledger.UpdatePortfolio | base_update.py:7-25 | a frame without repeated products is appended to Portfolios as one snapshot; Deals is unchanged |
| Ledger.Ledger.LatestSnapshot | base_update.py:46-53 | the result is a row of the profile with the greatest creation date, or none when the profile has no row |
| Ledger.Ledger.UpdateDeals | base_update.py:28-85 | Portfolios is unchanged; the call raises exactly when the new weights have a `weight` column and repeat a product, and then Deals is unchanged; weights without a `weight` column leave Deals unchanged; otherwise the profile's cell of the date is set to the trade against the latest snapshot |
| Strategies.EqualSplitSumsToOne | strategies.py:85 | the equal-split start point sums to 1 and every weight lies in (0, 1] |
| Strategies.TrailingIsMostRecent | strategies.py:38-39 | the kept rows are in date order, together with the older rows they make up the group, and no older row is later than a kept one |
| Strategies.SelectTrailing | strategies.py:31-42 | the loop collects, in group order, the entry of every product with enough observations |
| Strategies.SelectionExact | strategies.py:33-42 | a series is selected exactly when its product has a group with at least k rows, and its values are that group's k most recent, in date order |
| Strategies.SomesExact | strategies.py:31-42 | the collected entries are exactly the present results |
| Strategies.SomesEmpty | strategies.py:44-46 | nothing is collected exactly when every group is skipped |
| Strategies.FirstProductIsFirst | strategies.py:71-73 | the row read is the first Products row of the product, and none exists exactly when no row carries it |
| Strategies.BondFlagMeaning | strategies.py:69-76 | the flag is 0 or 1, and it is 1 exactly when the first Products row of the product has "bond" in its lower-cased category |
| Strategies.BondMask | strategies.py:69-77 | the loop gives one flag per selected product, in order |
| Strategies.LowRiskStartsInside | strategies.py:62-85 | `low_risk` starts the optimiser from the equal split, which meets the sum constraint and the [0, 1] bounds |
| Strategies.LowRisk | strategies.py:21-93 | the method returns what the selection, mask and optimiser run define, and None on an empty selection or a failed run |
| Strategies.LowRiskNeedsAFullYear | strategies.py:35-46 | without a product holding 252 observations the result is None |
| Strategies.LowRiskPortfolio | strategies.py:35-93 | every product of the result has 252 observations; with an optimiser that honours its constraints, the weights sum to 1, lie in [0, 1] and give bonds at least 60% |
| Strategies.FeaturesAreLatestBefore | strategies.py:135-140 | the features are rows of the group dated before the target, and no other such row is later than any of them |
| Strategies.MostRecentSplit | strategies.py:139-140 | when older rows are no later than kept rows, every kept row is in the group and no row left out is later than a kept one |
| Strategies.Predict | strategies.py:131-147 | the loop collects, in group order, one prediction per product with enough history whose prediction does not raise |
| Strategies.PredictionsExact | strategies.py:134-147 | a prediction is collected exactly when its product has a group, the group has w rows before the target, and the model predicts that value from its features |
| Strategies.AllocateInvests | strategies.py:149-165 | the strategy invests exactly when there is a prediction and the mean absolute prediction is strictly above 0.0025 |
| Strategies.ScaledAbsSum | strategies.py:161 | dividing every prediction by t divides their absolute sum by t |
| Strategies.AllocateWeights | strategies.py:154-167 | invested weights keep each product and its prediction's sign, equal the prediction divided by the absolute total, and their absolute values sum to 1 |
| Strategies.HedgedPredictionsSumToZero | strategies.py:154-161 | for any two products and any size above the threshold, opposite predictions of that size get weights +0.5 and −0.5, whose plain sum is 0, not 1 |
| Strategies.ThresholdIsStrict | strategies.py:160 | a single prediction invests exactly when its absolute value is strictly above 0.0025, and then carries the whole weight, +1 or −1 by its sign |
| Strategies.LinearStrategy | strategies.py:103-167 | the method returns None when the model cannot be loaded, and otherwise the weighting of the predictions |
| Strategies.LinearPortfolio | strategies.py:131-167 | the result's absolute weights sum to 1; each product has w observations before the target, and its weight has the sign of its prediction |
| Strategies.EquityIdsExact | strategies.py:183-184 | a product id is listed exactly when some Products row of it has category "equity" in any letter case |
| Strategies.InIdsExact | strategies.py:191-194 | the query returns exactly the Returns rows of the listed products |
| Strategies.GroupIsNotEmpty | strategies.py:201 | every group visited has at least one row |
| Strategies.SelectRecent | strategies.py:198-209 | the loop collects, in group order, each product's non-empty recent window |
| Strategies.RecentWindow | strategies.py:202-204 | a window holds exactly the group's rows dated from `days` before the group's latest date up to that date |
| Strategies.LatestDateBound | strategies.py:202 | no row of the group is later than its latest date |
| Strategies.LatestDateAttained | strategies.py:202 | the latest date is the date of one of the group's rows |
| Strategies.MeanSkipsNaN | strategies.py:216 | a NaN does not change a series' mean |
| Strategies.MeanOfFiniteSeries | strategies.py:216 | the mean of finite values is their arithmetic mean |
| Strategies.HighYieldStartsInside | strategies.py:223-225 | `high_yield` starts the optimiser from the equal split, which meets the sum constraint and the [−1, 1] bounds |
| Strategies.HighYield | strategies.py:178-235 | the method returns what the equity selection, window selection and optimiser run define |
| Strategies.SelectedIsEquity | strategies.py:183-209 | every selected series belongs to an equity product |
| Strategies.HighYieldPortfolio | strategies.py:183-235 | every product of the result is an equity; with an optimiser that honours its constraints, the weights sum to 1 and lie in [−1, 1] |
| Strategies.NegativeLookBackInvestsNothing | strategies.py:202-213 | with a negative look-back no row reaches the window, so the result is None |
| Training.InPeriodExact | model.py:22-24 | the period query returns exactly the rows dated within [start, end], bounds included |
| Training.PeriodRowsExact | model.py:22-33 | a product's series is built from exactly its rows dated within the period |
| Training.ProductExamplesExact | model.py:34-42 | an example is exactly a NaN-free window of w consecutive values plus the value right after it |
| Training.ProductExamplesCount | model.py:34-36 | a product with n values yields no example when n ≤ w and at most n − w otherwise; each window has w values and no NaN |
| Training.ExamplesExact | model.py:31-42 | an example of the period comes from the series of one of its products |
| Training.ProductWindows | model.py:36-42 | the inner loop appends the features and labels of the product's examples, in order |
| Training.CollectExamples | model.py:28-42 | the outer loop produces the features and labels of all products' examples, group after group |
| Training.FiniteRowsSound | model.py:52-54 | every kept row is an input row whose features and label are finite |
| Training.FiniteRowsComplete | model.py:52-54 | every input row whose features and label are finite is kept |
| Training.FitModel | model.py:22-58 | the method refuses when no example exists and when no finite row is left, and otherwise returns the finite training set |
| Training.TrainedShape | model.py:44-58 | a training set has as many labels as rows, at least one row, and w features in each row |
| Training.TrainedRowSound | model.py:37-54 | each training row and its label come from one example whose values are all finite |
| Training.TrainedRowComplete | model.py:37-54 | every example whose window and label are finite becomes a training row |
| Training.ShortHistoriesGiveNothing | model.py:34-46 | if no product has more than w observations in the period, the result is "not enough data" |

## Left out

- SQLite access, JSON encoding of frames, pickle files, logging, printing and matplotlib drawing are left out. Tables are sequences of rows passed in and returned. A frame's JSON round trip is taken to be the identity.
- Dates are day numbers. Parsing date strings with `pd.to_datetime` is not modelled.
- Floating point is modelled as exact reals. Only the distinction between a finite value, NaN and the two infinities is kept, where the code tests it. `pd.to_numeric(errors='coerce')` maps a non-numeric cell to NaN.
- The volatility and the Sharpe ratio (metrics.py:129-135) use the sample standard deviation, a square root that the model does not cover.
- The SLSQP optimiser is a parameter, `Solver`, with two limits:
  - `SolverShape` assumes that the result has the start point's shape.
  - The guarantees about the weights hold under `Honours`: the optimiser reports success only for feasible points.

  The objectives are recorded in the run but not evaluated: the covariance matrix and the squared gap between annualised volatility and `target_volatility` of `low_risk`, and the mean return of `high_yield`.
- `Strategies.LowRiskPortfolio` does not state optimality. Whether the weights bring the annualised volatility closest to `target_volatility` is left to the optimiser.
- The regressor is a parameter, `Predictor`. Loading it from a file is modelled by `Option<Predictor>`. Prediction raising, including on NaN input, is modelled by `None`.
- Fitting the regression and saving it (model.py:61-69) are left out. `Training.FitModel` returns the training set handed to the regression.
- The script entry point at model.py:71-72 calls a function that does not exist; it is not part of this model.
- Sort order:
  - pandas' default date sort is not stable. The model uses a stable sort, so rows of one product with the same date keep their table order.
  - For the metrics series, the constructor states only sortedness and permutation. The order among equal dates stays open there.
- Metrics.EffectiveWeights: an empty stored frame is skipped here. In the source, an empty frame is serialised as `{}` and read back without a `weight` column, so metrics.py:44 raises KeyError and aborts the whole load. The model does not capture that abort.
- Stored snapshots are taken to hold each product once, as the source's serialisation guarantees. For a frame that repeats a product, `Ledger.Lookup` reads its first row.
- Ledger.Ledger.UpdatePortfolio: requires distinct product ids. The source's serialisation (base_update.py:19) raises ValueError on a repeated id, so no such frame is ever stored.
- Metrics matches products by their string form (metrics.py:87-92). The model compares the integer ids.
- `Ledger.Diff` puts the new frame's products first, then those only the old frame holds. pandas' `subtract` may order the union of both indexes differently. The lemmas speak of per-product weights only.
- Lower-casing covers ASCII letters only. A NULL category in Products is not modelled.
- `Strategies.RecentOf` also returns None on an empty group. That case cannot happen for a product that has a group (`Strategies.GroupIsNotEmpty`).
- `Strategies.LinearPortfolio` states the sign of each weight relative to its prediction, not its exact value. The exact value, prediction divided by the absolute total, is stated by `Strategies.AllocateWeights`.
- The two refusals of `fit_model` both return None in the source. The model tells them apart as `NotEnoughData` and `NoFiniteData`.
